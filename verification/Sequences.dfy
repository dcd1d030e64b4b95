/** Concatenating the pieces of a stream. */
module Sequences {
  function Flatten<T>(parts: seq<seq<T>>): (r: seq<T>) {
    if parts == [] then [] else Flatten(parts[..|parts| - 1]) + parts[|parts| - 1]
  }

  lemma {:induction false} FlattenAppend<T>(a: seq<seq<T>>, b: seq<seq<T>>)
    ensures Flatten(a + b) == Flatten(a) + Flatten(b)
  {
    if b == [] {
      assert a + b == a;
    } else {
      var last := |b| - 1;
      FlattenAppend(a, b[..last]);
      assert (a + b)[..|a + b| - 1] == a + b[..last];
      assert (a + b)[|a + b| - 1] == b[last];
    }
  }

  lemma FlattenOne<T>(part: seq<T>)
    ensures Flatten([part]) == part
  {
    assert [part][..0] == [];
  }

  lemma FlattenSnoc<T>(parts: seq<seq<T>>, p: seq<T>)
    ensures Flatten(parts + [p]) == Flatten(parts) + p
  {
    assert (parts + [p])[..|parts|] == parts;
  }

  lemma FlattenCons<T>(p: seq<T>, parts: seq<seq<T>>)
    ensures Flatten([p] + parts) == p + Flatten(parts)
  {
    FlattenAppend([p], parts);
    FlattenOne(p);
  }

  lemma FlattenPrefix<T>(a: seq<seq<T>>, b: seq<seq<T>>)
    requires a <= b
    ensures Flatten(a) <= Flatten(b)
  {
    assert b == a + b[|a|..];
    FlattenAppend(a, b[|a|..]);
  }

  lemma {:induction false} FlattenEven<T>(parts: seq<seq<T>>)
    requires forall i :: 0 <= i < |parts| ==> |parts[i]| % 2 == 0
    ensures |Flatten(parts)| % 2 == 0
  {
    if parts != [] {
      FlattenEven(parts[..|parts| - 1]);
    }
  }
}
