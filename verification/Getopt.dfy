/** exchange in src/getopt/getopt.c: the non-options skipped so far and the options that
    follow them change places in argv. */
module Getopt {

  /** Where element k of the result comes from when [b, m) and [m, t) change places. */
  function From(b: int, m: int, t: int, k: int): int {
    if b <= k < b + (t - m) then k + (m - b)
    else if b + (t - m) <= k < t then k - (t - m)
    else k
  }

  /** And when two equally long stretches, from x and from y, change places. */
  function Other(x: int, y: int, len: int, k: int): int {
    if x <= k < x + len then k + (y - x) else if y <= k < y + len then k - (y - x) else k
  }

  ghost function Exchanged<T>(was: seq<T>, b: nat, m: nat, t: nat): (now: seq<T>)
    requires b <= m <= t <= |was|
    ensures |now| == |was|
  {
    seq(|was|, k requires 0 <= k < |was| => was[From(b, m, t, k)])
  }

  ghost predicate Swapped<T>(was: seq<T>, x: nat, y: nat, len: nat, now: seq<T>)
    requires x + len <= y && y + len <= |was|
  {
    |now| == |was| && forall k :: 0 <= k < |now| ==> now[k] == was[Other(x, y, len, k)]
  }

  /** The exchange still to do, once a shorter lower block has gone to the far end of the upper
      one, completes the exchange. */
  lemma LowerSettled<T>(was: seq<T>, b: nat, m: nat, t: nat, s: seq<T>)
    requires b < m <= t <= |was| && m - b < t - m && Swapped(was, b, t - (m - b), m - b, s)
    ensures Exchanged(s, b, m, t - (m - b)) == Exchanged(was, b, m, t)
  {
    forall k | 0 <= k < |was| ensures Exchanged(s, b, m, t - (m - b))[k] == Exchanged(was, b, m, t)[k] {}
  }

  lemma UpperSettled<T>(was: seq<T>, b: nat, m: nat, t: nat, s: seq<T>)
    requires b <= m < t <= |was| && t - m <= m - b && Swapped(was, b, m, t - m, s)
    ensures Exchanged(s, b + (t - m), m, t) == Exchanged(was, b, m, t)
  {
    forall k | 0 <= k < |was| ensures Exchanged(s, b + (t - m), m, t)[k] == Exchanged(was, b, m, t)[k] {}
  }

  lemma NothingLeft<T>(was: seq<T>, b: nat, m: nat, t: nat)
    requires b <= m <= t <= |was| && (b == m || m == t)
    ensures Exchanged(was, b, m, t) == was
  {}

  method SwapRanges<T>(a: array<T>, x: nat, y: nat, len: nat)
    requires x + len <= y && y + len <= a.Length
    modifies a
    ensures Swapped(old(a[..]), x, y, len, a[..])
  {
    for i := 0 to len
      invariant forall k :: 0 <= k < a.Length ==> a[k] == old(a[..])[Other(x, y, i, k)]
    {
      var tem := a[x + i];
      a[x + i] := a[y + i];
      a[y + i] := tem;
    }
  }

  /** The result in blocks. */
  lemma ExchangedBlocks<T>(was: seq<T>, b: nat, m: nat, t: nat)
    requires b <= m <= t <= |was|
    ensures Exchanged(was, b, m, t) == was[..b] + was[m..t] + was[b..m] + was[t..]
  {}

  class Scanner<T> {
    const argv: array<T>
    var firstNonopt: nat
    var lastNonopt: nat
    var optind: nat

    ghost predicate Valid()
      reads this
    {
      firstNonopt <= lastNonopt <= optind <= argv.Length
    }

    constructor (argv: array<T>)
      ensures Valid() && this.argv == argv
    {
      this.argv := argv;
      firstNonopt, lastNonopt, optind := 0, 0, 0;
    }

    /** The two blocks, of any lengths, change places in argv; each keeps its order and nothing
        else moves; the bounds go with the non-options. */
    method Exchange()
      requires Valid()
      modifies this`firstNonopt, this`lastNonopt, argv
      ensures Valid() && lastNonopt == optind && firstNonopt == old(firstNonopt) + (optind - old(lastNonopt))
      ensures argv[..] == old(argv[..][..firstNonopt] + argv[..][lastNonopt..optind]
                + argv[..][firstNonopt..lastNonopt] + argv[..][optind..])
    {
      hide Exchanged, Swapped;
      var bottom, middle, top := firstNonopt, lastNonopt, optind;
      ghost var was := argv[..];
      while top > middle && middle > bottom
        modifies argv
        invariant firstNonopt <= bottom <= middle <= top <= optind
        invariant Exchanged(argv[..], bottom, middle, top) == Exchanged(was, firstNonopt, lastNonopt, optind)
        decreases top - bottom
      {
        ghost var before := argv[..];
        if top - middle > middle - bottom {
          var len := middle - bottom;
          SwapRanges(argv, bottom, top - len, len);
          LowerSettled(before, bottom, middle, top, argv[..]);
          top := top - len;
        } else {
          var len := top - middle;
          SwapRanges(argv, bottom, middle, len);
          UpperSettled(before, bottom, middle, top, argv[..]);
          bottom := bottom + len;
        }
      }
      NothingLeft(argv[..], bottom, middle, top);
      ExchangedBlocks(was, firstNonopt, lastNonopt, optind);
      firstNonopt := firstNonopt + (optind - lastNonopt);
      lastNonopt := optind;
    }
  }
}
