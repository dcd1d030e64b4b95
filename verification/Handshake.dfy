/** client_handler (src/rtl_stream_server.c): what a client's 29 request bytes make of it. */
module Handshake {
  import opened Words
  import opened Wire
  import Plan

  /** The server's side: the capture's frequency and rate, and whether it computes spectra. */
  datatype Capture = Capture(freq: u64, rate: u64, spectra: bool)

  datatype Verdict = Refused | ServeFft | ServeIq(freq: u64, rate: u64, plan: Plan.Plan)

  /** The bytes ask an IQ listener for r, tuned to by plan p. */
  ghost predicate AsksFor(buf: seq<byte>, cap: Capture, r: Req, p: Plan.Plan) {
    && EncodeReq(r) == Some(buf) && r.mode == MODE_IQ && r.freq < U32 && cap.freq < U32
    && Plan.Candidate(cap.rate, r.rate, r.bandwidth, r.freq - cap.freq, p) && Plan.InBudget(p)
  }

  /** A request is served exactly when it is the encoding of one for this listener that can be
      served: all zero for spectra; for IQ one whose channel, at the requested frequency, has a
      plan. The client then gets that frequency, that rate and that plan. */
  method Judge(buf: seq<byte>, mode: byte, cap: Capture) returns (v: Verdict)
    requires |buf| == REQ_SIZE && (mode == MODE_IQ || mode == MODE_FFT)
    ensures v.ServeFft? <==>
            mode == MODE_FFT && cap.spectra && EncodeReq(Req(MAGIC_REQ, 0, 0, 0, MODE_FFT)) == Some(buf)
    ensures v.ServeIq? <==> mode == MODE_IQ && exists r, p :: AsksFor(buf, cap, r, p)
    ensures forall r, p :: v.ServeIq? && AsksFor(buf, cap, r, p) ==> v == ServeIq(r.freq, r.rate, p)
  {
    hide Plan.Candidate, Plan.InBudget, Put32, Put64, Get32, Get64;
    RequestExact(buf);
    var decoded := DecodeReq(buf);
    OnlyRequest(buf);
    if decoded.None? || decoded.value.mode != mode {
      return Refused;
    }
    var r := decoded.value;
    if mode == MODE_FFT {
      return if cap.spectra then ServeFft else Refused;
    }
    if r.freq >= U32 || cap.freq >= U32 {
      return Refused;
    }
    var offset := r.freq - cap.freq;
    var plan := Plan.MakePlan(cap.rate, r.rate, r.bandwidth, offset);
    OnlyPlan(cap, r, plan);
    if plan.None? {
      return Refused;
    }
    assert AsksFor(buf, cap, r, plan.value);
    return ServeIq(r.freq, r.rate, plan.value);
  }

  lemma OnlyRequest(buf: seq<byte>)
    requires |buf| == REQ_SIZE
    ensures forall r :: EncodeReq(r) == Some(buf) ==> DecodeReq(buf) == Some(r)
  {
    hide Put32, Put64, Get32, Get64;
    forall r | EncodeReq(r) == Some(buf) ensures DecodeReq(buf) == Some(r) {
      RequestRoundTrip(r);
    }
  }

  lemma OnlyPlan(cap: Capture, r: Req, plan: Option<Plan.Plan>)
    requires r.freq < U32 && cap.freq < U32
    requires Plan.Planned(cap.rate, r.rate, r.bandwidth, r.freq - cap.freq, plan)
    ensures forall p :: Plan.Candidate(cap.rate, r.rate, r.bandwidth, r.freq - cap.freq, p) && Plan.InBudget(p) ==>
              plan == Some(p)
  {
    hide Plan.Candidate, Plan.InBudget;
    forall p | Plan.Candidate(cap.rate, r.rate, r.bandwidth, r.freq - cap.freq, p) && Plan.InBudget(p)
      ensures plan == Some(p)
    {
      Plan.PlanUnique(cap.rate, r.rate, r.bandwidth, r.freq - cap.freq, plan, Some(p));
    }
  }
}
