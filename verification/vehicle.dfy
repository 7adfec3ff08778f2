/**
 * A vehicle of simulated ECUs behind a CAN transport, and how the client orders its
 * answers (transport.go, client.go).
 */
module Vehicles {
  import opened Can
  import opened Answers
  import opened Obd
  import opened Simulator
  import opened Sorting
  import Segmentation

  datatype Failure =
    | NoResponse | BadRequest | BusFailure
    | Refused(ecu: uint32, service: byte, code: byte)
    | BadReading | BadListing | EmptyVin(ecu: uint32)

  // ---------------------------------------------------------------- the vehicle

  /** The ECUs of a vehicle, by ascending identifier of their answers. */
  predicate ValidEcus(ecus: seq<State>) {
    forall i, j :: 0 <= i < j < |ecus| ==> ecus[i].Response() < ecus[j].Response()
  }

  /**
   * What one ECU's answer to a broadcast looks like to the client; an answer that ISO-TP
   * cannot carry is never sent.
   */
  function Reply(e: State, protocol: Protocol, req: seq<byte>): seq<Response>
    requires req != []
  {
    var a := AnswerTo(e, req, true);
    if a.Some? && Segmentation.Sendable(a.value) then [Response(e.Response(), protocol, a.value)] else []
  }

  function Replies(ecus: seq<State>, protocol: Protocol, req: seq<byte>): seq<Response>
    requires req != []
  {
    if ecus == [] then []
    else Replies(ecus[..|ecus| - 1], protocol, req) + Reply(ecus[|ecus| - 1], protocol, req)
  }

  /** The ECUs after a request. */
  function Served(ecus: seq<State>, req: seq<byte>): (r: seq<State>)
    requires req != []
    ensures |r| == |ecus|
  {
    seq(|ecus|, i requires 0 <= i < |ecus| => After(ecus[i], req))
  }

  /** The CAN transport to a vehicle: the answers of a broadcast arrive in any order. */
  class Vehicle {
    var ecus: seq<State>
    const protocol: Protocol
    const combines: bool
    const reliable: bool

    ghost predicate Valid()
      reads this
    {
      ValidEcus(ecus) && protocol.IsCan()
    }

    constructor (ecus: seq<State>, protocol: Protocol, combines: bool, reliable: bool)
      requires ValidEcus(ecus) && protocol.IsCan()
      ensures Valid() && this.ecus == ecus && this.protocol == protocol
      ensures this.combines == combines && this.reliable == reliable
    {
      this.ecus, this.protocol, this.combines, this.reliable := ecus, protocol, combines, reliable;
    }

    method RoundTrip(req: seq<byte>) returns (r: Result<seq<Response>, Failure>)
      requires Valid()
      modifies this
      ensures Valid()
      ensures r == Err(BadRequest) <==> !(1 <= |req| <= 7)
      ensures r == Err(BadRequest) ==> ecus == old(ecus)
      ensures r == Err(BusFailure) ==> !reliable && (ecus == old(ecus) || ecus == Served(old(ecus), req))
      ensures r.Err? && r.error != BadRequest && r.error != BusFailure ==>
                r.error == NoResponse && Replies(old(ecus), protocol, req) == [] && ecus == Served(old(ecus), req)
      ensures r.Ok? ==>
                && r.value != [] && multiset(r.value) == multiset(Replies(old(ecus), protocol, req))
                && ecus == Served(old(ecus), req)
    {
      if |req| == 0 || |req| > 7 {
        return Err(BadRequest);
      }
      var fails: bool := *;
      if fails && !reliable {
        return Err(BusFailure);
      }
      var rs: seq<Response> := [];
      for i := 0 to |ecus|
        invariant multiset(rs) == multiset(Replies(ecus[..i], protocol, req))
      {
        assert ecus[..i + 1][..i] == ecus[..i];
        var reply := Reply(ecus[i], protocol, req);
        var at: nat :| at <= |rs|;
        assert rs == rs[..at] + rs[at..];
        rs := rs[..at] + reply + rs[at..];
      }
      assert ecus[..|ecus|] == ecus;
      ghost var all := Replies(ecus, protocol, req);
      ServedValid(ecus, req);
      ecus := Served(ecus, req);
      fails := *;
      if fails && !reliable {
        return Err(BusFailure);
      }
      SizesAgree(rs, all);
      return if |rs| == 0 then Err(NoResponse) else Ok(rs);
    }
  }

  lemma ServedValid(ecus: seq<State>, req: seq<byte>)
    requires ValidEcus(ecus) && req != []
    ensures ValidEcus(Served(ecus, req))
  {
    forall i | 0 <= i < |ecus| ensures Served(ecus, req)[i].Response() == ecus[i].Response() {
    }
  }

  // ---------------------------------------------------------------- requests

  function EcuOf(): Response -> int {
    (r: Response) => r.ecu
  }

  /** The responses that can answer a request, in their order. */
  function Answering(req: seq<byte>, rs: seq<Response>): seq<Response> {
    if rs == [] then []
    else
      var r, before := rs[|rs| - 1], Answering(req, rs[..|rs| - 1]);
      if IsAnswer(req, r.data) then before + [r] else before
  }

  /** What Request makes of the responses that the transport returned. */
  function Collected(req: seq<byte>, rs: seq<Response>): Result<seq<Response>, Failure> {
    var kept := Answering(req, rs);
    if kept == [] then Err(NoResponse) else Ok(SortBy(EcuOf(), kept))
  }

  /** Every reply is one of an ECU of the vehicle, in ascending order, and answers the request. */
  lemma {:induction false} RepliesSorted(ecus: seq<State>, protocol: Protocol, req: seq<byte>)
    requires ValidEcus(ecus) && req != []
    ensures Strict(EcuOf(), Replies(ecus, protocol, req))
    ensures forall r :: r in Replies(ecus, protocol, req) ==>
              && IsAnswer(req, r.data) && r.protocol == protocol
              && (ecus != [] ==> r.ecu <= ecus[|ecus| - 1].Response())
  {
    hide IsAnswer, AnswerTo;
    if ecus != [] {
      var before, e := ecus[..|ecus| - 1], ecus[|ecus| - 1];
      RepliesSorted(before, protocol, req);
      if AnswerTo(e, req, true).Some? {
        AnswersItsRequest(e, req, true);
      }
      var rs := Replies(before, protocol, req);
      forall i | 0 <= i < |rs| ensures rs[i].ecu < e.Response() {
        assert rs[i] in rs;
      }
    }
  }

  /** Whatever the order of arrival, the client sees every ECU's answer once, ordered by ECU. */
  lemma ArrivalOrderIrrelevant(ecus: seq<State>, protocol: Protocol, req: seq<byte>, rs: seq<Response>)
    requires ValidEcus(ecus) && req != [] && multiset(rs) == multiset(Replies(ecus, protocol, req))
    ensures Collected(req, rs)
            == if Replies(ecus, protocol, req) == [] then Err(NoResponse) else Ok(Replies(ecus, protocol, req))
  {
    var all := Replies(ecus, protocol, req);
    RepliesSorted(ecus, protocol, req);
    hide Replies, IsAnswer, SortBy;
    SizesAgree(rs, all);
    SameMembers(rs, all);
    AllAnswering(req, rs);
    DistinctArrangement(EcuOf(), rs, all);
    SortUnique(EcuOf(), rs, all);
  }

  lemma {:induction false} AllAnswering(req: seq<byte>, rs: seq<Response>)
    requires forall r :: r in rs ==> IsAnswer(req, r.data)
    ensures Answering(req, rs) == rs
  {
    hide IsAnswer;
    if rs != [] {
      var last := |rs| - 1;
      assert rs == rs[..last] + [rs[last]];
      AllAnswering(req, rs[..last]);
    }
  }

  predicate IsPositive(sid: byte, r: Response) {
    r.data != [] && r.data[0] == PositiveId(sid)
  }

  /** The responses that answer service sid, in their order. */
  function Positives(sid: byte, rs: seq<Response>): seq<Response> {
    if rs == [] then []
    else
      var r, before := rs[|rs| - 1], Positives(sid, rs[..|rs| - 1]);
      if IsPositive(sid, r) then before + [r] else before
  }

  /** The first refusal in a list of responses, or NoResponse. */
  function Refusal(sid: byte, rs: seq<Response>): (f: Failure)
    ensures f == NoResponse || f.Refused?
  {
    if rs == [] then NoResponse
    else
      var r, before := rs[|rs| - 1], Refusal(sid, rs[..|rs| - 1]);
      if before == NoResponse && !IsPositive(sid, r) && |r.data| >= 3 && r.data[0] == 0x7F then
        Refused(r.ecu, r.data[1], r.data[2])
      else before
  }

  /** positive as a function. */
  function Positive(sid: byte, rs: seq<Response>): Result<seq<Response>, Failure> {
    var out := Positives(sid, rs);
    if out == [] then Err(Refusal(sid, rs)) else Ok(out)
  }

  method KeepPositive(sid: byte, rs: seq<Response>) returns (r: Result<seq<Response>, Failure>)
    ensures r == Positive(sid, rs)
  {
    var out, refusal := [], NoResponse;
    for i := 0 to |rs|
      invariant out == Positives(sid, rs[..i]) && refusal == Refusal(sid, rs[..i])
    {
      assert rs[..i + 1][..i] == rs[..i];
      if |rs[i].data| > 0 && rs[i].data[0] == PositiveId(sid) {
        out := out + [rs[i]];
      } else if |rs[i].data| >= 3 && rs[i].data[0] == 0x7F && refusal == NoResponse {
        refusal := Refused(rs[i].ecu, rs[i].data[1], rs[i].data[2]);
      }
    }
    assert rs[..|rs|] == rs;
    return if |out| == 0 then Err(refusal) else Ok(out);
  }

  lemma {:induction false} AllPositive(sid: byte, rs: seq<Response>)
    requires forall r :: r in rs ==> IsPositive(sid, r)
    ensures Positives(sid, rs) == rs
  {
    hide IsPositive;
    if rs != [] {
      var last := |rs| - 1;
      assert rs == rs[..last] + [rs[last]];
      AllPositive(sid, rs[..last]);
    }
  }

  lemma HeadProtocol(ecus: seq<State>, protocol: Protocol, req: seq<byte>, rs: seq<Response>)
    requires ValidEcus(ecus) && req != [] && multiset(rs) == multiset(Replies(ecus, protocol, req))
    ensures Collected(req, rs).Ok? ==>
              Collected(req, rs).value != [] && Collected(req, rs).value[0].protocol == protocol
  {
    ArrivalOrderIrrelevant(ecus, protocol, req, rs);
    RepliesSorted(ecus, protocol, req);
    hide Collected, Replies;
    var all := Replies(ecus, protocol, req);
    if all != [] {
      assert all[0] in all;
    }
  }
}
