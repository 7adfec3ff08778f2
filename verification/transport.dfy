/** Which responses can answer a request (answer.go). */
module Answers {
  import opened Can

  const NRC_RESPONSE_PENDING := 0x78

  /** The service identifier of a positive response, in byte arithmetic. */
  function PositiveId(sid: byte): byte {
    var n: int := sid;
    (n + 0x40) % 0x100
  }

  predicate IsAnswer(req: seq<byte>, resp: seq<byte>) {
    if req == [] || resp == [] then false
    else if resp[0] == 0x7F then |resp| >= 2 && resp[1] == req[0]
    else if resp[0] != PositiveId(req[0]) then false
    else if req[0] == 0x01 || req[0] == 0x02 then |req| >= 2 && |resp| >= 2 && resp[1] in req[1..]
    else if req[0] == 0x06 || req[0] == 0x09 then |req| >= 2 && |resp| >= 2 && resp[1] == req[1]
    else if req[0] == 0x22 then |req| >= 3 && |resp| >= 3 && resp[1] == req[1] && resp[2] == req[2]
    else true
  }

  /** A negative response that only asks for more time. */
  predicate IsPending(msg: seq<byte>) {
    |msg| >= 3 && msg[0] == 0x7F && msg[2] == NRC_RESPONSE_PENDING
  }
}

/** Identifiers of ISO 15765-4, as the tester (can_transport.go) and an ECU (ecusim/ecusim.go) choose them. */
module Addresses {
  import opened Can

  datatype Addressing = Auto | Bits11 | Bits29

  // The fixed parts of the 29-bit identifiers, whose low 16 bits hold target and source.
  const TO_ECU := 0x18DA00F1
  const FROM_ECU := 0x18DAF100
  const FUNCTIONAL_29 := 0x18DB33F1
  const FUNCTIONAL_11 := 0x7DF

  /** Unsigned 32-bit wrap-around. */
  function Wrap(n: int): uint32 {
    n % 0x1_0000_0000
  }

  /** The identifier that the tester sends requests on; `ecu` is zero for a broadcast. */
  function RequestId(mode: Addressing, ecu: uint32): uint32 {
    if mode == Bits29 then (if ecu != 0 then TO_ECU + ecu % 0x100 * 0x100 else FUNCTIONAL_29)
    else if ecu != 0 then ecu
    else FUNCTIONAL_11
  }

  /** Where to send flow control for a received identifier, when it is an answer at all. */
  function Match(mode: Addressing, ecu: uint32, id: uint32): Option<uint32> {
    if mode == Bits29 then
      if ecu != 0 then (if id == FROM_ECU + ecu % 0x100 then Some(TO_ECU + ecu % 0x100 * 0x100) else None)
      else if id % 0x2000_0000 / 0x100 != FROM_ECU / 0x100 then None
      else Some(TO_ECU + id % 0x100 * 0x100)
    else if ecu != 0 then (if id == Wrap(ecu + 8) then Some(ecu) else None)
    else if id < 0x7E8 || id > 0x7EF then None
    else Some(id - 8)
  }

  /** The identifier that an ECU listens on and sends on. */
  function Physical(extended: bool, address: uint32): uint32 {
    if extended then TO_ECU + address % 0x100 * 0x100 else address
  }

  function Response(extended: bool, address: uint32): uint32 {
    if extended then FROM_ECU + address % 0x100 else Wrap(address + 8)
  }

  /** The ECU addresses that a broadcast reaches: 0x7E0-0x7E7, or one byte. */
  predicate Legislated(extended: bool, address: uint32) {
    if extended then address < 0x100 else 0x7E0 <= address <= 0x7E7
  }

  /**
   * Answers to a broadcast are recognized for exactly the legislated ECU addresses, and
   * their flow control goes to the ECU that sent them, in both addressing schemes.
   */
  lemma BroadcastRoutesBack(extended: bool, address: uint32)
    ensures extended || 0x7E0 <= address <= 0x7E7 ==>
              Match(if extended then Bits29 else Bits11, 0, Response(extended, address))
              == Some(Physical(extended, address))
    ensures !extended && !(0x7E0 <= address <= 0x7E7) ==> Match(Bits11, 0, Response(extended, address)) == None
  {
  }

  /** A directed request goes to its ECU, takes only that ECU's answers, and routes flow control back to it. */
  lemma DirectedRoutesBack(extended: bool, address: uint32, id: uint32)
    requires address != 0
    ensures
      var mode := if extended then Bits29 else Bits11;
      && RequestId(mode, address) == Physical(extended, address)
      && (Match(mode, address, id).Some? <==> id == Response(extended, address))
      && (Match(mode, address, id).Some? ==> Match(mode, address, id).value == Physical(extended, address))
  {
  }

  /**
   * No legislated ECU hears another one's answers as a request to itself, or a broadcast as
   * a directed request. One ECU has a single identifier for both directions: the one with
   * the 29-bit address 0xF1, the tester's own, which is harmless because a bus does not
   * give an endpoint its own frames.
   */
  lemma OnlyTesterAddressCollides(extended: bool, a: uint32, b: uint32)
    requires Legislated(extended, a) && Legislated(extended, b)
    ensures Physical(extended, a) == Response(extended, b) <==> extended && a == 0xF1 && b == 0xF1
    ensures Response(extended, a) == Response(extended, b) <==> a == b
    ensures Physical(extended, a) == Physical(extended, b) <==> a == b
    ensures
      var functional := RequestId(if extended then Bits29 else Bits11, 0);
      Physical(extended, a) != functional && Response(extended, a) != functional
  {
  }
}

/** The CAN transport: one request, every ECU's answers (can_transport.go). */
module Transport {
  import opened Can
  import opened IsoTp
  import opened Endpoints
  import opened Addresses
  import opened Answers
  import opened Obd
  import Segmentation
  import Sender
  import Conns
  import Demux
  import Seqs

  const RESPONSE_PENDING_TIMEOUT := 5 * SECOND

  datatype Failure =
    | BadRequest
    | NoResponse
    | BusFailure
    | SendFailure(error: Error)
    | EcuFailure(id: uint32, error: Error)

  /** One request on one addressing: what roundTrip is called with, and the options in force. */
  datatype Call = Call(req: seq<byte>, mode: Addressing, ecu: uint32, opt: Options, timeout: int)
  {
    predicate Extended() {
      mode == Bits29
    }

    /** The protocol that answers arrive on. */
    function On(): Protocol {
      if Extended() then Can29 else Can11
    }

    /** The ISO-TP options with the addressing's identifier length. */
    function Link(): Options {
      opt.(extended := Extended())
    }

    function Window(): (t: int)
      ensures t > 0
    {
      if timeout > 0 then timeout else 100 * MILLISECOND
    }

    /** A message counts as a response unless it answers another request or only asks for time. */
    predicate Keeps(msg: seq<byte>) {
      IsAnswer(req, msg) && !IsPending(msg)
    }

    predicate Accepts(f: Frame) {
      f.extended == Extended() && Match(mode, ecu, f.id).Some?
    }

    /** How long to wait for more from an ECU after the result of its latest frame. */
    function DueAfter(fed: (RxState, Fed), at: int): Option<int> {
      if fed.1.msg.Some? && IsAnswer(req, fed.1.msg.value) && IsPending(fed.1.msg.value) then
        Some(at + RESPONSE_PENDING_TIMEOUT)
      else if fed.0.active then Some(at + opt.Timeout())
      else None
    }
  }

  /** The accepted frames of a log, as the receivers see them. */
  function Hearing(c: Call, log: seq<Event>): seq<Demux.Heard> {
    if log == [] then []
    else
      var e, before := log[|log| - 1], Hearing(c, log[..|log| - 1]);
      if e.Got? && c.Accepts(e.frame) then before + [Demux.Heard(e.frame.id, e.frame.Payload())] else before
  }

  /** The demultiplexed receivers after a log. */
  function After(c: Call, log: seq<Event>): (s: Demux.State)
    ensures s.Valid()
  {
    Demux.Run(c.Link(), m => c.Keeps(m), Hearing(c, log))
  }

  /** For each ECU heard, when its message or its promised answer is due, counted from its latest frame alone. */
  function Dues(c: Call, log: seq<Event>): map<uint32, Option<int>> {
    if log == [] then map[]
    else
      var e, before := log[|log| - 1], Dues(c, log[..|log| - 1]);
      if e.Got? && c.Accepts(e.frame) then
        var rx := After(c, log[..|log| - 1]).At(e.frame.id);
        before[e.frame.id := c.DueAfter(FeedStep(c.Link(), rx, e.frame.Payload()), e.at)]
      else before
  }

  lemma LogSnoc(c: Call, log: seq<Event>, e: Event)
    ensures e.Got? && c.Accepts(e.frame) ==>
              var h := Demux.Heard(e.frame.id, e.frame.Payload());
              var fed := FeedStep(c.Link(), After(c, log).At(h.id), h.p);
              && Hearing(c, log + [e]) == Hearing(c, log) + [h]
              && After(c, log + [e]) == Demux.Step(c.Link(), m => c.Keeps(m), After(c, log), h)
              && Dues(c, log + [e]) == Dues(c, log)[h.id := c.DueAfter(fed, e.at)]
    ensures !(e.Got? && c.Accepts(e.frame)) ==>
              Hearing(c, log + [e]) == Hearing(c, log) && After(c, log + [e]) == After(c, log)
                && Dues(c, log + [e]) == Dues(c, log)
  {
    hide FeedStep, Match;
    assert (log + [e])[..|log|] == log;
    if e.Got? && c.Accepts(e.frame) {
      Demux.RunSnoc(c.Link(), m => c.Keeps(m), Hearing(c, log), Demux.Heard(e.frame.id, e.frame.Payload()));
    }
  }

  /** d is the moment roundTrip stops listening: the end of the window or the latest due time. */
  ghost predicate IsDeadline(window: int, dues: map<uint32, Option<int>>, d: int) {
    && window <= d
    && (forall id :: id in dues && dues[id].Some? ==> dues[id].value <= d)
    && (d == window || exists id :: id in dues && dues[id] == Some(d))
  }

  function Responses(c: Call, out: seq<Demux.Tagged>): seq<Response> {
    if out == [] then []
    else
      var t := out[|out| - 1];
      Responses(c, out[..|out| - 1]) + [Response(t.id, c.On(), t.data)]
  }

  /** The flow control frames, each on the identifier that its ECU listens on. */
  function Routed(c: Call, fcs: seq<Demux.Tagged>): seq<Frame> {
    if fcs == [] then []
    else
      var t, before := fcs[|fcs| - 1], Routed(c, fcs[..|fcs| - 1]);
      var m := Match(c.mode, c.ecu, t.id);
      if m.Some? then before + [FrameOf(c.Link(), m.value, t.data)] else before
  }

  /**
   * Every event came no later than the deadline in force at that moment, which the events
   * before it determine; a frame that was already queued by then may still be taken.
   */
  ghost predicate InTime(c: Call, from: int, log: seq<Event>) {
    log != [] ==>
      var e, before := log[|log| - 1], log[..|log| - 1];
      && InTime(c, from, before) && TimeOf(from, before) <= e.at
      && forall d :: IsDeadline(from + c.Window(), Dues(c, before), d) ==> e.at <= Max(TimeOf(from, before), d)
  }

  /** Listening ended at the deadline, or at once when that had already passed. */
  ghost predicate EndsAtDeadline(c: Call, from: int, log: seq<Event>) {
    && log != [] && log[|log| - 1].Expired?
    && var before := log[..|log| - 1];
       exists d :: IsDeadline(from + c.Window(), Dues(c, before), d)
         && log[|log| - 1].at == Max(TimeOf(from, before), d)
  }

  /** How listening from time `from` to `now` may end, with the log of what was heard and sent meanwhile. */
  ghost predicate Listened(c: Call, from: int, log: seq<Event>, now: int, r: Result<seq<Response>, Failure>) {
    var s := After(c, log);
    && InTime(c, from, log) && now == TimeOf(from, log)
    && match r
       case Ok(rs) =>
         && s.err == None && rs != [] && rs == Responses(c, s.out)
         && SentFrames(log) == Routed(c, s.fcs)
         && (if c.ecu != 0 then |rs| == 1 else EndsAtDeadline(c, from, log))
       case Err(NoResponse) =>
         && s.err == None && s.out == [] && SentFrames(log) == Routed(c, s.fcs)
         && EndsAtDeadline(c, from, log)
       case Err(EcuFailure(id, e)) =>
         s.err == Some((id, e)) && SentFrames(log) == Routed(c, s.fcs)
       case Err(BusFailure) => EndsBroken(log)
       case Err(_) => false
  }

  lemma OneDeadline(window: int, dues: map<uint32, Option<int>>, d: int)
    requires IsDeadline(window, dues, d)
    ensures forall d' :: IsDeadline(window, dues, d') ==> d' == d
  {
  }

  /** One more event, by the deadline. */
  lemma InTimeSnoc(c: Call, from: int, log: seq<Event>, e: Event, d: int)
    requires InTime(c, from, log) && IsDeadline(from + c.Window(), Dues(c, log), d)
    requires TimeOf(from, log) <= e.at <= Max(TimeOf(from, log), d)
    ensures InTime(c, from, log + [e]) && TimeOf(from, log + [e]) == e.at
    ensures e.Expired? && e.at == Max(TimeOf(from, log), d) ==> EndsAtDeadline(c, from, log + [e])
  {
    hide Dues, IsDeadline;
    assert (log + [e])[..|log|] == log;
    OneDeadline(from + c.Window(), Dues(c, log), d);
  }

  /** The tester's own events take no time. */
  lemma InTimeNow(c: Call, from: int, log: seq<Event>, e: Event)
    requires InTime(c, from, log) && e.at == TimeOf(from, log)
    ensures InTime(c, from, log + [e]) && TimeOf(from, log + [e]) == e.at
  {
    hide Dues, IsDeadline;
    assert (log + [e])[..|log|] == log;
  }

  /** What roundTrip keeps for one ECU: its receiver, and when more from it is due. */
  datatype EcuState = EcuState(rx: RxState, deadline: Option<int>)

  /** The ECU states are what the log says. */
  ghost predicate InSync(c: Call, ecus: map<uint32, EcuState>, log: seq<Event>) {
    && ecus.Keys == After(c, log).rx.Keys == Dues(c, log).Keys
    && forall id :: id in ecus ==> ecus[id] == EcuState(After(c, log).rx[id], Dues(c, log)[id])
  }

  lemma RoutedSnoc(c: Call, fcs: seq<Demux.Tagged>, t: Demux.Tagged)
    requires Match(c.mode, c.ecu, t.id).Some?
    ensures Routed(c, fcs + [t]) == Routed(c, fcs) + [FrameOf(c.Link(), Match(c.mode, c.ecu, t.id).value, t.data)]
  {
    assert (fcs + [t])[..|fcs|] == fcs;
  }

  lemma ResponsesSnoc(c: Call, out: seq<Demux.Tagged>, t: Demux.Tagged)
    ensures Responses(c, out + [t]) == Responses(c, out) + [Response(t.id, c.On(), t.data)]
  {
    assert (out + [t])[..|out|] == out;
  }

  lemma SentSnoc(log: seq<Event>, e: Event)
    ensures SentFrames(log + [e]) == if e.Sent? then SentFrames(log) + [e.frame] else SentFrames(log)
  {
    assert (log + [e])[..|log|] == log;
  }

  /** What one accepted frame changes. */
  lemma HeardStep(c: Call, log: seq<Event>, at: int, f: Frame, res: (RxState, Fed))
    requires c.Accepts(f) && After(c, log).err == None && res == FeedStep(c.Link(), After(c, log).At(f.id), f.Payload())
    ensures
      var s, s' := After(c, log), After(c, log + [Got(at, f)]);
      && s'.rx == s.rx[f.id := res.0] && Dues(c, log + [Got(at, f)]) == Dues(c, log)[f.id := c.DueAfter(res, at)]
      && s'.err == (if res.1.err.Some? then Some((f.id, res.1.err.value)) else None)
      && (s'.out == [] <==> s.out == [] && !(res.1.msg.Some? && c.Keeps(res.1.msg.value)))
      && Responses(c, s'.out) == (if res.1.msg.Some? && c.Keeps(res.1.msg.value)
                                  then Responses(c, s.out) + [Response(f.id, c.On(), res.1.msg.value)]
                                  else Responses(c, s.out))
      && Routed(c, s'.fcs) == (if res.1.fc.Some?
                               then Routed(c, s.fcs)
                                    + [FrameOf(c.Link(), Match(c.mode, c.ecu, f.id).value, res.1.fc.value)]
                               else Routed(c, s.fcs))
      && SentFrames(log + [Got(at, f)]) == SentFrames(log)
  {
    hide FeedStep, Match, FrameOf, Responses, Routed, IsAnswer, IsPending, Hearing, Demux.Run, After, Dues;
    LogSnoc(c, log, Got(at, f));
    SentSnoc(log, Got(at, f));
    var s := After(c, log);
    if res.1.msg.Some? {
      ResponsesSnoc(c, s.out, Demux.Tagged(f.id, res.1.msg.value));
    }
    if res.1.fc.Some? {
      RoutedSnoc(c, s.fcs, Demux.Tagged(f.id, res.1.fc.value));
    }
  }

  /** Events other than accepted frames change nothing but the record of frames sent. */
  lemma OtherEvent(c: Call, log: seq<Event>, e: Event)
    requires !(e.Got? && c.Accepts(e.frame))
    ensures After(c, log + [e]) == After(c, log) && Dues(c, log + [e]) == Dues(c, log)
    ensures SentFrames(log + [e]) == if e.Sent? then SentFrames(log) + [e.frame] else SentFrames(log)
  {
    LogSnoc(c, log, e);
    SentSnoc(log, e);
  }

  lemma ResponsesEmpty(c: Call, out: seq<Demux.Tagged>)
    ensures Responses(c, out) == [] <==> out == []
  {
  }

  lemma Begin(c: Call, none: map<uint32, EcuState>)
    requires none == map[]
    ensures InSync(c, none, []) && After(c, []).err == None && Responses(c, After(c, []).out) == []
    ensures SentFrames([]) == Routed(c, After(c, []).fcs)
  {
    NothingHeard(c);
  }

  lemma StillInSync(c: Call, ecus: map<uint32, EcuState>, log: seq<Event>, more: seq<Event>)
    requires InSync(c, ecus, log) && After(c, more) == After(c, log) && Dues(c, more) == Dues(c, log)
    ensures InSync(c, ecus, more)
  {
  }

  lemma StopsAtDeadline(c: Call, from: int, log: seq<Event>, now: int, rs: seq<Response>)
    requires After(c, log).err == None && rs == Responses(c, After(c, log).out)
    requires SentFrames(log) == Routed(c, After(c, log).fcs) && (c.ecu != 0 ==> rs == [])
    requires InTime(c, from, log) && now == TimeOf(from, log) && EndsAtDeadline(c, from, log)
    ensures Listened(c, from, log, now, if |rs| == 0 then Err(NoResponse) else Ok(rs))
  {
    hide Hearing, After, Dues, SentFrames, Routed, Responses, IsDeadline, InTime, EndsAtDeadline;
    ResponsesEmpty(c, After(c, log).out);
  }

  lemma BusFails(c: Call, from: int, log: seq<Event>, now: int)
    requires InTime(c, from, log) && now == TimeOf(from, log) && EndsBroken(log)
    ensures Listened(c, from, log, now, Err(BusFailure))
  {
  }

  lemma EcuFails(c: Call, from: int, log: seq<Event>, now: int)
    requires InTime(c, from, log) && now == TimeOf(from, log)
    requires After(c, log).err.Some? && SentFrames(log) == Routed(c, After(c, log).fcs)
    ensures Listened(c, from, log, now, Err(EcuFailure(After(c, log).err.value.0, After(c, log).err.value.1)))
  {
  }

  lemma FirstAnswerEnds(c: Call, from: int, log: seq<Event>, now: int, rs: seq<Response>)
    requires InTime(c, from, log) && now == TimeOf(from, log)
    requires After(c, log).err == None && rs == Responses(c, After(c, log).out) && |rs| == 1 && c.ecu != 0
    requires SentFrames(log) == Routed(c, After(c, log).fcs)
    ensures Listened(c, from, log, now, Ok(rs))
  {
  }

  lemma IdleValid()
    ensures RxValid(IDLE)
  {
  }

  lemma NoEvents(c: Call, from: int)
    ensures InTime(c, from, []) && TimeOf(from, []) == from
  {
  }

  lemma NothingHeard(c: Call)
    ensures After(c, []) == Demux.EMPTY && Dues(c, []) == map[] && SentFrames([]) == []
    ensures Responses(c, []) == [] && Routed(c, []) == []
  {
  }

  class CANTransport {
    const bus: Endpoint
    const ecu: uint32
    const timeout: int
    const isotp: Options
    var mode: Addressing

    constructor (bus: Endpoint, addressing: Addressing, ecu: uint32, timeout: int, isotp: Options)
      ensures this.bus == bus && mode == addressing && this.ecu == ecu && this.timeout == timeout && this.isotp == isotp
    {
      this.bus, this.ecu, this.timeout, this.isotp, mode := bus, ecu, timeout, isotp, addressing;
    }

    /** The latest of the window and the ECUs' deadlines. */
    method Latest(c: Call, window: int, ecus: map<uint32, EcuState>, ghost log: seq<Event>) returns (d: int)
      requires InSync(c, ecus, log)
      ensures IsDeadline(window, Dues(c, log), d)
    {
      hide After, Dues;
      d := window;
      var rest := ecus.Keys;
      while rest != {}
        invariant rest <= ecus.Keys && window <= d
        invariant forall id :: id in ecus && id !in rest && ecus[id].deadline.Some? ==> ecus[id].deadline.value <= d
        invariant d == window || exists id :: id in Dues(c, log) && Dues(c, log)[id] == Some(d)
        decreases rest
      {
        var id :| id in rest;
        rest := rest - {id};
        var due := ecus[id].deadline;
        if due.Some? && due.value > d {
          d := due.value;
          assert id in Dues(c, log) && Dues(c, log)[id] == Some(d);
        }
      }
    }

    /** Feeds an accepted frame to its ECU's receiver, made on the first frame, and notes when more is due. */
    method Hear(c: Call, ecus0: map<uint32, EcuState>, f: Frame, at: int, ghost log: seq<Event>)
      returns (ecus: map<uint32, EcuState>, fed: Fed, ghost res: (RxState, Fed))
      requires InSync(c, ecus0, log) && After(c, log).err == None && c.Accepts(f)
      ensures res == FeedStep(c.Link(), After(c, log).At(f.id), f.Payload()) && fed == res.1
      ensures InSync(c, ecus, log + [Got(at, f)])
    {
      hide FeedStep, IsAnswer, IsPending, Match, FrameOf, RxValid, After, Dues, Responses, Routed, SentFrames;
      IdleValid();
      ecus := ecus0;
      if f.id !in ecus {
        ecus := ecus[f.id := EcuState(IDLE, None)];
      }
      assert ecus[f.id].rx == After(c, log).At(f.id);
      res := FeedStep(c.Link(), After(c, log).At(f.id), f.Payload());
      var (rx, out) := FeedStep(c.Link(), ecus[f.id].rx, f.Payload());
      fed := out;
      var deadline: Option<int> := None;
      if rx.active {
        deadline := Some(at + c.opt.Timeout());
      }
      if fed.msg.Some? && IsAnswer(c.req, fed.msg.value) && IsPending(fed.msg.value) {
        deadline := Some(at + RESPONSE_PENDING_TIMEOUT);
      }
      ecus := ecus[f.id := EcuState(rx, deadline)];
      HeardStep(c, log, at, f, res);
    }

    /** Sends the flow control frame that an ECU's receiver asked for. */
    method Answer(c: Call, id: uint32, fc: Option<seq<byte>>, ghost from: int, ghost log: seq<Event>)
      returns (ok: bool, ghost tail: seq<Event>)
      requires Match(c.mode, c.ecu, id).Some?
      requires InTime(c, from, log) && TimeOf(from, log) == bus.now
      modifies bus`log
      ensures bus.log == old(bus.log) + tail
      ensures After(c, log + tail) == After(c, log) && Dues(c, log + tail) == Dues(c, log)
      ensures ok ==> SentFrames(log + tail)
                     == if fc.Some? then SentFrames(log) + [FrameOf(c.Link(), Match(c.mode, c.ecu, id).value, fc.value)]
                        else SentFrames(log)
      ensures !ok ==> EndsBroken(log + tail)
      ensures InTime(c, from, log + tail) && TimeOf(from, log + tail) == bus.now
    {
      hide Match, FrameOf, After, Dues, SentFrames, InTime;
      ok, tail := true, [];
      assert log + tail == log;
      if fc.Some? {
        var f := BuildFrame(c.Link(), Match(c.mode, c.ecu, id).value, fc.value);
        ok := bus.Send(f);
        ghost var e := if ok then Sent(bus.now, f) else Broken(bus.now);
        OtherEvent(c, log, e);
        InTimeNow(c, from, log, e);
        tail := [e];
      }
    }

    /** The listening loop of roundTrip. `tail` is what this call adds to the log. */
    method Listen(c: Call) returns (r: Result<seq<Response>, Failure>, ghost tail: seq<Event>)
      modifies bus
      ensures bus.log == old(bus.log) + tail
      ensures Listened(c, old(bus.now), tail, bus.now, r)
      ensures r == Err(BusFailure) ==> tail != []
      ensures r.Err? ==> r.error.NoResponse? || r.error.EcuFailure? || r.error.BusFailure?
    {
      hide FeedStep, Match, FrameOf, Responses, Routed, IsAnswer, IsPending, Hearing, After, Dues, RxValid, SentFrames,
           IsDeadline, InSync, Listened, InTime, EndsAtDeadline;
      ghost var from := bus.now;
      var window := bus.now + c.Window();
      var ecus: map<uint32, EcuState> := map[];
      var out: seq<Response> := [];
      tail := [];
      Begin(c, ecus);
      NoEvents(c, from);
      while true
        invariant bus.log == old(bus.log) + tail && InSync(c, ecus, tail)
        invariant After(c, tail).err == None && out == Responses(c, After(c, tail).out)
        invariant SentFrames(tail) == Routed(c, After(c, tail).fcs)
        invariant c.ecu != 0 ==> out == []
        invariant InTime(c, from, tail) && TimeOf(from, tail) == bus.now
        decreases |bus.inbox|
      {
        var deadline := Latest(c, window, ecus, tail);
        var got := bus.Receive(Some(deadline));
        ghost var before := tail;
        ghost var e := if got.Delivered? then Got(bus.now, got.frame)
                       else if got.BusFailed? then Broken(bus.now) else Expired(bus.now);
        tail := tail + [e];
        InTimeSnoc(c, from, before, e, deadline);
        if !got.Delivered? {
          OtherEvent(c, before, e);
          if got.DeadlineExceeded? {
            StopsAtDeadline(c, from, tail, bus.now, out);
          } else {
            BusFails(c, from, tail, bus.now);
          }
          r := if got.BusFailed? then Err(BusFailure) else if |out| == 0 then Err(NoResponse) else Ok(out);
          break;
        }
        var f := got.frame;
        if f.extended != c.Extended() || Match(c.mode, c.ecu, f.id).None? {
          OtherEvent(c, before, e);
          StillInSync(c, ecus, before, tail);
          continue;
        }
        var fed, ok;
        ghost var res, answered;
        ecus, fed, res := Hear(c, ecus, f, bus.now, before);
        HeardStep(c, before, bus.now, f, res);
        ok, answered := Answer(c, f.id, fed.fc, from, tail);
        StillInSync(c, ecus, tail, tail + answered);
        tail := tail + answered;
        if !ok {
          r := Err(BusFailure);
          BusFails(c, from, tail, bus.now);
          break;
        }
        if fed.err.Some? {
          EcuFails(c, from, tail, bus.now);
          r := Err(EcuFailure(f.id, fed.err.value));
          break;
        }
        if fed.msg.Some? && IsAnswer(c.req, fed.msg.value) && !IsPending(fed.msg.value) {
          out := out + [Response(f.id, c.On(), fed.msg.value)];
          if c.ecu != 0 {
            r := Ok(out);
            FirstAnswerEnds(c, from, tail, bus.now, out);
            break;
          }
        }
      }
    }

    /** roundTrip: sends the request on one addressing, then listens. */
    method RoundTripOn(req: seq<byte>, addressing: Addressing)
      returns (r: Result<seq<Response>, Failure>, ghost a: Attempt)
      modifies bus
      ensures a.mode == addressing && a.r == r && a.from == old(bus.now) && a.upTo == bus.now
      ensures bus.log == old(bus.log) + (a.request + a.tail)
      ensures Attempted(Call(req, addressing, ecu, isotp, timeout), a)
    {
      hide Listened, RequestId, Match, FrameOf, Conns.EndsSend, Sender.AllFrames, Conns.SendReport;
      var c := Call(req, addressing, ecu, isotp, timeout);
      var reqID := RequestId(addressing, ecu);
      ghost var from, request, sentAt, tail := bus.now, [], bus.now, [];
      a := Attempt(addressing, from, [], from, [], from, Err(BadRequest));
      if |req| == 0 || |req| > MAX_MESSAGE_LEN || (|req| > 7 && ecu == 0) {
        return Err(BadRequest), a;
      }
      if |req| <= 7 {
        var f := BuildFrame(c.Link(), reqID, [|req|] + req);
        var ok := bus.Send(f);
        if !ok {
          a := Attempt(addressing, from, [Broken(from)], from, [], from, Err(BusFailure));
          assert [Broken(from)] + [] == [Broken(from)];
          return Err(BusFailure), a;
        }
        request := [Sent(bus.now, f)];
      } else {
        var conn := new Conns.Conn(bus, reqID, Addresses.Response(c.Extended(), ecu), c.Link());
        var err;
        err, request := conn.Send(req);
        if err.Some? {
          a := Attempt(addressing, from, request, bus.now, [], bus.now, Err(SendFailure(err.value)));
          assert request + [] == request;
          return Err(SendFailure(err.value)), a;
        }
      }
      sentAt := bus.now;
      r, tail := Listen(c);
      a := Attempt(addressing, from, request, sentAt, tail, bus.now, r);
      Seqs.ConcatAssoc(old(bus.log), request, tail);
    }

    /**
     * RoundTrip: with automatic addressing, 29-bit identifiers are tried only when nobody
     * answered on 11-bit ones, and the addressing that worked is kept for good. The bus
     * saw exactly the attempts, one after the other.
     */
    method RoundTrip(req: seq<byte>) returns (r: Result<seq<Response>, Failure>, ghost attempts: seq<Attempt>)
      modifies this`mode, bus
      ensures 1 <= |attempts| <= 2 && attempts[|attempts| - 1].r == r
      ensures forall i :: 0 <= i < |attempts| ==>
                Attempted(Call(req, attempts[i].mode, ecu, isotp, timeout), attempts[i])
      ensures attempts[0].from == old(bus.now) && attempts[|attempts| - 1].upTo == bus.now
      ensures |attempts| == 1 ==> bus.log == old(bus.log) + attempts[0].Events()
      ensures |attempts| == 2 ==>
                && bus.log == old(bus.log) + attempts[0].Events() + attempts[1].Events()
                && attempts[1].from == attempts[0].upTo
      ensures old(mode) != Auto ==> |attempts| == 1 && attempts[0].mode == mode == old(mode)
      ensures old(mode) == Auto ==>
                && attempts[0].mode == Bits11 && (|attempts| == 2 <==> attempts[0].r == Err(NoResponse))
                && (|attempts| == 2 ==> attempts[1].mode == Bits29)
                && mode == if r.Ok? then attempts[|attempts| - 1].mode else Auto
    {
      hide Attempted;
      ghost var first, second;
      if mode != Auto {
        r, first := RoundTripOn(req, mode);
        return r, [first];
      }
      r, first := RoundTripOn(req, Bits11);
      attempts := [first];
      if r.Ok? {
        mode := Bits11;
        return;
      }
      if r.error != NoResponse {
        return;
      }
      r, second := RoundTripOn(req, Bits29);
      attempts := [first, second];
      if r.Ok? {
        mode := Bits29;
      }
    }
  }

  /**
   * One attempt at a round trip on one addressing: the events of sending the request, from
   * `from` to `sentAt`, and of listening, from `sentAt` to `upTo`, and what came of it.
   */
  datatype Attempt = Attempt(mode: Addressing, from: int, request: seq<Event>, sentAt: int, tail: seq<Event>, upTo: int,
                             r: Result<seq<Response>, Failure>)
  {
    function Events(): seq<Event> {
      request + tail
    }
  }

  /** The requests that roundTrip refuses. */
  predicate Refused(c: Call) {
    !Segmentation.Sendable(c.req) || (|c.req| > 7 && c.ecu == 0)
  }

  /** The link on which a request to one ECU is sent. */
  function RequestLink(c: Call): Sender.Link {
    Sender.Link(RequestId(c.mode, c.ecu), Addresses.Response(c.Extended(), c.ecu), c.Link())
  }

  /** The request went out, as a single frame or in segments. */
  ghost predicate Requested(c: Call, from: int, request: seq<Event>, sentAt: int)
    requires Segmentation.Sendable(c.req)
  {
    if |c.req| <= 7 then
      sentAt == from && request == [Sent(from, FrameOf(c.Link(), RequestId(c.mode, c.ecu), [|c.req|] + c.req))]
    else Conns.SendReport(RequestLink(c), c.req, from, request, sentAt, None)
  }

  /** What an attempt may be. */
  ghost predicate Attempted(c: Call, a: Attempt) {
    if Refused(c) then a.r == Err(BadRequest) && a.Events() == [] && a.upTo == a.from
    else if a.tail == [] && a.r == Err(BusFailure) then
      |c.req| <= 7 && a.request == [Broken(a.from)] && a.upTo == a.from
    else if a.r.Err? && a.r.error.SendFailure? then
      && |c.req| > 7 && a.tail == []
      && Conns.SendReport(RequestLink(c), c.req, a.from, a.request, a.upTo, Some(a.r.error.error))
    else Requested(c, a.from, a.request, a.sentAt) && Listened(c, a.sentAt, a.tail, a.upTo, a.r)
  }
}
