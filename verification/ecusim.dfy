/** The simulated ECU (ecusim/ecusim.go). */
module Simulator {
  import opened Can
  import opened IsoTp
  import opened Answers
  import opened Pids
  import Addresses
  import Codes
  import Segmentation
  import Sender

  /** What an ECU is configured with and what service 04 changes. */
  datatype State = State(
    address: uint32, extended: bool, pids: map<byte, seq<byte>>,
    stored: seq<uint16>, pending: seq<uint16>, permanent: seq<uint16>,
    vin: seq<byte>, dids: map<uint16, seq<byte>>)
  {
    /** The identifiers that the ECU listens on and answers on. */
    function Physical(): uint32 {
      Addresses.Physical(extended, address)
    }

    function Functional(): uint32 {
      if extended then Addresses.FUNCTIONAL_29 else Addresses.FUNCTIONAL_11
    }

    function Response(): uint32 {
      Addresses.Response(extended, address)
    }
  }

  // ---------------------------------------------------------------- service 01

  /** A configured PID q sets bit n of the bitmap of `base`; the last bit stands for all that lies beyond. */
  predicate Marks(q: byte, base: byte, n: nat) {
    q % 0x20 != 0 && (if n < 31 then q == base + n + 1 else q > base + 0x20)
  }

  predicate Has(keys: set<byte>, base: byte, n: nat) {
    exists q :: q in keys && Marks(q, base, n)
  }

  /** Some configured PID lies above `base`. */
  predicate AnyAbove(keys: set<byte>, base: byte) {
    exists q :: q in keys && q % 0x20 != 0 && q > base
  }

  /** The first i bits of byte k of the bitmap of `base`. */
  function Packed(keys: set<byte>, base: byte, k: nat, i: nat): byte
    requires i <= 8
  {
    if i == 0 then 0
    else if Has(keys, base, 8 * k + i - 1) then SetBit(Packed(keys, base, k, i - 1), i - 1)
    else Packed(keys, base, k, i - 1)
  }

  function BitmapOf(keys: set<byte>, base: byte): (bitmap: seq<byte>)
    ensures |bitmap| == 4
  {
    seq(4, k requires 0 <= k < 4 => Packed(keys, base, k, 8))
  }

  /** pidData as a function of the configured PIDs. */
  function PidDataOf(pids: map<byte, seq<byte>>, p: byte): Option<seq<byte>> {
    if p % 0x20 != 0 then (if p in pids then Some(pids[p]) else None)
    else if p != 0 && !AnyAbove(pids.Keys, p) then None
    else Some(BitmapOf(pids.Keys, p))
  }

  lemma {:induction false} PackedBits(keys: set<byte>, base: byte, k: nat, i: nat, j: nat)
    requires i <= 8 && j < 8
    ensures Bit(Packed(keys, base, k, i), j) <==> j < i && Has(keys, base, 8 * k + j)
  {
    if i == 0 {
      NoBits(7 - j);
    } else {
      hide Has, Bit, SetBit;
      PackedBits(keys, base, k, i - 1, j);
      SetBitBits(Packed(keys, base, k, i - 1), i - 1, j);
    }
  }

  /** Bit n of the bitmap is set exactly when the ECU has PID base+n+1, or for n = 31 anything beyond. */
  lemma BitmapBits(keys: set<byte>, base: byte, n: nat)
    requires n < 32
    ensures BitmapBit(BitmapOf(keys, base), n) <==> Has(keys, base, n)
  {
    hide Has, Bit, Packed;
    PackedBits(keys, base, n / 8, 8, n % 8);
  }

  /** A bitmap is determined by its bits. */
  lemma SameBitmap(keys: set<byte>, base: byte, bitmap: seq<byte>)
    requires |bitmap| == 4 && forall n :: 0 <= n < 32 ==> (BitmapBit(bitmap, n) <==> Has(keys, base, n))
    ensures bitmap == BitmapOf(keys, base)
  {
    hide Has, Bit, Packed;
    forall k | 0 <= k < 4 ensures bitmap[k] == BitmapOf(keys, base)[k] {
      forall i | 0 <= i < 8 ensures Bit(bitmap[k], i) <==> Bit(BitmapOf(keys, base)[k], i) {
        assert BitmapBit(bitmap, 8 * k + i) <==> Has(keys, base, 8 * k + i);
        PackedBits(keys, base, k, 8, i);
      }
      SameBits(bitmap[k], BitmapOf(keys, base)[k]);
    }
  }

  /** One more configured PID: each bit is set before, or by it. */
  lemma KeysGrow(keys: set<byte>, q: byte, base: byte)
    ensures forall n: nat :: Has(keys + {q}, base, n) <==> Has(keys, base, n) || Marks(q, base, n)
    ensures AnyAbove(keys + {q}, base) <==> AnyAbove(keys, base) || (q % 0x20 != 0 && q > base)
  {
    forall n: nat ensures Has(keys + {q}, base, n) <==> Has(keys, base, n) || Marks(q, base, n) {
      if Marks(q, base, n) {
        assert q in keys + {q};
      }
    }
    if q % 0x20 != 0 && q > base {
      assert q in keys + {q};
    }
  }

  /** The bitmap, and whether anything was found, after some of the configured PIDs. */
  predicate Built(bitmap: seq<byte>, found: bool, keys: set<byte>, base: byte) {
    && |bitmap| == 4 && found == AnyAbove(keys, base)
    && forall n :: 0 <= n < 32 ==> (BitmapBit(bitmap, n) <==> Has(keys, base, n))
  }

  lemma BuiltNone(base: byte)
    ensures Built([0, 0, 0, 0], false, {}, base)
  {
    var bitmap: seq<byte> := [0, 0, 0, 0];
    forall n | 0 <= n < 32 ensures !BitmapBit(bitmap, n) {
      assert bitmap[n / 8] == 0;
      NoBits(7 - n % 8);
    }
  }

  /** A PID that is a bitmap itself, or not above the base, leaves everything as it is. */
  lemma BuiltSkip(bitmap: seq<byte>, found: bool, keys: set<byte>, q: byte, base: byte)
    requires Built(bitmap, found, keys, base) && base % 0x20 == 0 && (q % 0x20 == 0 || q < base)
    ensures Built(bitmap, found, keys + {q}, base)
  {
    hide Has, Bit;
    KeysGrow(keys, q, base);
  }

  /** Any other sets its bit. */
  lemma BuiltMark(bitmap: seq<byte>, found: bool, bit: nat, keys: set<byte>, q: byte, base: byte)
    requires Built(bitmap, found, keys, base) && base % 0x20 == 0 && q % 0x20 != 0 && bit < 32
    requires if bit < 31 then q == base + bit + 1 else q > base + 0x20
    ensures Built(bitmap[bit / 8 := SetBit(bitmap[bit / 8], bit % 8)], true, keys + {q}, base)
  {
    hide Has, Bit, SetBit;
    KeysGrow(keys, q, base);
    var now := bitmap[bit / 8 := SetBit(bitmap[bit / 8], bit % 8)];
    forall n | 0 <= n < 32 ensures BitmapBit(now, n) <==> Has(keys + {q}, base, n) {
      assert BitmapBit(bitmap, n) <==> Has(keys, base, n);
      assert Marks(q, base, n) <==> n == bit;
      if n / 8 == bit / 8 {
        SetBitBits(bitmap[bit / 8], bit % 8, n % 8);
      }
    }
  }

  /** The readings that an ECU has for a list of PIDs, in the order of the list. */
  function Held(pids: map<byte, seq<byte>>, ecu: uint32, ps: seq<byte>): seq<Reading> {
    if ps == [] then []
    else
      var p, before := ps[|ps| - 1], Held(pids, ecu, ps[..|ps| - 1]);
      var d := PidDataOf(pids, p);
      if d.Some? then before + [Reading(p, ecu, d.value)] else before
  }

  lemma HeldNone(pids: map<byte, seq<byte>>, ecu: uint32)
    ensures Encode(Held(pids, ecu, [])) == []
  {
  }

  lemma Regroup(a: seq<byte>, b: seq<byte>, c: seq<byte>, d: seq<byte>)
    ensures a + b + c + d == a + (b + c + d)
  {
  }

  lemma HeldSnoc(pids: map<byte, seq<byte>>, ecu: uint32, ps: seq<byte>, i: nat)
    requires i < |ps|
    ensures
      var d, before := PidDataOf(pids, ps[i]), Held(pids, ecu, ps[..i]);
      && Held(pids, ecu, ps[..i + 1]) == (if d.Some? then before + [Reading(ps[i], ecu, d.value)] else before)
      && (d.Some? ==> Encode(Held(pids, ecu, ps[..i + 1])) == Encode(before) + [ps[i]] + d.value)
  {
    hide PidDataOf;
    assert ps[..i + 1][..i] == ps[..i];
    var d := PidDataOf(pids, ps[i]);
    if d.Some? {
      EncodeSnoc(Held(pids, ecu, ps[..i]), Reading(ps[i], ecu, d.value));
    }
  }

  /** The readings held are those of the PIDs asked for that the ECU has. */
  lemma {:induction false} HeldMembers(pids: map<byte, seq<byte>>, ecu: uint32, ps: seq<byte>)
    ensures forall r :: r in Held(pids, ecu, ps) <==>
              r.pid in ps && r.ecu == ecu && PidDataOf(pids, r.pid) == Some(r.data)
  {
    hide PidDataOf;
    if ps != [] {
      var last := |ps| - 1;
      HeldMembers(pids, ecu, ps[..last]);
      assert ps == ps[..last] + [ps[last]];
    }
  }

  // ---------------------------------------------------------------- answers

  /** A negative response, unless the request was functional and the code is one of those then suppressed. */
  function Negative(sid: byte, code: byte, functional: bool): Option<seq<byte>> {
    if functional && code in {0x11, 0x12, 0x31} then None else Some([0x7F, sid, code])
  }

  /** The answer to a request, or None when the ECU stays silent. */
  function AnswerTo(e: State, req: seq<byte>, functional: bool): Option<seq<byte>>
    requires req != []
  {
    var sid := req[0];
    if sid == 0x01 then
      var rs := Held(e.pids, e.Response(), req[1..]);
      if rs == [] then None else Some([0x41] + Encode(rs))
    else if sid == 0x03 then Some(Codes.Report(sid, e.stored))
    else if sid == 0x07 then Some(Codes.Report(sid, e.pending))
    else if sid == 0x0A then Some(Codes.Report(sid, e.permanent))
    else if sid == 0x04 then Some([0x44])
    else if sid == 0x09 then
      if |req| < 2 || e.vin == [] then None
      else if req[1] == 0x00 then Some([0x49, 0x00, 0x40, 0x00, 0x00, 0x00])
      else if req[1] == 0x02 then Some([0x49, 0x02, 0x01] + e.vin)
      else None
    else if sid == 0x22 then
      if |req| >= 3 && Did(req) in e.dids then Some([0x62, req[1], req[2]] + e.dids[Did(req)])
      else Negative(sid, 0x31, functional)
    else Negative(sid, 0x11, functional)
  }

  function Did(req: seq<byte>): uint16
    requires |req| >= 3
  {
    var high: int := req[1];
    high * 0x100 + req[2]
  }

  /** Only service 04 changes an ECU: it clears the stored and the pending codes. */
  function After(e: State, req: seq<byte>): State
    requires req != []
  {
    if req[0] == 0x04 then e.(stored := [], pending := []) else e
  }

  lemma BuiltDone(bitmap: seq<byte>, found: bool, pids: map<byte, seq<byte>>, p: byte)
    requires Built(bitmap, found, pids.Keys, p) && p % 0x20 == 0
    ensures PidDataOf(pids, p) == if !found && p != 0 then None else Some(bitmap)
  {
    hide Has, Bit, AnyAbove, BitmapOf;
    SameBitmap(pids.Keys, p, bitmap);
  }

  class ECU {
    const address: uint32
    const extended: bool
    const pids: map<byte, seq<byte>>
    const vin: seq<byte>
    const dids: map<uint16, seq<byte>>
    var stored: seq<uint16>
    var pending: seq<uint16>
    var permanent: seq<uint16>

    function Now(): State
      reads this
    {
      State(address, extended, pids, stored, pending, permanent, vin, dids)
    }

    constructor (e: State)
      ensures Now() == e
    {
      address, extended, pids, vin, dids := e.address, e.extended, e.pids, e.vin, e.dids;
      stored, pending, permanent := e.stored, e.pending, e.permanent;
    }

    /** pidData: the bitmaps are built bit by bit from whatever PIDs are configured, in any order. */
    method PidData(p: byte) returns (r: Option<seq<byte>>)
      ensures r == PidDataOf(pids, p)
    {
      hide Packed, Bit, SetBit, Has, BitmapBit, AnyAbove, Built;
      if p % 0x20 != 0 {
        return if p in pids then Some(pids[p]) else None;
      }
      var bitmap := new byte[4](_ => 0);
      var found := false;
      var todo := pids.Keys;
      ghost var done: set<byte> := {};
      assert bitmap[..] == [0, 0, 0, 0];
      BuiltNone(p);
      while todo != {}
        invariant done + todo == pids.Keys
        invariant Built(bitmap[..], found, done, p)
        decreases |todo|
      {
        var q: byte :| q in todo;
        ghost var was, before := bitmap[..], found;
        if q % 0x20 == 0 {
          BuiltSkip(was, before, done, q, p);
        } else if q > p && q < p + 0x20 {
          var bit: nat := q - p - 1;
          bitmap[bit / 8] := SetBit(bitmap[bit / 8], bit % 8);
          found := true;
          BuiltMark(was, before, bit, done, q, p);
          assert bitmap[..] == was[bit / 8 := SetBit(was[bit / 8], bit % 8)];
        } else if q > p + 0x20 {
          bitmap[3] := SetBit(bitmap[3], 7);
          found := true;
          BuiltMark(was, before, 31, done, q, p);
          assert bitmap[..] == was[3 := SetBit(was[3], 7)];
        } else {
          BuiltSkip(was, before, done, q, p);
        }
        todo, done := todo - {q}, done + {q};
      }
      assert done == pids.Keys;
      BuiltDone(bitmap[..], found, pids, p);
      if !found && p != 0 {
        return None;
      }
      return Some(bitmap[..]);
    }

    /** dtcResponse. */
    method DtcResponse(sid: byte, codes: seq<uint16>) returns (resp: seq<byte>)
      ensures resp == Codes.Report(sid, codes)
    {
      resp := [PositiveId(sid), |codes| % 0x100];
      ghost var head := resp;
      for i := 0 to |codes|
        invariant resp == head + Codes.Bytes(codes[..i])
      {
        assert codes[..i + 1][..i] == codes[..i];
        resp := resp + [codes[i] / 0x100, codes[i] % 0x100];
      }
      assert codes[..|codes|] == codes;
    }

    method CurrentData(ps: seq<byte>) returns (resp: seq<byte>)
      ensures resp == [0x41] + Encode(Held(pids, Now().Response(), ps))
    {
      hide PidDataOf, Encode, Held;
      resp := [0x41];
      HeldNone(pids, Now().Response());
      for i := 0 to |ps|
        invariant resp == [0x41] + Encode(Held(pids, Now().Response(), ps[..i]))
      {
        var d := PidData(ps[i]);
        HeldSnoc(pids, Now().Response(), ps, i);
        if d.Some? {
          Regroup([0x41], Encode(Held(pids, Now().Response(), ps[..i])), [ps[i]], d.value);
          resp := resp + [ps[i]];
          resp := resp + d.value;
        }
      }
      assert ps[..|ps|] == ps;
    }

    /** answer: None when the ECU stays silent. */
    method Answer(req: seq<byte>, functional: bool) returns (r: Option<seq<byte>>)
      requires req != []
      modifies this
      ensures r == AnswerTo(old(Now()), req, functional)
      ensures Now() == After(old(Now()), req)
    {
      hide Held, Encode, Codes.Report;
      var sid := req[0];
      match sid {
        case 0x01 =>
          var resp := CurrentData(req[1..]);
          EncodeEmpty(Held(pids, Now().Response(), req[1..]));
          return if |resp| == 1 then None else Some(resp);
        case 0x03 =>
          var resp := DtcResponse(sid, stored);
          return Some(resp);
        case 0x07 =>
          var resp := DtcResponse(sid, pending);
          return Some(resp);
        case 0x0A =>
          var resp := DtcResponse(sid, permanent);
          return Some(resp);
        case 0x04 =>
          stored, pending := [], [];
          return Some([0x44]);
        case 0x09 =>
          if |req| >= 2 && vin != [] {
            match req[1] {
              case 0x00 => return Some([0x49, 0x00, 0x40, 0x00, 0x00, 0x00]);
              case 0x02 => return Some([0x49, 0x02, 0x01] + vin);
              case _ =>
            }
          }
          return None;
        case 0x22 =>
          if |req| >= 3 {
            var did := Did(req);
            if did in dids {
              return Some([0x62, req[1], req[2]] + dids[did]);
            }
          }
          return Negative(sid, 0x31, functional);
        case _ =>
          return Negative(sid, 0x11, functional);
      }
    }
  }

  // ---------------------------------------------------------------- what answers are worth

  /**
   * Every answer is one that the tester recognizes as an answer to its request, and none
   * is mistaken for a mere "response pending".
   */
  lemma AnswersItsRequest(e: State, req: seq<byte>, functional: bool)
    requires req != [] && AnswerTo(e, req, functional).Some?
    ensures IsAnswer(req, AnswerTo(e, req, functional).value)
    ensures !IsPending(AnswerTo(e, req, functional).value)
  {
    hide Encode, PidDataOf, Held;
    if req[0] == 0x01 {
      var rs := Held(e.pids, e.Response(), req[1..]);
      HeldMembers(e.pids, e.Response(), req[1..]);
      assert rs[0] in rs;
      EncodeHead(rs);
    }
  }

  lemma EncodeHead(rs: seq<Reading>)
    requires rs != []
    ensures Encode(rs) != [] && Encode(rs)[0] == rs[0].pid
  {
  }

  // ---------------------------------------------------------------- hearing requests

  datatype Request = Request(data: seq<byte>, functional: bool)

  /** What Serve makes of one frame: its receiver's new state, flow control to send, and a request to answer. */
  datatype Heard = Heard(rx: RxState, fc: Option<seq<byte>>, request: Option<Request>)

  /** A functional request: always one single frame. */
  function FunctionalRequest(p: seq<byte>): Option<Request> {
    if |p| < 2 || p[0] / 16 != PCI_SINGLE || p[0] % 16 > |p| - 1 || p[0] == 0 then None
    else Some(Request(p[1..1 + p[0] % 16], true))
  }

  function Hear(e: State, opt: Options, rx: RxState, f: Frame): Heard
    requires RxValid(rx)
  {
    if f.extended != e.extended then Heard(rx, None, None)
    else if f.id == e.Functional() then Heard(rx, None, FunctionalRequest(f.Payload()))
    else if f.id == e.Physical() then
      var (s, out) := FeedStep(opt, rx, f.Payload());
      Heard(s, out.fc, if out.err.None? && out.msg.Some? then Some(Request(out.msg.value, false)) else None)
    else Heard(rx, None, None)
  }

  /** The front half of Serve's loop, for one frame. */
  method HearFrame(e: State, rx: Receiver, f: Frame) returns (fc: Option<seq<byte>>, request: Option<Request>)
    requires rx.Valid()
    modifies rx
    ensures rx.Valid() && Heard(rx.State(), fc, request) == Hear(e, rx.opt, old(rx.State()), f)
  {
    fc, request := None, None;
    if f.extended != e.extended {
      return;
    }
    if f.id == e.Functional() {
      var p := f.Payload();
      if |p| < 2 || p[0] / 16 != 0 || p[0] % 16 > |p| - 1 || p[0] == 0 {
        return;
      }
      request := Some(Request(p[1..1 + p[0] % 16], true));
    } else if f.id == e.Physical() {
      var fed := rx.Feed(f.Payload());
      fc := fed.fc;
      if fed.err.Some? || fed.msg.None? {
        return;
      }
      request := Some(Request(fed.msg.value, false));
    }
  }

  /** The request frame of a broadcast is heard as that request by every ECU, whatever its receiver is doing. */
  lemma BroadcastHeard(e: State, opt: Options, rx: RxState, tester: Options, req: seq<byte>)
    requires RxValid(rx) && 1 <= |req| <= 7 && tester.extended == e.extended
    ensures
      var f := FrameOf(tester, Addresses.RequestId(if e.extended then Addresses.Bits29 else Addresses.Bits11, 0),
                       [|req|] + req);
      Hear(e, opt, rx, f) == Heard(rx, None, Some(Request(req, true)))
  {
    var f := FrameOf(tester, Addresses.RequestId(if e.extended then Addresses.Bits29 else Addresses.Bits11, 0),
                     [|req|] + req);
    FramePayload(tester, f.id, [|req|] + req);
    assert f.Payload()[..|req| + 1] == [|req|] + req;
    assert f.Payload()[1..1 + |req|] == req;
  }

  /** The requests that an ECU hears in a list of frames. */
  function Requests(e: State, opt: Options, rx: RxState, fs: seq<Frame>): seq<Request>
    requires RxValid(rx)
    decreases |fs|
  {
    if fs == [] then []
    else
      var h := Hear(e, opt, rx, fs[0]);
      (if h.request.Some? then [h.request.value] else []) + Requests(e, opt, h.rx, fs[1..])
  }

  function Directed(msgs: seq<seq<byte>>): seq<Request> {
    if msgs == [] then [] else [Request(msgs[0], false)] + Directed(msgs[1..])
  }

  /** A frame of a directed request goes to the ECU's receiver. */
  lemma SegmentHeard(e: State, opt: Options, rx: RxState, c: Sender.Link, req: seq<byte>, j: nat)
    requires RxValid(rx) && Segmentation.Sendable(req) && j <= Segmentation.ConsecutiveCount(|req|)
    requires c.txID == e.Physical() != e.Functional() && c.opt.extended == e.extended
    ensures
      var (s, out) := FeedStep(opt, rx, Padded(c.opt, Segmentation.Segment(req, j)));
      Hear(e, opt, rx, Sender.SegmentFrame(c, req, j))
      == Heard(s, out.fc, if out.msg.Some? then Some(Request(out.msg.value, false)) else None)
  {
    hide Segmentation.Segment, Padded;
    FramePayload(c.opt, c.txID, Segmentation.Segment(req, j));
  }

  lemma {:induction false} DirectedFrames(e: State, opt: Options, rx: RxState, c: Sender.Link, req: seq<byte>, j: nat)
    requires RxValid(rx) && Segmentation.Sendable(req) && j <= Segmentation.ConsecutiveCount(|req|) + 1
    requires c.txID == e.Physical() != e.Functional() && c.opt.extended == e.extended
    ensures
      var last := Segmentation.ConsecutiveCount(|req|) + 1;
      Requests(e, opt, rx, Sender.FrameRange(c, req, j, last))
      == Directed(Messages(Feeds(opt, rx, Segmentation.WireRange(c.opt, req, j, last)).1))
    decreases Segmentation.ConsecutiveCount(|req|) + 1 - j
  {
    var last := Segmentation.ConsecutiveCount(|req|) + 1;
    hide FeedStep, FrameOf, Padded, Segmentation.Segment, Hear, Sender.SegmentFrame;
    if j < last {
      var fs := Sender.FrameRange(c, req, j, last);
      assert fs[0] == Sender.SegmentFrame(c, req, j) && fs[1..] == Sender.FrameRange(c, req, j + 1, last);
      SegmentHeard(e, opt, rx, c, req, j);
      var p := Padded(c.opt, Segmentation.Segment(req, j));
      var (s1, out) := FeedStep(opt, rx, p);
      DirectedFrames(e, opt, s1, c, req, j + 1);
      hide Feeds, Messages, Directed, Sender.FrameRange;
      var rest := Segmentation.WireRange(c.opt, req, j + 1, last);
      FeedsCons(opt, rx, p, rest, s1, out);
      DirectedCons(out, Feeds(opt, s1, rest).1);
    } else {
      assert Sender.FrameRange(c, req, j, last) == [];
    }
  }

  lemma DirectedCons(out: Fed, outs: seq<Fed>)
    ensures Directed(Messages([out] + outs))
            == (if out.msg.Some? then [Request(out.msg.value, false)] else []) + Directed(Messages(outs))
  {
    assert ([out] + outs)[1..] == outs;
    if out.msg.Some? {
      assert ([out.msg.value] + Messages(outs))[1..] == Messages(outs);
    } else {
      assert [] + Messages(outs) == Messages(outs);
    }
  }

  /**
   * A directed request of any length, sent in segments to an ECU that hears nothing else, is
   * heard once and in full.
   */
  lemma DirectedHeard(e: State, opt: Options, rx: RxState, c: Sender.Link, req: seq<byte>)
    requires RxValid(rx) && Segmentation.Sendable(req)
    requires c.txID == e.Physical() != e.Functional() && c.opt.extended == e.extended
    ensures Requests(e, opt, rx, Sender.AllFrames(c, req)) == [Request(req, false)]
  {
    hide Requests, Feeds, Messages;
    DirectedFrames(e, opt, rx, c, req, 0);
    Segmentation.SegmentsReassemble(opt, c.opt, rx, req);
  }
}
