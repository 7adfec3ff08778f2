/** The ISO-TP receiver, frame building and STmin encoding (isotp/isotp.go). */
module IsoTp {
  import opened Can
  import Seqs

  const MAX_MESSAGE_LEN := 4095

  const PCI_SINGLE := 0x0
  const PCI_FIRST := 0x1
  const PCI_CONSECUTIVE := 0x2
  const PCI_FLOW_CONTROL := 0x3

  const FLOW_CONTINUE := 0x0
  const FLOW_WAIT := 0x1
  const FLOW_OVERFLOW := 0x2

  // Durations are in nanoseconds, as in Go.
  const MICROSECOND := 1_000
  const MILLISECOND := 1_000_000
  const SECOND := 1_000_000_000

  datatype Error = ErrTimeout | ErrOverflow | ErrSequence | ErrInvalidFrame | ErrTooLong | ErrBus

  datatype Options = Options(
    extended: bool, padding: byte, noPadding: bool, blockSize: byte,
    stmin: int, timeout: int, maxWaitFrames: int)
  {
    /** The effective N_Bs and N_Cr timeout. */
    function Timeout(): (t: int)
      ensures t > 0
    {
      if timeout > 0 then timeout else SECOND
    }

    /** The effective N_WFTmax. */
    function MaxWaitFrames(): (w: int)
      ensures w > 0
    {
      if maxWaitFrames > 0 then maxWaitFrames else 10
    }
  }

  // ---------------------------------------------------------------- frames

  /** The valid bytes of a frame that carries `p`. */
  function Padded(opt: Options, p: seq<byte>): seq<byte>
    requires |p| <= MAX_DATA_LEN
  {
    if opt.noPadding then p else p + Fill(opt.padding, MAX_DATA_LEN - |p|)
  }

  /** The frame for `p`. Bytes beyond the eighth are dropped, as Go's copy does. */
  function FrameOf(opt: Options, id: uint32, p: seq<byte>): Frame {
    var q := p[..Min(|p|, MAX_DATA_LEN)];
    if opt.noPadding then
      Frame(id, opt.extended, |q|, q + Fill(0, MAX_DATA_LEN - |q|))
    else
      Frame(id, opt.extended, MAX_DATA_LEN, q + Fill(opt.padding, MAX_DATA_LEN - |q|))
  }

  lemma FramePayload(opt: Options, id: uint32, p: seq<byte>)
    requires |p| <= MAX_DATA_LEN
    ensures FrameOf(opt, id, p).Payload() == Padded(opt, p)
    ensures p <= FrameOf(opt, id, p).Payload()
    ensures !opt.noPadding ==> |FrameOf(opt, id, p).Payload()| == MAX_DATA_LEN
  {
    assert p[..|p|] == p;
  }

  /** Options.Frame: copy the payload, then pad in place. */
  method BuildFrame(opt: Options, id: uint32, payload: seq<byte>) returns (f: Frame)
    ensures f == FrameOf(opt, id, payload)
  {
    var data := new byte[MAX_DATA_LEN](_ => 0);
    var n := Min(|payload|, MAX_DATA_LEN);
    for i := 0 to n
      invariant data[..i] == payload[..i]
      invariant forall j :: i <= j < MAX_DATA_LEN ==> data[j] == 0
    {
      data[i] := payload[i];
    }
    var len := n;
    if !opt.noPadding {
      for i := n to MAX_DATA_LEN
        invariant data[..n] == payload[..n]
        invariant forall j :: n <= j < i ==> data[j] == opt.padding
      {
        data[i] := opt.padding;
      }
      len := MAX_DATA_LEN;
    }
    f := Frame(id, opt.extended, len, data[..]);
    assert f.data == FrameOf(opt, id, payload).data;
  }

  // ---------------------------------------------------------------- STmin

  function EncodeSTmin(d: int): byte {
    if d <= 0 then 0
    else if d < MILLISECOND then 0xF0 + Max(d / (100 * MICROSECOND), 1)
    else if d <= 127 * MILLISECOND then d / MILLISECOND
    else 0x7F
  }

  function DecodeSTmin(b: byte): (d: int)
    ensures 0 <= d <= 127 * MILLISECOND
  {
    if b <= 0x7F then b * MILLISECOND
    else if 0xF1 <= b <= 0xF9 then (b - 0xF0) * 100 * MICROSECOND
    else 127 * MILLISECOND
  }

  /** Decoding is a left inverse on every byte that is not reserved; reserved bytes decode to the maximum. */
  lemma STminDecodeEncode(b: byte)
    ensures (b <= 0x7F || 0xF1 <= b <= 0xF9) ==> EncodeSTmin(DecodeSTmin(b)) == b
    ensures !(b <= 0x7F || 0xF1 <= b <= 0xF9) ==> EncodeSTmin(DecodeSTmin(b)) == 0x7F
  {
  }

  /**
   * The peer keeps at least the configured gap exactly when the duration is not rounded
   * down: it is at most 100 us, or a whole number of 100 us steps below 1 ms, or a
   * whole number of milliseconds up to 127.
   */
  lemma STminHonoured(d: int)
    ensures DecodeSTmin(EncodeSTmin(d)) >= d <==>
            || d <= 100 * MICROSECOND
            || (d < MILLISECOND && d % (100 * MICROSECOND) == 0)
            || (MILLISECOND <= d <= 127 * MILLISECOND && d % MILLISECOND == 0)
  {
    if 0 < d < MILLISECOND {
      assert d == d / (100 * MICROSECOND) * (100 * MICROSECOND) + d % (100 * MICROSECOND);
    } else if MILLISECOND <= d <= 127 * MILLISECOND {
      assert d == d / MILLISECOND * MILLISECOND + d % MILLISECOND;
    }
  }

  // ---------------------------------------------------------------- receiver

  /** The fields of a Receiver that change; `sn` is the sequence number expected next. */
  datatype RxState = RxState(active: bool, want: nat, buf: seq<byte>, sn: byte, inBlock: nat)

  const IDLE := RxState(false, 0, [], 0, 0)

  /** What holds of every reachable receiver: it is either reset, or strictly inside a message. */
  predicate RxValid(s: RxState) {
    if s.active then
      8 <= s.want <= MAX_MESSAGE_LEN && 6 <= |s.buf| < s.want && s.sn < 16
    else
      s == IDLE
  }

  /** The three results of Feed; None is Go's nil. */
  datatype Fed = Fed(fc: Option<seq<byte>>, msg: Option<seq<byte>>, err: Option<Error>)

  const NOTHING := Fed(None, None, None)

  function FlowControl(opt: Options): seq<byte> {
    [PCI_FLOW_CONTROL * 16 + FLOW_CONTINUE, opt.blockSize, EncodeSTmin(opt.stmin)]
  }

  const OVERFLOW_CONTROL: seq<byte> := [PCI_FLOW_CONTROL * 16 + FLOW_OVERFLOW, 0, 0]

  function Announced(p: seq<byte>): nat
    requires |p| >= 2
  {
    var high: int := p[0] % 16;
    high * 256 + p[1]
  }

  function FeedSingle(p: seq<byte>): (RxState, Fed)
    requires p != []
  {
    var n := p[0] % 16;
    if n == 0 || n > 7 || n > |p| - 1 then
      (IDLE, Fed(None, None, Some(ErrInvalidFrame)))
    else
      (IDLE, Fed(None, Some(p[1..1 + n]), None))
  }

  function FeedFirst(opt: Options, p: seq<byte>): (RxState, Fed)
    requires p != []
  {
    if |p| < MAX_DATA_LEN then
      (IDLE, Fed(None, None, Some(ErrInvalidFrame)))
    else
      var n := Announced(p);
      if n == 0 then (IDLE, Fed(Some(OVERFLOW_CONTROL), None, Some(ErrTooLong)))
      else if n < MAX_DATA_LEN then (IDLE, NOTHING)
      else (RxState(true, n, p[2..8], 1, 0), Fed(Some(FlowControl(opt)), None, None))
  }

  function FeedConsecutive(opt: Options, s: RxState, p: seq<byte>): (RxState, Fed)
    requires RxValid(s) && p != []
  {
    if !s.active then (s, NOTHING)
    else if p[0] % 16 != s.sn then (IDLE, Fed(None, None, Some(ErrSequence)))
    else
      var take := Min(s.want - |s.buf|, |p| - 1);
      var buf := s.buf + p[1..1 + take];
      var t := s.(buf := buf, sn := (s.sn + 1) % 16);
      if |buf| >= s.want then (IDLE, Fed(None, Some(buf), None))
      else if opt.blockSize == 0 then (t, NOTHING)
      else if s.inBlock + 1 == opt.blockSize then (t.(inBlock := 0), Fed(Some(FlowControl(opt)), None, None))
      else (t.(inBlock := s.inBlock + 1), NOTHING)
  }

  /** One call of Feed as a function of the receiver's state. */
  function FeedStep(opt: Options, s: RxState, p: seq<byte>): (r: (RxState, Fed))
    requires RxValid(s)
    ensures RxValid(r.0)
    ensures r.1.err.Some? ==> r.0 == IDLE && r.1.msg.None?
    ensures r.1.err.Some? ==> r.1.err.value in {ErrInvalidFrame, ErrTooLong, ErrSequence}
    ensures r.1.msg.Some? ==> r.0 == IDLE && 1 <= |r.1.msg.value| <= MAX_MESSAGE_LEN && r.1.fc.None?
    ensures r.1.fc.Some? ==> 3 == |r.1.fc.value| && r.1.fc.value[0] / 16 == PCI_FLOW_CONTROL
  {
    if p == [] then (s, NOTHING)
    else match p[0] / 16
      case 0 => FeedSingle(p)
      case 1 => FeedFirst(opt, p)
      case 2 => FeedConsecutive(opt, s, p)
      case _ => (s, NOTHING)
  }

  class Receiver {
    const opt: Options
    var active: bool
    var want: nat
    var buf: seq<byte>
    var sn: byte
    var inBlock: nat

    function State(): RxState
      reads this
    {
      RxState(active, want, buf, sn, inBlock)
    }

    ghost predicate Valid()
      reads this
    {
      RxValid(State())
    }

    constructor (opt: Options)
      ensures this.opt == opt && State() == IDLE && Valid()
    {
      this.opt := opt;
      active, want, buf, sn, inBlock := false, 0, [], 0, 0;
    }

    method Reset()
      modifies this
      ensures State() == IDLE
    {
      active, want, buf, sn, inBlock := false, 0, [], 0, 0;
    }

    method Feed(p: seq<byte>) returns (r: Fed)
      requires Valid()
      modifies this
      ensures Valid() && (State(), r) == FeedStep(opt, old(State()), p)
    {
      r := NOTHING;
      if |p| == 0 {
        return;
      }
      match p[0] / 16 {
        case 0 =>
          Reset();
          var n := p[0] % 16;
          if n == 0 || n > 7 || n > |p| - 1 {
            return Fed(None, None, Some(ErrInvalidFrame));
          }
          return Fed(None, Some(p[1..1 + n]), None);
        case 1 =>
          Reset();
          if |p| < MAX_DATA_LEN {
            return Fed(None, None, Some(ErrInvalidFrame));
          }
          var high: int := p[0] % 16;
          var n := high * 256 + p[1];
          if n == 0 {
            return Fed(Some([PCI_FLOW_CONTROL * 16 + FLOW_OVERFLOW, 0, 0]), None, Some(ErrTooLong));
          }
          if n < MAX_DATA_LEN {
            return;
          }
          active, want, buf, sn := true, n, p[2..8], 1;
          return Fed(Some(FlowControl(opt)), None, None);
        case 2 =>
          if !active {
            return;
          }
          if p[0] % 16 != sn {
            Reset();
            return Fed(None, None, Some(ErrSequence));
          }
          var take := Min(want - |buf|, |p| - 1);
          buf := buf + p[1..1 + take];
          sn := (sn + 1) % 16;
          if |buf| >= want {
            var msg := buf;
            Reset();
            return Fed(None, Some(msg), None);
          }
          if opt.blockSize > 0 {
            inBlock := inBlock + 1;
            if inBlock == opt.blockSize {
              inBlock := 0;
              return Fed(Some(FlowControl(opt)), None, None);
            }
          }
        case _ =>
      }
    }
  }

  // ---------------------------------------------------------------- runs

  /** Feeding a list of payloads: the final state and one result per payload. */
  function Feeds(opt: Options, s: RxState, ps: seq<seq<byte>>): (r: (RxState, seq<Fed>))
    requires RxValid(s)
    ensures RxValid(r.0) && |r.1| == |ps|
    decreases |ps|
  {
    if ps == [] then (s, [])
    else
      var (s1, out) := FeedStep(opt, s, ps[0]);
      var (s2, outs) := Feeds(opt, s1, ps[1..]);
      (s2, [out] + outs)
  }

  /** A run that starts with the step from s to s1. */
  lemma FeedsCons(opt: Options, s: RxState, p: seq<byte>, ps: seq<seq<byte>>, s1: RxState, out: Fed)
    requires RxValid(s) && FeedStep(opt, s, p) == (s1, out)
    ensures RxValid(s1) && Feeds(opt, s, [p] + ps) == (Feeds(opt, s1, ps).0, [out] + Feeds(opt, s1, ps).1)
  {
    assert ([p] + ps)[1..] == ps;
  }

  lemma {:induction false} FeedsAppend(opt: Options, s: RxState, ps: seq<seq<byte>>, qs: seq<seq<byte>>)
    requires RxValid(s)
    ensures Feeds(opt, s, ps + qs).0 == Feeds(opt, Feeds(opt, s, ps).0, qs).0
    ensures Feeds(opt, s, ps + qs).1 == Feeds(opt, s, ps).1 + Feeds(opt, Feeds(opt, s, ps).0, qs).1
    decreases |ps|
  {
    if ps == [] {
      assert ps + qs == qs;
    } else {
      var (s1, out) := FeedStep(opt, s, ps[0]);
      Seqs.ConcatTail(ps, qs);
      FeedsAppend(opt, s1, ps[1..], qs);
      var (s2, outs) := Feeds(opt, s1, ps[1..]);
      Seqs.ConcatAssoc([out], outs, Feeds(opt, s2, qs).1);
    }
  }

  lemma FeedsSnoc(opt: Options, s: RxState, ps: seq<seq<byte>>, p: seq<byte>)
    requires RxValid(s)
    ensures
      var (s1, outs) := Feeds(opt, s, ps);
      var (s2, out) := FeedStep(opt, s1, p);
      Feeds(opt, s, ps + [p]) == (s2, outs + [out])
  {
    FeedsAppend(opt, s, ps, [p]);
    var s1 := Feeds(opt, s, ps).0;
    var (s2, out) := FeedStep(opt, s1, p);
    FeedsCons(opt, s1, p, [], s2, out);
    assert [p] + [] == [p];
    assert Feeds(opt, s2, []) == (s2, []);
    assert [out] + [] == [out];
  }

  /** The messages among the results of a run. */
  function Messages(outs: seq<Fed>): seq<seq<byte>> {
    if outs == [] then []
    else (if outs[0].msg.Some? then [outs[0].msg.value] else []) + Messages(outs[1..])
  }

  lemma {:induction false} MessagesAppend(a: seq<Fed>, b: seq<Fed>)
    ensures Messages(a + b) == Messages(a) + Messages(b)
  {
    if a == [] {
      assert a + b == b;
    } else {
      Seqs.ConcatTail(a, b);
      MessagesAppend(a[1..], b);
      var head := if a[0].msg.Some? then [a[0].msg.value] else [];
      Seqs.ConcatAssoc(head, Messages(a[1..]), Messages(b));
    }
  }
}
