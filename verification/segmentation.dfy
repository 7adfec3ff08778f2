/**
 * The pure segmentation that Conn.Send follows (isotp/conn.go), and how a Receiver
 * answers each of its frames.
 */
module Segmentation {
  import opened Can
  import opened IsoTp
  import Seqs

  /** The messages that Conn.Send accepts. */
  predicate Sendable(msg: seq<byte>) {
    1 <= |msg| <= MAX_MESSAGE_LEN
  }

  /** How many consecutive frames a message of n bytes needs. */
  function ConsecutiveCount(n: nat): nat {
    if n <= 7 then 0 else n / 7
  }

  function SingleFrame(msg: seq<byte>): seq<byte>
    requires 1 <= |msg| <= 7
  {
    [|msg|] + msg
  }

  function FirstFrame(msg: seq<byte>): seq<byte>
    requires Sendable(msg) && |msg| > 7
  {
    [PCI_FIRST * 16 + |msg| / 256, |msg| % 256] + msg[..6]
  }

  /** Where the data of consecutive frame i starts. */
  function Offset(i: nat): nat {
    6 + 7 * i
  }

  function ConsecutiveFrame(msg: seq<byte>, i: nat): seq<byte>
    requires Sendable(msg) && i < ConsecutiveCount(|msg|)
  {
    [PCI_CONSECUTIVE * 16 + (i + 1) % 16] + msg[Offset(i)..Min(Offset(i) + 7, |msg|)]
  }

  /** Frame j of a message: frame 0 is its single or first frame, frame j > 0 its consecutive frame j-1. */
  function Segment(msg: seq<byte>, j: nat): (p: seq<byte>)
    requires Sendable(msg) && j <= ConsecutiveCount(|msg|)
    ensures 2 <= |p| <= MAX_DATA_LEN
  {
    if j > 0 then ConsecutiveFrame(msg, j - 1)
    else if |msg| <= 7 then SingleFrame(msg)
    else FirstFrame(msg)
  }

  /** The valid bytes of frames from..to-1 of a message, padded as the sender's options say. */
  function WireRange(opt: Options, msg: seq<byte>, from: nat, upTo: nat): (ps: seq<seq<byte>>)
    requires Sendable(msg) && from <= upTo <= ConsecutiveCount(|msg|) + 1
    ensures |ps| == upTo - from
    decreases upTo - from
  {
    if from == upTo then [] else [Padded(opt, Segment(msg, from))] + WireRange(opt, msg, from + 1, upTo)
  }

  /** The valid bytes of all the frames of a message. */
  function Wire(opt: Options, msg: seq<byte>): seq<seq<byte>>
    requires Sendable(msg)
  {
    WireRange(opt, msg, 0, ConsecutiveCount(|msg|) + 1)
  }

  lemma {:induction false} WireRangeSnoc(opt: Options, msg: seq<byte>, from: nat, upTo: nat)
    requires Sendable(msg) && from <= upTo <= ConsecutiveCount(|msg|)
    ensures WireRange(opt, msg, from, upTo + 1) == WireRange(opt, msg, from, upTo) + [Padded(opt, Segment(msg, upTo))]
    decreases upTo - from
  {
    if from < upTo {
      WireRangeSnoc(opt, msg, from + 1, upTo);
    }
  }

  lemma WireRangeHead(opt: Options, msg: seq<byte>, from: nat, upTo: nat)
    requires Sendable(msg) && from < upTo <= ConsecutiveCount(|msg|) + 1
    ensures WireRange(opt, msg, from, upTo)[0] == Padded(opt, Segment(msg, from))
    ensures WireRange(opt, msg, from, upTo)[1..] == WireRange(opt, msg, from + 1, upTo)
  {
  }

  /** The data bytes of a segment, without protocol control information. */
  function Content(msg: seq<byte>, j: nat): seq<byte>
    requires Sendable(msg) && j <= ConsecutiveCount(|msg|)
  {
    if j == 0 && |msg| > 7 then Segment(msg, 0)[2..] else Segment(msg, j)[1..]
  }

  function Contents(msg: seq<byte>, upTo: nat): seq<byte>
    requires Sendable(msg) && upTo <= ConsecutiveCount(|msg|) + 1
  {
    if upTo == 0 then [] else Contents(msg, upTo - 1) + Content(msg, upTo - 1)
  }

  /** The segments carry the message: nothing is lost, repeated or moved. */
  lemma {:induction false} SegmentsCarryMessage(msg: seq<byte>, upTo: nat)
    requires Sendable(msg) && upTo <= ConsecutiveCount(|msg|) + 1
    ensures |msg| > 7 && upTo > 0 ==> Contents(msg, upTo) == msg[..Min(Offset(upTo - 1), |msg|)]
    ensures upTo == ConsecutiveCount(|msg|) + 1 ==> Contents(msg, upTo) == msg
  {
    if upTo == 1 {
      assert Contents(msg, 1) == Content(msg, 0);
    } else if upTo > 1 {
      SegmentsCarryMessage(msg, upTo - 1);
      var from := Offset(upTo - 2);
      Seqs.SliceJoin(msg, 0, from, Min(from + 7, |msg|));
      assert Content(msg, upTo - 1) == msg[from..Min(from + 7, |msg|)];
      assert msg[0..from] == msg[..from];
    }
  }

  // ------------------------------------------------ the receiver's side

  /** How many consecutive frames of the current block a receiver has seen after k of them: k modulo the block size. */
  function InBlockAfter(blockSize: byte, k: nat): (i: nat)
    ensures blockSize == 0 ==> i == 0
    ensures blockSize > 0 ==> i < blockSize && i <= k
  {
    if blockSize == 0 || k == 0 then 0
    else
      var i := InBlockAfter(blockSize, k - 1) + 1;
      if i == blockSize then 0 else i
  }

  /** Going back j frames inside a block. */
  lemma {:induction false} InBlockBack(blockSize: byte, k: nat, j: nat)
    requires blockSize > 0 && j <= InBlockAfter(blockSize, k)
    ensures j <= k && InBlockAfter(blockSize, k - j) == InBlockAfter(blockSize, k) - j
  {
    if j > 0 {
      InBlockBack(blockSize, k, j - 1);
    }
  }

  /** The receiver's state after the first frame and k consecutive frames of msg. */
  function Partial(opt: Options, msg: seq<byte>, k: nat): (s: RxState)
    requires Sendable(msg) && k < ConsecutiveCount(|msg|)
    ensures RxValid(s) && s.active
  {
    RxState(true, |msg|, msg[..Offset(k)], (k + 1) % 16, InBlockAfter(opt.blockSize, k))
  }

  /** The results of feeding consecutive frame k at its turn. */
  function AfterConsecutive(opt: Options, msg: seq<byte>, k: nat): (RxState, Fed)
    requires Sendable(msg) && k < ConsecutiveCount(|msg|)
  {
    if k + 1 == ConsecutiveCount(|msg|) then (IDLE, Fed(None, Some(msg), None))
    else (Partial(opt, msg, k + 1), if BlockEnds(opt, k + 1) then Fed(Some(FlowControl(opt)), None, None) else NOTHING)
  }

  /** Whether the receiver asks for the next block after k consecutive frames. */
  predicate BlockEnds(opt: Options, k: nat) {
    opt.blockSize > 0 && InBlockAfter(opt.blockSize, k) == 0
  }

  /** The first frame restarts a receiver in any state; a single frame completes at once. */
  lemma FeedHead(ropt: Options, sopt: Options, s: RxState, msg: seq<byte>)
    requires RxValid(s) && Sendable(msg)
    ensures |msg| <= 7 ==> FeedStep(ropt, s, Padded(sopt, Segment(msg, 0))) == (IDLE, Fed(None, Some(msg), None))
    ensures |msg| > 7 ==> FeedStep(ropt, s, Padded(sopt, Segment(msg, 0)))
                          == (Partial(ropt, msg, 0), Fed(Some(FlowControl(ropt)), None, None))
  {
    var p := Padded(sopt, Segment(msg, 0));
    if |msg| <= 7 {
      assert p[1..1 + |msg|] == msg;
    } else {
      assert p[2..8] == msg[..6];
    }
  }

  /** Each consecutive frame at its turn advances the receiver by one frame, whatever the sender's padding. */
  lemma FeedTail(ropt: Options, sopt: Options, msg: seq<byte>, k: nat)
    requires Sendable(msg) && k < ConsecutiveCount(|msg|)
    ensures FeedStep(ropt, Partial(ropt, msg, k), Padded(sopt, Segment(msg, k + 1))) == AfterConsecutive(ropt, msg, k)
  {
    var s := Partial(ropt, msg, k);
    var p := Padded(sopt, Segment(msg, k + 1));
    SequenceNumber(sopt, msg, k);
    TakesContent(sopt, msg, k);
    var end := Min(Offset(k) + 7, |msg|);
    assert FeedStep(ropt, s, p) == FeedConsecutive(ropt, s, p);
    TakeStep(ropt, msg, k, p, end);
  }

  lemma TakeStep(ropt: Options, msg: seq<byte>, k: nat, p: seq<byte>, end: nat)
    requires Sendable(msg) && k < ConsecutiveCount(|msg|) && end == Min(Offset(k) + 7, |msg|)
    requires p != [] && p[0] % 16 == (k + 1) % 16
    requires
      var take := Min(|msg| - Offset(k), |p| - 1);
      take >= 0 && msg[..Offset(k)] + p[1..1 + take] == msg[..end]
    ensures FeedConsecutive(ropt, Partial(ropt, msg, k), p) == AfterConsecutive(ropt, msg, k)
  {
    hide Segment, FlowControl;
    if end == |msg| {
      assert msg[..end] == msg;
    }
  }

  lemma SequenceNumber(opt: Options, msg: seq<byte>, k: nat)
    requires Sendable(msg) && k < ConsecutiveCount(|msg|)
    ensures
      var p := Padded(opt, Segment(msg, k + 1));
      p != [] && p[0] / 16 == PCI_CONSECUTIVE && p[0] % 16 == (k + 1) % 16
  {
    var p := Padded(opt, Segment(msg, k + 1));
    assert p[0] == PCI_CONSECUTIVE * 16 + (k + 1) % 16;
  }

  /** What a receiver that holds the first Offset(k) bytes takes from consecutive frame k. */
  lemma TakesContent(opt: Options, msg: seq<byte>, k: nat)
    requires Sendable(msg) && k < ConsecutiveCount(|msg|)
    ensures
      var p := Padded(opt, Segment(msg, k + 1));
      var end := Min(Offset(k) + 7, |msg|);
      var take := Min(|msg| - Offset(k), |p| - 1);
      take == end - Offset(k) && msg[..Offset(k)] + p[1..1 + take] == msg[..end]
  {
    var p := Padded(opt, Segment(msg, k + 1));
    var end := Min(Offset(k) + 7, |msg|);
    assert p[1..1 + end - Offset(k)] == msg[Offset(k)..end];
    Seqs.SliceJoin(msg, 0, Offset(k), end);
    assert msg[0..Offset(k)] == msg[..Offset(k)] && msg[0..end] == msg[..end];
  }

  /** The result for frame j of a message fed in order. */
  function ResultOf(opt: Options, msg: seq<byte>, j: nat): Fed
    requires Sendable(msg) && j <= ConsecutiveCount(|msg|)
  {
    if j > 0 then AfterConsecutive(opt, msg, j - 1).1
    else if |msg| <= 7 then Fed(None, Some(msg), None)
    else Fed(Some(FlowControl(opt)), None, None)
  }

  /** The results for frames from.. of a message fed in order. */
  function Results(opt: Options, msg: seq<byte>, from: nat): (outs: seq<Fed>)
    requires Sendable(msg) && from <= ConsecutiveCount(|msg|) + 1
    ensures |outs| == ConsecutiveCount(|msg|) + 1 - from
    decreases ConsecutiveCount(|msg|) + 1 - from
  {
    if from > ConsecutiveCount(|msg|) then [] else [ResultOf(opt, msg, from)] + Results(opt, msg, from + 1)
  }

  /** Frames k+1.. of a message finish what its first k+1 frames began. */
  lemma {:induction false} FeedRest(ropt: Options, sopt: Options, msg: seq<byte>, k: nat)
    requires Sendable(msg) && k < ConsecutiveCount(|msg|)
    ensures Feeds(ropt, Partial(ropt, msg, k), WireRange(sopt, msg, k + 1, ConsecutiveCount(|msg|) + 1))
            == (IDLE, Results(ropt, msg, k + 1))
    decreases ConsecutiveCount(|msg|) - k
  {
    hide FeedStep, Padded, Segment, InBlockAfter, FlowControl;
    var last := ConsecutiveCount(|msg|) + 1;
    var p, rest := Padded(sopt, Segment(msg, k + 1)), WireRange(sopt, msg, k + 2, last);
    var (s1, out) := AfterConsecutive(ropt, msg, k);
    FeedTail(ropt, sopt, msg, k);
    if k + 2 < last {
      FeedRest(ropt, sopt, msg, k + 1);
    }
    FeedsCons(ropt, Partial(ropt, msg, k), p, rest, s1, out);
    ResultsCons(ropt, msg, k + 1);
  }

  lemma ResultsCons(opt: Options, msg: seq<byte>, from: nat)
    requires Sendable(msg) && from <= ConsecutiveCount(|msg|)
    ensures Results(opt, msg, from) == [ResultOf(opt, msg, from)] + Results(opt, msg, from + 1)
  {
  }

  /**
   * ISO-TP is the identity on messages: from any state of the receiver, the frames of a
   * message leave it reset and return the message once, with the last frame.
   */
  lemma {:induction false} SegmentsReassemble(ropt: Options, sopt: Options, s: RxState, msg: seq<byte>)
    requires RxValid(s) && Sendable(msg)
    ensures Feeds(ropt, s, Wire(sopt, msg)) == (IDLE, Results(ropt, msg, 0))
    ensures Messages(Results(ropt, msg, 0)) == [msg]
  {
    FeedHead(ropt, sopt, s, msg);
    var last := ConsecutiveCount(|msg|) + 1;
    var (s1, out) := FeedStep(ropt, s, Padded(sopt, Segment(msg, 0)));
    FeedsCons(ropt, s, Padded(sopt, Segment(msg, 0)), WireRange(sopt, msg, 1, last), s1, out);
    if |msg| > 7 {
      FeedRest(ropt, sopt, msg, 0);
    }
    OnlyLastIsMessage(ropt, msg, 0);
  }

  lemma {:induction false} OnlyLastIsMessage(opt: Options, msg: seq<byte>, from: nat)
    requires Sendable(msg) && from <= ConsecutiveCount(|msg|)
    ensures Messages(Results(opt, msg, from)) == [msg]
    decreases ConsecutiveCount(|msg|) - from
  {
    var outs := Results(opt, msg, from);
    assert outs[1..] == Results(opt, msg, from + 1);
    if from < ConsecutiveCount(|msg|) {
      OnlyLastIsMessage(opt, msg, from + 1);
    }
  }
}
