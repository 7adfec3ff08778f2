/**
 * Conn.Send and Conn.Receive as two parties over lossless FIFO queues (isotp/conn.go,
 * isotp/isotp.go). Frames on other identifiers may be mixed in at any time; no timer fires.
 */
module Protocol {
  import opened Can
  import opened IsoTp
  import opened Segmentation
  import opened Sender

  /** The message, the sender's link and the receiver's link. */
  datatype Config = Config(msg: seq<byte>, tx: Link, rx: Link)
  {
    predicate Valid() {
      && Sendable(msg)
      && tx.txID == rx.rxID && tx.rxID == rx.txID && tx.opt.extended == rx.opt.extended
    }

    function Last(): nat {
      ConsecutiveCount(|msg|)
    }
  }

  /** Both parties and the queues between them. `tx` only counts once `started`. */
  datatype Sys = Sys(started: bool, tx: Sending, rx: RxState, got: Option<seq<byte>>, rxErr: Option<Error>,
                     toRx: seq<Frame>, toTx: seq<Frame>)

  const INITIAL := Sys(false, Waiting(0, 0), IDLE, None, None, [], [])

  /** The payloads of the frames in a queue that the owner of the link accepts. */
  function Mine(c: Link, q: seq<Frame>): seq<seq<byte>> {
    if q == [] then [] else (if c.FromPeer(q[0]) then [q[0].Payload()] else []) + Mine(c, q[1..])
  }

  lemma MineHead(c: Link, q: seq<Frame>)
    requires q != [] && c.FromPeer(q[0])
    ensures Mine(c, q)[0] == q[0].Payload() && Mine(c, q)[1..] == Mine(c, q[1..])
  {
  }

  lemma {:induction false} MineSnoc(c: Link, q: seq<Frame>, f: Frame)
    ensures Mine(c, q + [f]) == if c.FromPeer(f) then Mine(c, q) + [f.Payload()] else Mine(c, q)
  {
    if q == [] {
      assert q + [f] == [f] && [f][1..] == [];
    } else {
      assert (q + [f])[1..] == q[1..] + [f];
      MineSnoc(c, q[1..], f);
    }
  }

  // ------------------------------------------------ steps

  predicate CanStart(c: Config, s: Sys) {
    !s.started
  }

  function DoStart(c: Config, s: Sys): Sys
    requires c.Valid()
  {
    s.(started := true, tx := if |c.msg| <= 7 then Finished else Waiting(0, 0),
       toRx := s.toRx + [SegmentFrame(c.tx, c.msg, 0)])
  }

  predicate CanTxReceive(c: Config, s: Sys) {
    s.started && s.tx.Waiting? && s.toTx != []
  }

  function DoTxReceive(c: Config, s: Sys): Sys
    requires CanTxReceive(c, s)
  {
    var f := s.toTx[0];
    s.(toTx := s.toTx[1..],
       tx := if c.tx.FromPeer(f) then OnFrame(c.tx.opt, s.tx.k, s.tx.waits, f.Payload()) else s.tx)
  }

  predicate CanTxSend(c: Config, s: Sys) {
    s.started && s.tx.InBlock? && s.tx.k < c.Last()
  }

  function DoTxSend(c: Config, s: Sys): Sys
    requires c.Valid() && CanTxSend(c, s)
  {
    s.(toRx := s.toRx + [SegmentFrame(c.tx, c.msg, s.tx.k + 1)],
       tx := AfterFrame(c.Last(), s.tx.k, s.tx.i, s.tx.bs, s.tx.st))
  }

  predicate CanRxReceive(c: Config, s: Sys) {
    s.got.None? && s.rxErr.None? && s.toRx != [] && RxValid(s.rx)
  }

  function DoRxReceive(c: Config, s: Sys): Sys
    requires CanRxReceive(c, s)
  {
    if c.rx.FromPeer(s.toRx[0]) then Took(c, s, FeedStep(c.rx.opt, s.rx, s.toRx[0].Payload()))
    else s.(toRx := s.toRx[1..])
  }

  /** The receiver has fed the head of its queue and answers. */
  function Took(c: Config, s: Sys, fed: (RxState, Fed)): Sys
    requires s.toRx != []
  {
    s.(toRx := s.toRx[1..], rx := fed.0, got := fed.1.msg, rxErr := fed.1.err,
       toTx := if fed.1.fc.Some? then s.toTx + [FrameOf(c.rx.opt, c.rx.txID, fed.1.fc.value)] else s.toTx)
  }

  /** A step of the sender or the receiver. */
  predicate PartyStep(c: Config, s: Sys, s': Sys)
    requires c.Valid()
  {
    || (CanStart(c, s) && s' == DoStart(c, s))
    || (CanTxReceive(c, s) && s' == DoTxReceive(c, s))
    || (CanTxSend(c, s) && s' == DoTxSend(c, s))
    || (CanRxReceive(c, s) && s' == DoRxReceive(c, s))
  }

  /** A frame that is not for the owner of a queue joins it. */
  predicate NoiseFrame(c: Config, s: Sys, s': Sys, f: Frame) {
    || (!c.rx.FromPeer(f) && s' == s.(toRx := s.toRx + [f]))
    || (!c.tx.FromPeer(f) && s' == s.(toTx := s.toTx + [f]))
  }

  ghost predicate NoiseStep(c: Config, s: Sys, s': Sys) {
    exists f :: NoiseFrame(c, s, s', f)
  }

  // ------------------------------------------------ the invariant

  /** How many consecutive frames are out; -1 before the first frame. */
  function Out(c: Config, s: Sys): int {
    if !s.started then -1
    else match s.tx
      case Waiting(k, _) => k
      case InBlock(k, _, _, _) => k
      case Finished => c.Last()
      case Failed(_, k) => k
  }

  /** The least number of consecutive frames the receiver must have taken when k are out. */
  function Low(bs: byte, k: int): int {
    if k <= 0 then -1 else if bs == 0 then 0 else k - 1 - InBlockAfter(bs, k - 1)
  }

  /** What the receiver holds after r consecutive frames; -1 stands for not even the first frame. */
  predicate Taken(c: Config, s: Sys, r: int)
    requires c.Valid()
  {
    && s.rxErr == None
    && (if r == -1 then s.rx == IDLE && s.got == None
        else if 0 <= r < c.Last() then s.rx == Partial(c.rx.opt, c.msg, r) && s.got == None
        else r == c.Last() && s.rx == IDLE && s.got == Some(c.msg))
  }

  /** The flow control frame as it arrives. */
  function Control(c: Config): seq<byte> {
    Padded(c.rx.opt, FlowControl(c.rx.opt))
  }

  predicate Given(c: Config, s: Sys, r: int) {
    var bs := c.rx.opt.blockSize;
    if !s.started then s.tx == Waiting(0, 0) && Mine(c.tx, s.toTx) == []
    else match s.tx
      case Waiting(k, waits) =>
        && waits == 0 && k < c.Last() && (k == 0 || BlockEnds(c.rx.opt, k))
        && Mine(c.tx, s.toTx) == (if r == k then [Control(c)] else [])
      case InBlock(k, i, b, _) =>
        && k < c.Last() && b == bs && (i == 0 ==> r == k)
        && i == (if bs == 0 then k else InBlockAfter(bs, k))
        && Mine(c.tx, s.toTx) == []
      case Finished => Mine(c.tx, s.toTx) == []
      case Failed(_, _) => false
  }

  /** The state when the receiver has taken r consecutive frames: the rest of what is out is in its queue, in order. */
  predicate InvAt(c: Config, s: Sys, r: int)
    requires c.Valid()
  {
    var k := Out(c, s);
    && -1 <= r <= k <= c.Last() && Low(c.rx.opt.blockSize, k) <= r
    && Taken(c, s, r)
    && Mine(c.rx, s.toRx) == WireRange(c.tx.opt, c.msg, r + 1, k + 1)
    && Given(c, s, r)
  }

  ghost predicate Inv(c: Config, s: Sys)
    requires c.Valid()
  {
    exists r :: InvAt(c, s, r)
  }

  /** Both sides have succeeded and no frame of theirs is left over. */
  predicate Complete(c: Config, s: Sys) {
    && s.started && s.tx == Finished && s.got == Some(c.msg)
    && Mine(c.rx, s.toRx) == [] && Mine(c.tx, s.toTx) == []
  }

  lemma SegmentArrives(c: Config, j: nat)
    requires c.Valid() && j <= c.Last()
    ensures
      var f := SegmentFrame(c.tx, c.msg, j);
      c.rx.FromPeer(f) && f.Payload() == Padded(c.tx.opt, Segment(c.msg, j))
  {
    FramePayload(c.tx.opt, c.tx.txID, Segment(c.msg, j));
  }

  lemma StartKeeps(c: Config, s: Sys, r: int)
    requires c.Valid() && InvAt(c, s, r) && CanStart(c, s)
    ensures InvAt(c, DoStart(c, s), r)
  {
    hide Padded, Segment, FrameOf, Mine, Partial;
    SegmentArrives(c, 0);
    MineSnoc(c.rx, s.toRx, SegmentFrame(c.tx, c.msg, 0));
    WireRangeSnoc(c.tx.opt, c.msg, 0, 0);
  }

  lemma TxSendKeeps(c: Config, s: Sys, r: int)
    requires c.Valid() && InvAt(c, s, r) && CanTxSend(c, s)
    ensures InvAt(c, DoTxSend(c, s), r)
  {
    hide Padded, Segment, FrameOf, Partial, Mine, WireRange, SegmentFrame;
    var k := s.tx.k;
    SegmentArrives(c, k + 1);
    MineSnoc(c.rx, s.toRx, SegmentFrame(c.tx, c.msg, k + 1));
    WireRangeSnoc(c.tx.opt, c.msg, r + 1, k + 1);
  }

  /** The flow control frame lets the sender go on with the receiver's block size. */
  lemma ControlGrants(c: Config, k: nat, waits: nat)
    ensures OnFrame(c.tx.opt, k, waits, Control(c))
            == InBlock(k, 0, c.rx.opt.blockSize, DecodeSTmin(EncodeSTmin(c.rx.opt.stmin)))
  {
  }

  lemma TxReceiveKeeps(c: Config, s: Sys, r: int)
    requires c.Valid() && InvAt(c, s, r) && CanTxReceive(c, s)
    ensures InvAt(c, DoTxReceive(c, s), r)
  {
    hide Padded, FlowControl, OnFrame;
    if c.tx.FromPeer(s.toTx[0]) {
      MineHead(c.tx, s.toTx);
      ControlGrants(c, s.tx.k, s.tx.waits);
    }
  }

  lemma ControlArrives(c: Config)
    requires c.Valid()
    ensures
      var f := FrameOf(c.rx.opt, c.rx.txID, FlowControl(c.rx.opt));
      c.tx.FromPeer(f) && f.Payload() == Control(c)
  {
    FramePayload(c.rx.opt, c.rx.txID, FlowControl(c.rx.opt));
  }

  /** A block that the receiver ends is one the sender has ended. */
  lemma BlocksMeet(c: Config, s: Sys, r: int)
    requires c.Valid() && InvAt(c, s, r) && 0 <= r < Out(c, s) && r + 1 < c.Last()
    ensures BlockEnds(c.rx.opt, r + 1) ==> s.tx == Waiting(r + 1, 0)
    ensures !BlockEnds(c.rx.opt, r + 1) ==> s.tx != Waiting(r + 1, 0)
  {
    var bs, k := c.rx.opt.blockSize, Out(c, s);
    if BlockEnds(c.rx.opt, r + 1) && r + 1 < k {
      InBlockBack(bs, k - 1, k - 1 - (r + 1));
    }
  }

  lemma RxTakesHead(c: Config, s: Sys)
    requires c.Valid() && InvAt(c, s, -1) && CanRxReceive(c, s) && c.rx.FromPeer(s.toRx[0])
    requires Out(c, s) >= 0
    ensures InvAt(c, DoRxReceive(c, s), 0)
  {
    hide Segment;
    assert Out(c, s) == 0;
    MineHead(c.rx, s.toRx);
    WireRangeHead(c.tx.opt, c.msg, 0, 1);
    FeedHead(c.rx.opt, c.tx.opt, s.rx, c.msg);
    hide FeedStep, FrameOf, FlowControl, Control, InBlockAfter, BlockEnds;
    ControlArrives(c);
    MineSnoc(c.tx, s.toTx, FrameOf(c.rx.opt, c.rx.txID, FlowControl(c.rx.opt)));
  }

  lemma RxTakesTail(c: Config, s: Sys, r: int)
    requires c.Valid() && InvAt(c, s, r) && CanRxReceive(c, s) && c.rx.FromPeer(s.toRx[0])
    requires 0 <= r < Out(c, s)
    ensures InvAt(c, DoRxReceive(c, s), r + 1)
  {
    hide Segment, FeedStep, Mine, WireRange, Padded, FrameOf, FlowControl, Control, InBlockAfter, BlockEnds, Low,
         Partial;
    MineHead(c.rx, s.toRx);
    WireRangeHead(c.tx.opt, c.msg, r + 1, Out(c, s) + 1);
    FeedTail(c.rx.opt, c.tx.opt, c.msg, r);
    ControlArrives(c);
    MineSnoc(c.tx, s.toTx, FrameOf(c.rx.opt, c.rx.txID, FlowControl(c.rx.opt)));
    if r + 1 < c.Last() {
      BlocksMeet(c, s, r);
    }
  }

  /** A frame of the queue that is for the receiver is the next one it lacks. */
  lemma RxReceiveKeeps(c: Config, s: Sys, r: int)
    requires c.Valid() && InvAt(c, s, r) && CanRxReceive(c, s)
    ensures Inv(c, DoRxReceive(c, s))
  {
    hide FeedStep, Took, WireRange, Partial, Given, Low, Padded, Segment;
    if !c.rx.FromPeer(s.toRx[0]) {
      OnlyMineMatters(c, s, r, s.toRx[1..], s.toTx);
    } else {
      assert Mine(c.rx, s.toRx) != [];
      if r == -1 {
        RxTakesHead(c, s);
      } else {
        RxTakesTail(c, s, r);
      }
    }
  }

  /** A frame for the receiver only arrives while it still wants one, and it takes it without an error. */
  lemma HeadIsWanted(c: Config, s: Sys)
    requires c.Valid() && Inv(c, s) && s.toRx != [] && c.rx.FromPeer(s.toRx[0])
    ensures CanRxReceive(c, s)
    ensures
      var out := FeedStep(c.rx.opt, s.rx, s.toRx[0].Payload()).1;
      out.err == None && (out.msg == None || out.msg == Some(c.msg))
  {
    hide FeedStep, WireRange, Given, Low, Padded, Segment;
    var r :| InvAt(c, s, r);
    assert Mine(c.rx, s.toRx) != [];
    RxReceiveKeeps(c, s, r);
    var r' :| InvAt(c, DoRxReceive(c, s), r');
  }

  lemma InitialInv(c: Config)
    requires c.Valid()
    ensures Inv(c, INITIAL) && Measure(c, INITIAL) == 4 * (c.Last() + 1)
  {
    assert InvAt(c, INITIAL, -1);
  }

  lemma PartyKeeps(c: Config, s: Sys, s': Sys)
    requires c.Valid() && Inv(c, s) && PartyStep(c, s, s')
    ensures Inv(c, s')
  {
    var r :| InvAt(c, s, r);
    if CanStart(c, s) && s' == DoStart(c, s) {
      StartKeeps(c, s, r);
    } else if CanTxReceive(c, s) && s' == DoTxReceive(c, s) {
      TxReceiveKeeps(c, s, r);
    } else if CanTxSend(c, s) && s' == DoTxSend(c, s) {
      TxSendKeeps(c, s, r);
    } else {
      RxReceiveKeeps(c, s, r);
    }
  }

  /** The invariant only depends on the queues through the frames that are for their owners. */
  lemma OnlyMineMatters(c: Config, s: Sys, r: int, toRx: seq<Frame>, toTx: seq<Frame>)
    requires c.Valid() && InvAt(c, s, r)
    requires Mine(c.rx, toRx) == Mine(c.rx, s.toRx) && Mine(c.tx, toTx) == Mine(c.tx, s.toTx)
    ensures InvAt(c, s.(toRx := toRx, toTx := toTx), r)
  {
    hide Mine, WireRange, Partial, Low, Control, BlockEnds, InBlockAfter;
  }

  lemma OtherFramesKeep(c: Config, s: Sys, toRx: seq<Frame>, toTx: seq<Frame>)
    requires c.Valid() && Inv(c, s)
    requires Mine(c.rx, toRx) == Mine(c.rx, s.toRx) && Mine(c.tx, toTx) == Mine(c.tx, s.toTx)
    ensures Inv(c, s.(toRx := toRx, toTx := toTx))
  {
    hide Mine, InvAt;
    var r :| InvAt(c, s, r);
    OnlyMineMatters(c, s, r, toRx, toTx);
  }

  lemma NoiseKeeps(c: Config, s: Sys, s': Sys)
    requires c.Valid() && Inv(c, s) && NoiseStep(c, s, s')
    ensures Inv(c, s')
  {
    hide Mine, InvAt;
    var r :| InvAt(c, s, r);
    var f :| NoiseFrame(c, s, s', f);
    MineSnoc(c.rx, s.toRx, f);
    MineSnoc(c.tx, s.toTx, f);
    OnlyMineMatters(c, s, r, s'.toRx, s'.toTx);
  }

  // ------------------------------------------------ liveness

  /** A non-empty selection comes from a non-empty queue. */
  lemma MineNonempty(c: Link, q: seq<Frame>)
    ensures Mine(c, q) != [] ==> q != []
  {
  }

  lemma OutInRange(c: Config, s: Sys)
    requires c.Valid() && Inv(c, s)
    ensures -1 <= Out(c, s) <= c.Last()
  {
  }

  /** Nothing fails, and nothing but the message is received. */
  lemma Outcomes(c: Config, s: Sys)
    requires c.Valid() && Inv(c, s)
    ensures s.rxErr == None && !s.tx.Failed? && (s.got == None || s.got == Some(c.msg))
  {
    hide Mine, WireRange, Partial, Low, InBlockAfter, Padded, Segment;
    var r :| InvAt(c, s, r);
  }

  /** No deadlock: until both sides have succeeded, one of them can step. */
  lemma NoDeadlock(c: Config, s: Sys) returns (s': Sys)
    requires c.Valid() && Inv(c, s) && !Complete(c, s)
    ensures PartyStep(c, s, s')
  {
    var r :| InvAt(c, s, r);
    MineNonempty(c.rx, s.toRx);
    MineNonempty(c.tx, s.toTx);
    if CanStart(c, s) {
      s' := DoStart(c, s);
    } else if CanTxSend(c, s) {
      s' := DoTxSend(c, s);
    } else if r < Out(c, s) {
      s' := DoRxReceive(c, s);
    } else {
      assert s.tx.Waiting?;
      s' := DoTxReceive(c, s);
    }
  }

  /** Work left: frames not yet sent, then frames in the queues. */
  function Measure(c: Config, s: Sys): int {
    4 * (c.Last() - Out(c, s)) + 2 * |s.toRx| + |s.toTx|
  }

  lemma MeasureNatural(c: Config, s: Sys)
    requires c.Valid() && Inv(c, s)
    ensures Measure(c, s) >= 0
  {
    hide Inv;
    OutInRange(c, s);
  }

  lemma OutAdvances(c: Config, s: Sys, s': Sys)
    requires c.Valid() && PartyStep(c, s, s') && (s.started && s.tx.Finished? ==> s'.started)
    ensures CanTxReceive(c, s) && s' == DoTxReceive(c, s) ==> Out(c, s') == Out(c, s)
    ensures CanTxSend(c, s) && s' == DoTxSend(c, s) ==> Out(c, s') > Out(c, s)
    ensures CanRxReceive(c, s) && s' == DoRxReceive(c, s) ==> Out(c, s') == Out(c, s)
  {
    hide FeedStep, SegmentFrame, FrameOf;
  }

  lemma PartyDecreases(c: Config, s: Sys, s': Sys)
    requires c.Valid() && Inv(c, s) && PartyStep(c, s, s')
    ensures 0 <= Measure(c, s') < Measure(c, s)
  {
    hide FeedStep, SegmentFrame, FrameOf, Taken, Given, Mine, WireRange, Low, OnFrame, AfterFrame;
    PartyKeeps(c, s, s');
    var r, r' :| InvAt(c, s, r) && InvAt(c, s', r');
    OutAdvances(c, s, s');
  }

  lemma NoiseIncreases(c: Config, s: Sys, s': Sys)
    requires c.Valid() && NoiseStep(c, s, s')
    ensures Measure(c, s') <= Measure(c, s) + 2
  {
  }

  // ------------------------------------------------ whole runs

  /** A run: each step is one of the parties' or noise. */
  ghost predicate IsRun(c: Config, run: seq<Sys>)
    requires c.Valid()
  {
    && run != []
    && if |run| == 1 then run[0] == INITIAL
       else
         var s, s' := run[|run| - 2], run[|run| - 1];
         IsRun(c, run[..|run| - 1]) && (PartyStep(c, s, s') || NoiseStep(c, s, s'))
  }

  /** How many steps of a run are the parties' own. */
  ghost function PartySteps(c: Config, run: seq<Sys>): nat
    requires c.Valid()
  {
    if |run| <= 1 then 0
    else
      PartySteps(c, run[..|run| - 1]) + if PartyStep(c, run[|run| - 2], run[|run| - 1]) then 1 else 0
  }

  lemma {:induction false} RunKeeps(c: Config, run: seq<Sys>)
    requires c.Valid() && IsRun(c, run)
    ensures Inv(c, run[|run| - 1])
    ensures
      var noise := |run| - 1 - PartySteps(c, run);
      PartySteps(c, run) + Measure(c, run[|run| - 1]) <= 4 * (c.Last() + 1) + 2 * noise
  {
    hide Inv, PartyStep, NoiseStep, Measure;
    if |run| == 1 {
      InitialInv(c);
    } else {
      var before, s, s' := run[..|run| - 1], run[|run| - 2], run[|run| - 1];
      RunKeeps(c, before);
      if PartyStep(c, s, s') {
        PartyKeeps(c, s, s');
        PartyDecreases(c, s, s');
      } else {
        NoiseKeeps(c, s, s');
        NoiseIncreases(c, s, s');
      }
    }
  }

  /**
   * Delivery, for every message, block size, padding on either side and interleaving:
   * neither side ever fails, nothing but the message is ever received, the parties take at
   * most 4 (K+1) steps and two more for each frame of noise, and when neither can step
   * any more, both have succeeded and no frame of theirs is left in either direction.
   */
  lemma {:induction false} Delivery(c: Config, run: seq<Sys>)
    requires c.Valid() && IsRun(c, run)
    ensures
      var s := run[|run| - 1];
      && s.rxErr == None && !s.tx.Failed? && (s.got == None || s.got == Some(c.msg))
      && PartySteps(c, run) <= 4 * (c.Last() + 1) + 2 * (|run| - 1 - PartySteps(c, run))
      && ((forall s' :: !PartyStep(c, s, s')) ==> Complete(c, s))
  {
    RunKeeps(c, run);
    var s := run[|run| - 1];
    hide Inv, PartyStep, Complete;
    Outcomes(c, s);
    MeasureNatural(c, s);
    if !Complete(c, s) {
      var s' := NoDeadlock(c, s);
    }
  }
}
