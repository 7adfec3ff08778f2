/** The sender of isotp/conn.go as a state machine over the events on its endpoint. */
module Sender {
  import opened Can
  import opened IsoTp
  import opened Segmentation
  import opened Endpoints
  import Seqs

  datatype Link = Link(txID: uint32, rxID: uint32, opt: Options)
  {
    predicate FromPeer(f: Frame) {
      f.id == rxID && f.extended == opt.extended
    }
  }

  /** Where Send is: k consecutive frames have gone out. */
  datatype Sending =
    | Waiting(k: nat, waits: nat)
    | InBlock(k: nat, i: nat, bs: byte, st: nat)
    | Finished
    | Failed(err: Error, k: nat)

  /** How waitFlowControl takes the payload of a frame from the peer. */
  function OnFrame(opt: Options, k: nat, waits: nat, p: seq<byte>): Sending {
    if |p| < 3 || p[0] / 16 != PCI_FLOW_CONTROL then Waiting(k, waits)
    else match p[0] % 16
      case 0 => InBlock(k, 0, p[1], DecodeSTmin(p[2]))
      case 1 => if waits + 1 > opt.MaxWaitFrames() then Failed(ErrTimeout, k) else Waiting(k, waits + 1)
      case 2 => Failed(ErrOverflow, k)
      case _ => Failed(ErrInvalidFrame, k)
  }

  function SegmentFrame(c: Link, msg: seq<byte>, j: nat): Frame
    requires Sendable(msg) && j <= ConsecutiveCount(|msg|)
  {
    FrameOf(c.opt, c.txID, Segment(msg, j))
  }

  /** Frames from..upTo-1 of a message. */
  function FrameRange(c: Link, msg: seq<byte>, from: nat, upTo: nat): (fs: seq<Frame>)
    requires Sendable(msg) && from <= upTo <= ConsecutiveCount(|msg|) + 1
    ensures |fs| == upTo - from
  {
    seq(upTo - from, i requires 0 <= i < upTo - from => SegmentFrame(c, msg, from + i))
  }

  /** All the frames of a message. */
  function AllFrames(c: Link, msg: seq<byte>): seq<Frame>
    requires Sendable(msg)
  {
    FrameRange(c, msg, 0, ConsecutiveCount(|msg|) + 1)
  }

  /** Where Send is after it has sent frame k+1 of `last`+1 as number i of its block. */
  function AfterFrame(last: nat, k: nat, i: nat, bs: byte, st: nat): Sending {
    if k + 1 >= last then Finished
    else if bs != 0 && i + 1 >= bs then Waiting(k + 1, 0)
    else InBlock(k + 1, i + 1, bs, st)
  }

  /**
   * A sender with its clock: `due` is the flow control deadline or the time of the next
   * frame; `blocks` counts the waits begun.
   */
  datatype Clocked = Clocked(s: Sending, now: int, due: int, blocks: nat)

  function Start(c: Link, t0: int): Clocked {
    Clocked(Waiting(0, 0), t0, t0 + c.opt.Timeout(), 1)
  }

  function AdvanceWaiting(c: Link, t: Clocked, e: Event): Option<Clocked>
    requires t.s.Waiting?
  {
    match e
    case Got(at, f) =>
      if !(t.now <= at <= t.due) then None
      else if !c.FromPeer(f) then Some(t.(now := at))
      else
        var s := OnFrame(c.opt, t.s.k, t.s.waits, f.Payload());
        Some(Clocked(s, at,
                     if s == t.s then t.due else if s.Waiting? then at + c.opt.Timeout() else at,
                     t.blocks))
    case Expired(at) =>
      if at == t.due then Some(Clocked(Failed(ErrTimeout, t.s.k), at, at, t.blocks)) else None
    case Broken(at) =>
      if t.now <= at <= t.due then Some(Clocked(Failed(ErrBus, t.s.k), at, at, t.blocks)) else None
    case Sent(_, _) => None
  }

  function AdvanceInBlock(c: Link, frames: seq<Frame>, t: Clocked, e: Event): Option<Clocked>
    requires t.s.InBlock? && t.s.k + 1 < |frames|
  {
    match e
    case Sent(at, f) =>
      if at != t.due || f != frames[t.s.k + 1] then None
      else
        var s := AfterFrame(|frames| - 1, t.s.k, t.s.i, t.s.bs, t.s.st);
        Some(if s.Waiting? then Clocked(s, at, at + c.opt.Timeout(), t.blocks + 1)
             else if s.InBlock? then Clocked(s, at, at + s.st, t.blocks)
             else Clocked(s, at, at, t.blocks))
    case Broken(at) =>
      if t.now <= at <= t.due then Some(Clocked(Failed(ErrBus, t.s.k), at, at, t.blocks)) else None
    case _ => None
  }

  /** One event of a sender of `frames` after its first frame; None when Send cannot produce the event. */
  function Advance(c: Link, frames: seq<Frame>, t: Clocked, e: Event): Option<Clocked> {
    if t.s.Waiting? && t.s.k + 1 < |frames| then AdvanceWaiting(c, t, e)
    else if t.s.InBlock? && t.s.k + 1 < |frames| then AdvanceInBlock(c, frames, t, e)
    else None
  }

  /** The sender's state after the events of a log, when Send can produce that log. */
  function RunLog(c: Link, frames: seq<Frame>, t0: int, log: seq<Event>): Option<Clocked> {
    if log == [] then Some(Start(c, t0))
    else
      var t := RunLog(c, frames, t0, log[..|log| - 1]);
      if t.None? then None else Advance(c, frames, t.value, log[|log| - 1])
  }

  lemma RunStart(c: Link, frames: seq<Frame>, t0: int)
    ensures RunLog(c, frames, t0, []) == Some(Start(c, t0))
  {
  }

  lemma RunSnoc(c: Link, frames: seq<Frame>, t0: int, log: seq<Event>, e: Event)
    ensures RunLog(c, frames, t0, log + [e])
            == var t := RunLog(c, frames, t0, log); if t.None? then None else Advance(c, frames, t.value, e)
  {
    assert (log + [e])[..|log|] == log;
  }

  // ------------------------------------------------ what every run keeps

  function Progress(frames: seq<Frame>, s: Sending): int {
    match s
    case Waiting(k, _) => k
    case InBlock(k, _, _, _) => k
    case Finished => |frames| - 1
    case Failed(_, k) => k
  }

  lemma {:induction false} Emitted(c: Link, frames: seq<Frame>, t0: int, log: seq<Event>)
    requires |frames| >= 2 && RunLog(c, frames, t0, log).Some?
    ensures
      var s := RunLog(c, frames, t0, log).value.s;
      && 0 <= Progress(frames, s) < |frames|
      && (s.Finished? <==> Progress(frames, s) == |frames| - 1)
      && SentFrames(log) == frames[1..Progress(frames, s) + 1]
  {
    if log != [] {
      var before, e := log[..|log| - 1], log[|log| - 1];
      Emitted(c, frames, t0, before);
      var k := Progress(frames, RunLog(c, frames, t0, before).value.s);
      if e.Sent? {
        Seqs.SliceJoin(frames, 1, k + 1, k + 2);
        assert frames[k + 1..k + 2] == [e.frame];
      }
    }
  }

  /**
   * Against any peer, the frames sent so far, from the first frame on, are a prefix of the
   * pure segmentation, and they are all of it exactly when Send has finished.
   */
  lemma SenderEmitsPrefix(c: Link, msg: seq<byte>, t0: int, log: seq<Event>)
    requires Sendable(msg) && |msg| > 7 && RunLog(c, AllFrames(c, msg), t0, log).Some?
    ensures
      var sent := [SegmentFrame(c, msg, 0)] + SentFrames(log);
      && sent <= AllFrames(c, msg)
      && (sent == AllFrames(c, msg) <==> RunLog(c, AllFrames(c, msg), t0, log).value.s.Finished?)
  {
    var all := AllFrames(c, msg);
    Emitted(c, all, t0, log);
    var k := Progress(all, RunLog(c, all, t0, log).value.s);
    assert all[0] == SegmentFrame(c, msg, 0);
    hide RunLog, SentFrames, AllFrames, SegmentFrame, Progress, Sendable;
    assert [all[0]] + all[1..k + 1] == all[..k + 1];
    Seqs.PrefixIsWhole(all, k + 1);
  }

  /** How many frames have been sent since the last frame received. */
  function SentSinceGot(log: seq<Event>): nat {
    if log != [] && log[|log| - 1].Sent? then SentSinceGot(log[..|log| - 1]) + 1 else 0
  }

  function LastGot(log: seq<Event>): Option<Frame> {
    if log == [] then None
    else if log[|log| - 1].Got? then Some(log[|log| - 1].frame)
    else LastGot(log[..|log| - 1])
  }

  /** f is a CONTINUE flow control frame from the peer with block size bs and gap st. */
  predicate Grants(c: Link, f: Frame, bs: byte, st: nat) {
    var p := f.Payload();
    && c.FromPeer(f)
    && |p| >= 3 && p[0] == PCI_FLOW_CONTROL * 16 + FLOW_CONTINUE
    && bs == p[1] && st == DecodeSTmin(p[2])
  }

  /**
   * Consecutive frames only follow a CONTINUE from the peer, and no more of them than
   * its block size allows. Every prefix of a run is a run, so this holds at every moment.
   */
  lemma {:induction false} BlockSizeRespected(c: Link, frames: seq<Frame>, t0: int, log: seq<Event>)
    requires RunLog(c, frames, t0, log).Some?
    ensures SentSinceGot(log) > 0 ==>
              exists bs: byte, st: nat ::
                && LastGot(log).Some? && Grants(c, LastGot(log).value, bs, st)
                && (bs > 0 ==> SentSinceGot(log) <= bs)
    ensures
      var s := RunLog(c, frames, t0, log).value.s;
      s.InBlock? ==>
        && SentSinceGot(log) == s.i && (s.bs > 0 ==> s.i < s.bs)
        && LastGot(log).Some? && Grants(c, LastGot(log).value, s.bs, s.st)
  {
    if log != [] {
      var before, e := log[..|log| - 1], log[|log| - 1];
      BlockSizeRespected(c, frames, t0, before);
      var s := RunLog(c, frames, t0, before).value.s;
      if e.Sent? {
        assert s.InBlock? && SentSinceGot(log) == s.i + 1;
        assert Grants(c, LastGot(log).value, s.bs, s.st);
      }
    }
  }

  /** The gap between two consecutive frames of one block is exactly the decoded STmin of its flow control. */
  lemma PacedBySTmin(c: Link, frames: seq<Frame>, t0: int, log: seq<Event>, a: Event, b: Event)
    requires a.Sent? && b.Sent?
    requires RunLog(c, frames, t0, log + [a] + [b]).Some?
    ensures exists bs: byte, st: nat ::
              LastGot(log).Some? && Grants(c, LastGot(log).value, bs, st) && b.at == a.at + st
  {
    RunSnoc(c, frames, t0, log + [a], b);
    RunSnoc(c, frames, t0, log, a);
    BlockSizeRespected(c, frames, t0, log);
    var s := RunLog(c, frames, t0, log).value.s;
    assert Grants(c, LastGot(log).value, s.bs, s.st) && b.at == a.at + s.st;
  }

  // ------------------------------------------------ why Send fails

  /** f is a flow control frame from the peer with this status. */
  predicate Signals(c: Link, f: Frame, status: nat) {
    var p := f.Payload();
    c.FromPeer(f) && |p| >= 3 && p[0] / 16 == PCI_FLOW_CONTROL && p[0] % 16 == status
  }

  /** How many WAIT frames have come since the last frame was sent. */
  function WaitsInRow(c: Link, log: seq<Event>): nat {
    if log == [] || log[|log| - 1].Sent? then 0
    else
      var e, before := log[|log| - 1], WaitsInRow(c, log[..|log| - 1]);
      if e.Got? && Signals(c, e.frame, FLOW_WAIT) then before + 1 else before
  }

  lemma {:induction false} WaitsCounted(c: Link, frames: seq<Frame>, t0: int, log: seq<Event>)
    requires RunLog(c, frames, t0, log).Some?
    ensures
      var s := RunLog(c, frames, t0, log).value.s;
      s.Waiting? ==> s.waits == WaitsInRow(c, log) <= c.opt.MaxWaitFrames()
  {
    if log != [] {
      WaitsCounted(c, frames, t0, log[..|log| - 1]);
    }
  }

  /**
   * Each failure has its cause in the last event: a bus failure; the deadline, or one WAIT
   * more than are allowed in a row; OVERFLOW; an unknown flow status.
   */
  lemma {:induction false} FailureHasCause(c: Link, frames: seq<Frame>, t0: int, log: seq<Event>)
    requires RunLog(c, frames, t0, log).Some? && RunLog(c, frames, t0, log).value.s.Failed?
    ensures log != []
    ensures
      var e := log[|log| - 1];
      match RunLog(c, frames, t0, log).value.s.err
      case ErrBus => e.Broken?
      case ErrTimeout =>
        e.Expired? || (e.Got? && Signals(c, e.frame, FLOW_WAIT) && WaitsInRow(c, log) == c.opt.MaxWaitFrames() + 1)
      case ErrOverflow => e.Got? && Signals(c, e.frame, FLOW_OVERFLOW)
      case ErrInvalidFrame => e.Got? && exists status :: 2 < status < 16 && Signals(c, e.frame, status)
      case _ => false
  {
    var before, e := log[..|log| - 1], log[|log| - 1];
    WaitsCounted(c, frames, t0, before);
    if e.Got? && |e.frame.Payload()| >= 3 {
      var status: nat := e.frame.Payload()[0] % 16;
      assert Signals(c, e.frame, status) <==> c.FromPeer(e.frame) && e.frame.Payload()[0] / 16 == PCI_FLOW_CONTROL;
    }
  }

  // ------------------------------------------------ worst-case time

  const MAX_GAP: nat := 127 * MILLISECOND

  /** The longest one wait for flow control can last. */
  function WaitBudget(opt: Options): (w: nat) {
    (opt.MaxWaitFrames() + 1) * opt.Timeout()
  }

  /** The time allowed for `blocks` waits and `gaps` gaps. */
  function Budget(opt: Options, blocks: int, gaps: int): int {
    blocks * WaitBudget(opt) + gaps * MAX_GAP
  }

  lemma BudgetStep(opt: Options, blocks: int, gaps: int)
    ensures Budget(opt, blocks + 1, gaps) == Budget(opt, blocks, gaps) + WaitBudget(opt)
    ensures Budget(opt, blocks, gaps + 1) == Budget(opt, blocks, gaps) + MAX_GAP
  {
    var w := WaitBudget(opt);
    assert (blocks + 1) * w == blocks * w + w;
  }

  /** When the deadline of a wait that has seen `waits` WAIT frames can fall. */
  function WaitsSpent(opt: Options, waits: nat): int {
    (waits + 1) * opt.Timeout()
  }

  lemma WaitsStep(opt: Options, waits: nat)
    ensures WaitsSpent(opt, waits + 1) == WaitsSpent(opt, waits) + opt.Timeout()
    ensures waits <= opt.MaxWaitFrames() ==> WaitsSpent(opt, waits) <= WaitBudget(opt)
  {
    var t := opt.Timeout();
    if waits <= opt.MaxWaitFrames() {
      var d: nat := opt.MaxWaitFrames() - waits;
      assert (opt.MaxWaitFrames() + 1) * t == (waits + 1) * t + d * t;
    }
  }

  predicate OnTime(opt: Options, frames: seq<Frame>, t0: int, t: Clocked) {
    match t.s
    case Waiting(k, waits) =>
      && waits <= opt.MaxWaitFrames() && k < |frames| - 1 && 1 <= t.blocks <= k + 1
      && t.now <= t.due <= t0 + Budget(opt, t.blocks - 1, k + 1 - t.blocks) + WaitsSpent(opt, waits)
    case InBlock(k, i, _, st) =>
      && k < |frames| - 1 && st <= MAX_GAP && 1 <= t.blocks <= k + 1
      && t.now <= t.due <= t0 + Budget(opt, t.blocks, k + 1 - t.blocks)
    case _ =>
      && 1 <= t.blocks <= |frames| - 1
      && t.now <= t0 + Budget(opt, t.blocks, |frames| - 1 - t.blocks)
  }

  lemma {:induction false} RunOnTime(c: Link, frames: seq<Frame>, t0: int, log: seq<Event>)
    requires |frames| >= 2 && RunLog(c, frames, t0, log).Some?
    ensures OnTime(c.opt, frames, t0, RunLog(c, frames, t0, log).value)
  {
    if log == [] {
      assert Budget(c.opt, 0, 0) == 0;
    } else {
      RunOnTime(c, frames, t0, log[..|log| - 1]);
      var t := RunLog(c, frames, t0, log[..|log| - 1]).value;
      if t.s.Waiting? {
        WaitingOnTime(c, frames, t0, t, log[|log| - 1]);
      } else {
        InBlockOnTime(c, frames, t0, t, log[|log| - 1]);
      }
    }
  }

  lemma MoreGaps(opt: Options, blocks: int, g1: int, g2: int)
    requires g1 <= g2
    ensures Budget(opt, blocks, g1) <= Budget(opt, blocks, g2)
  {
  }

  lemma WaitingOnTime(c: Link, frames: seq<Frame>, t0: int, t: Clocked, e: Event)
    requires t.s.Waiting? && OnTime(c.opt, frames, t0, t)
    requires Advance(c, frames, t, e).Some?
    ensures OnTime(c.opt, frames, t0, Advance(c, frames, t, e).value)
  {
    var k, waits, K := t.s.k, t.s.waits, |frames| - 1;
    WaitsStep(c.opt, waits);
    BudgetStep(c.opt, t.blocks - 1, k + 1 - t.blocks);
    MoreGaps(c.opt, t.blocks, k + 1 - t.blocks, K - t.blocks);
  }

  lemma InBlockOnTime(c: Link, frames: seq<Frame>, t0: int, t: Clocked, e: Event)
    requires t.s.InBlock? && OnTime(c.opt, frames, t0, t)
    requires Advance(c, frames, t, e).Some?
    ensures OnTime(c.opt, frames, t0, Advance(c, frames, t, e).value)
  {
    var k, K := t.s.k, |frames| - 1;
    BudgetStep(c.opt, t.blocks, k + 1 - t.blocks);
    MoreGaps(c.opt, t.blocks, k + 1 - t.blocks, K - t.blocks);
    assert WaitsSpent(c.opt, 0) == c.opt.Timeout();
  }

  /**
   * Worst-case time: with instant bus sends, a run with B waits for flow control has taken
   * at most B*(maxWaitFrames+1)*timeout + (K-B)*127 ms, and B is at most the number K of
   * consecutive frames.
   */
  lemma SendTimeBound(c: Link, frames: seq<Frame>, t0: int, log: seq<Event>)
    requires |frames| >= 2 && RunLog(c, frames, t0, log).Some?
    ensures
      var t := RunLog(c, frames, t0, log).value;
      var K := |frames| - 1;
      && 1 <= t.blocks <= K
      && t.now - t0 <= Budget(c.opt, t.blocks, K - t.blocks)
  {
    RunOnTime(c, frames, t0, log);
    OnTimeBound(c.opt, frames, t0, RunLog(c, frames, t0, log).value);
  }

  lemma OnTimeBound(opt: Options, frames: seq<Frame>, t0: int, t: Clocked)
    requires OnTime(opt, frames, t0, t)
    ensures
      var K := |frames| - 1;
      1 <= t.blocks <= K && t.now - t0 <= Budget(opt, t.blocks, K - t.blocks)
  {
    var K := |frames| - 1;
    if t.s.Waiting? || t.s.InBlock? {
      var gaps := t.s.k + 1 - t.blocks;
      MoreGaps(opt, t.blocks, gaps, K - t.blocks);
      if t.s.Waiting? {
        WaitsStep(opt, t.s.waits);
        BudgetStep(opt, t.blocks - 1, gaps);
      }
    }
  }

  /**
   * For a message of n bytes, K is ceil((n - 6) / 7) and at most 585, so the time until Send
   * has finished or failed is bounded by the options and the length alone.
   */
  lemma MessageTimeBound(c: Link, msg: seq<byte>, t0: int, log: seq<Event>)
    requires Sendable(msg) && |msg| > 7 && RunLog(c, AllFrames(c, msg), t0, log).Some?
    ensures
      var t := RunLog(c, AllFrames(c, msg), t0, log).value;
      var K := ConsecutiveCount(|msg|);
      && 7 * (K - 1) < |msg| - 6 <= 7 * K && K <= 585
      && 1 <= t.blocks <= K
      && t.now - t0 <= Budget(c.opt, t.blocks, K - t.blocks)
  {
    hide RunLog, Budget;
    SendTimeBound(c, AllFrames(c, msg), t0, log);
  }
}
