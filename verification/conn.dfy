/** Conn.Send and Conn.Receive (isotp/conn.go). */
module Conns {
  import opened Can
  import opened IsoTp
  import opened Segmentation
  import opened Endpoints
  import opened Sender

  /** Frames that are not from the peer, received in order between two times. */
  predicate Junk(c: Link, log: seq<Event>, from: int, upTo: int) {
    if log == [] then from <= upTo
    else
      var e := log[|log| - 1];
      e.Got? && !c.FromPeer(e.frame) && e.at <= upTo && Junk(c, log[..|log| - 1], from, e.at)
  }

  /** More junk, or just more time. */
  lemma JunkGrows(c: Link, log: seq<Event>, from: int, upTo: int, e: Event)
    requires Junk(c, log, from, upTo) && upTo <= e.at
    ensures Junk(c, log, from, e.at)
    ensures e.Got? && !c.FromPeer(e.frame) ==> Junk(c, log + [e], from, e.at)
  {
    assert (log + [e])[..|log|] == log;
  }

  lemma {:induction false} JunkTimes(c: Link, log: seq<Event>, from: int, upTo: int)
    requires Junk(c, log, from, upTo)
    ensures from <= upTo
  {
    if log != [] {
      JunkTimes(c, log[..|log| - 1], from, log[|log| - 1].at);
    }
  }

  lemma JunkLast(c: Link, log: seq<Event>, from: int, upTo: int)
    requires Junk(c, log, from, upTo)
    ensures log != [] ==> from <= log[|log| - 1].at <= upTo
  {
    if log != [] {
      JunkTimes(c, log[..|log| - 1], from, log[|log| - 1].at);
    }
  }

  /** Frames with other identifiers do not disturb a sender that waits. */
  lemma {:induction false} JunkIgnored(c: Link, frames: seq<Frame>, t0: int, past: seq<Event>, t: Clocked,
                                       junk: seq<Event>, upTo: int)
    requires RunLog(c, frames, t0, past) == Some(t) && t.s.Waiting? && t.s.k + 1 < |frames|
    requires Junk(c, junk, t.now, upTo) && upTo <= t.due
    ensures RunLog(c, frames, t0, past + junk)
            == Some(if junk == [] then t else t.(now := junk[|junk| - 1].at))
  {
    if junk == [] {
      assert past + junk == past;
    } else {
      var before, e := junk[..|junk| - 1], junk[|junk| - 1];
      JunkTimes(c, before, t.now, e.at);
      JunkIgnored(c, frames, t0, past, t, before, e.at);
      RunSnoc(c, frames, t0, past + before, e);
      assert past + junk == past + before + [e];
    }
  }

  /** One frame from the peer, after junk, while the sender waits. */
  lemma PeerFrame(c: Link, frames: seq<Frame>, t0: int, past: seq<Event>, t: Clocked, junk: seq<Event>, at: int,
                  f: Frame)
    requires RunLog(c, frames, t0, past) == Some(t) && t.s.Waiting? && t.s.k + 1 < |frames|
    requires Junk(c, junk, t.now, at) && at <= t.due && c.FromPeer(f)
    ensures
      var s := OnFrame(c.opt, t.s.k, t.s.waits, f.Payload());
      RunLog(c, frames, t0, past + junk + [Got(at, f)])
      == Some(Clocked(s, at, if s == t.s then t.due else if s.Waiting? then at + c.opt.Timeout() else at, t.blocks))
  {
    hide RunLog, OnFrame, Junk;
    JunkTimes(c, junk, t.now, at);
    JunkIgnored(c, frames, t0, past, t, junk, at);
    JunkLast(c, junk, t.now, at);
    RunSnoc(c, frames, t0, past + junk, Got(at, f));
  }

  /** The end of a wait: the deadline or a failure, after junk. */
  lemma WaitEnds(c: Link, frames: seq<Frame>, t0: int, past: seq<Event>, t: Clocked, junk: seq<Event>, e: Event)
    requires RunLog(c, frames, t0, past) == Some(t) && t.s.Waiting? && t.s.k + 1 < |frames|
    requires Junk(c, junk, t.now, e.at) && e.at <= t.due
    requires e.Broken? || (e.Expired? && e.at == t.due)
    ensures RunLog(c, frames, t0, past + junk + [e])
            == Some(Clocked(Sending.Failed(if e.Broken? then ErrBus else ErrTimeout, t.s.k), e.at, e.at, t.blocks))
  {
    hide RunLog, OnFrame, Junk;
    JunkTimes(c, junk, t.now, e.at);
    JunkIgnored(c, frames, t0, past, t, junk, e.at);
    JunkLast(c, junk, t.now, e.at);
    RunSnoc(c, frames, t0, past + junk, e);
  }

  /** The payloads of the frames from the peer in a log. */
  function PeerPayloads(c: Link, log: seq<Event>): seq<seq<byte>> {
    if log == [] then []
    else
      var e, before := log[|log| - 1], PeerPayloads(c, log[..|log| - 1]);
      if e.Got? && c.FromPeer(e.frame) then before + [e.frame.Payload()] else before
  }

  lemma {:induction false} PeerPayloadsAppend(c: Link, a: seq<Event>, b: seq<Event>)
    ensures PeerPayloads(c, a + b) == PeerPayloads(c, a) + PeerPayloads(c, b)
  {
    if b == [] {
      assert a + b == a;
    } else {
      assert (a + b)[..|a + b| - 1] == a + b[..|b| - 1];
      PeerPayloadsAppend(c, a, b[..|b| - 1]);
    }
  }

  lemma {:induction false} JunkSilent(c: Link, junk: seq<Event>, from: int, upTo: int)
    requires Junk(c, junk, from, upTo)
    ensures PeerPayloads(c, junk) == [] && SentFrames(junk) == []
  {
    if junk != [] {
      JunkSilent(c, junk[..|junk| - 1], from, junk[|junk| - 1].at);
    }
  }

  /** The flow control frames among the results of Feed, as Receive sends them. */
  function ControlFrames(c: Link, outs: seq<Fed>): seq<Frame> {
    if outs == [] then []
    else
      var out, before := outs[|outs| - 1], ControlFrames(c, outs[..|outs| - 1]);
      if out.fc.Some? then before + [FrameOf(c.opt, c.txID, out.fc.value)] else before
  }

  /** What one more event, after junk, adds to a log. */
  lemma Overheard(c: Link, log: seq<Event>, junk: seq<Event>, from: int, upTo: int, e: Event)
    requires Junk(c, junk, from, upTo)
    ensures PeerPayloads(c, log + (junk + [e]))
            == if e.Got? && c.FromPeer(e.frame) then PeerPayloads(c, log) + [e.frame.Payload()]
               else PeerPayloads(c, log)
    ensures SentFrames(log + (junk + [e])) == if e.Sent? then SentFrames(log) + [e.frame] else SentFrames(log)
  {
    JunkSilent(c, junk, from, upTo);
    PeerPayloadsAppend(c, log, junk + [e]);
    SentFramesAppend(log, junk + [e]);
    assert (junk + [e])[..|junk|] == junk;
  }

  /** What the answer to one payload adds to a log and to the flow control frames. */
  lemma Answered(c: Link, log: seq<Event>, sent: seq<Event>, outs: seq<Fed>, fed: Fed)
    ensures PeerPayloads(c, sent) == [] ==> PeerPayloads(c, log + sent) == PeerPayloads(c, log)
    ensures SentFrames(sent) == ControlFrames(c, [fed]) && SentFrames(log) == ControlFrames(c, outs) ==>
              SentFrames(log + sent) == ControlFrames(c, outs + [fed])
  {
    PeerPayloadsAppend(c, log, sent);
    SentFramesAppend(log, sent);
    assert (outs + [fed])[..|outs|] == outs;
    assert [fed][..0] == [];
    assert ControlFrames(c, [fed]) == if fed.fc.Some? then [FrameOf(c.opt, c.txID, fed.fc.value)] else [];
    assert PeerPayloads(c, log) + [] == PeerPayloads(c, log) && SentFrames(log) + [] == SentFrames(log);
  }

  /** When the latest frame from the peer came. */
  function LastPeerAt(c: Link, log: seq<Event>): Option<int> {
    if log == [] then None
    else
      var e := log[|log| - 1];
      if e.Got? && c.FromPeer(e.frame) then Some(e.at) else LastPeerAt(c, log[..|log| - 1])
  }

  lemma LastPeerSnoc(c: Link, log: seq<Event>, e: Event)
    ensures LastPeerAt(c, log + [e]) == if e.Got? && c.FromPeer(e.frame) then Some(e.at) else LastPeerAt(c, log)
    ensures PeerPayloads(c, log + [e]) == if e.Got? && c.FromPeer(e.frame)
                                          then PeerPayloads(c, log) + [e.frame.Payload()] else PeerPayloads(c, log)
  {
    assert (log + [e])[..|log|] == log;
  }

  /** Inside a message, every frame from the peer came within the timeout after the one before (N_Cr). */
  ghost predicate Punctual(c: Link, log: seq<Event>) {
    log != [] ==>
      var e, before := log[|log| - 1], log[..|log| - 1];
      && Punctual(c, before)
      && (e.Got? && c.FromPeer(e.frame) && Feeds(c.opt, IDLE, PeerPayloads(c, before)).0.active ==>
            LastPeerAt(c, before).Some? && e.at <= LastPeerAt(c, before).value + c.opt.Timeout())
  }

  /** Events that are no frames from the peer change nothing. */
  lemma {:induction false} OthersPunctual(c: Link, log: seq<Event>, more: seq<Event>)
    requires Punctual(c, log) && PeerPayloads(c, more) == []
    ensures Punctual(c, log + more) && LastPeerAt(c, log + more) == LastPeerAt(c, log)
  {
    hide Feeds;
    if more == [] {
      assert log + more == log;
    } else {
      var before, e := more[..|more| - 1], more[|more| - 1];
      OthersPunctual(c, log, before);
      assert log + more == log + before + [e];
      assert (log + before + [e])[..|log + before|] == log + before;
    }
  }

  /** The next frame from the peer, after junk, came in time. */
  lemma PeerPunctual(c: Link, log: seq<Event>, junk: seq<Event>, from: int, upTo: int, e: Event)
    requires Punctual(c, log) && Junk(c, junk, from, upTo) && e.Got? && c.FromPeer(e.frame)
    requires Feeds(c.opt, IDLE, PeerPayloads(c, log)).0.active ==>
               LastPeerAt(c, log).Some? && e.at <= LastPeerAt(c, log).value + c.opt.Timeout()
    ensures Punctual(c, log + (junk + [e])) && LastPeerAt(c, log + (junk + [e])) == Some(e.at)
  {
    hide Feeds, Junk;
    JunkSilent(c, junk, from, upTo);
    OthersPunctual(c, log, junk);
    PeerPayloadsAppend(c, log, junk);
    var before := log + junk;
    assert PeerPayloads(c, log) + [] == PeerPayloads(c, log);
    assert log + (junk + [e]) == before + [e];
    assert (before + [e])[..|before|] == before;
  }

  lemma NothingYet(c: Link)
    ensures PeerPayloads(c, []) == [] && SentFrames([]) == []
    ensures Feeds(c.opt, IDLE, []) == (IDLE, []) && ControlFrames(c, []) == []
    ensures RxValid(IDLE)
    ensures Punctual(c, []) && LastPeerAt(c, []) == None
  {
  }

  /** Results that leave Receive in its loop. */
  predicate Quiet(outs: seq<Fed>) {
    forall i :: 0 <= i < |outs| ==> outs[i].msg.None? && outs[i].err.None?
  }

  /**
   * How Receive may return r: `run` is the receiver's run over the payloads from the peer,
   * `sent` what was transmitted, `last` the time of the last frame from the peer.
   */
  ghost predicate ReceiveReport(c: Link, run: (RxState, seq<Fed>), sent: seq<Frame>, last: Option<int>, now: int,
                                r: Result<seq<byte>, Error>) {
    var (rx, outs) := run;
    match r
    case Ok(msg) =>
      && sent == ControlFrames(c, outs)
      && outs != [] && outs[|outs| - 1].msg == Some(msg) && Quiet(outs[..|outs| - 1])
    case Err(ErrBus) => true
    case Err(ErrTimeout) =>
      && sent == ControlFrames(c, outs)
      && rx.active && Quiet(outs) && last.Some? && now == last.value + c.opt.Timeout()
    case Err(error) =>
      && sent == ControlFrames(c, outs)
      && outs != [] && outs[|outs| - 1].err == Some(error) && Quiet(outs[..|outs| - 1])
  }

  /** The sender inside its block loop: k consecutive frames sent in all, i of them in this block. */
  ghost function InLoop(c: Link, last: nat, k: nat, i: nat, bs: byte, st: nat, now: int, blocks: nat): Clocked {
    if k >= last then Clocked(Finished, now, now, blocks)
    else if bs != 0 && i >= bs then Clocked(Waiting(k, 0), now, now + c.opt.Timeout(), blocks)
    else Clocked(InBlock(k, i, bs, st), now, if i == 0 then now else now + st, blocks)
  }

  ghost function BlocksAfter(last: nat, k: nat, i: nat, bs: byte, blocks: nat): nat {
    if k + 1 < last && bs != 0 && i + 1 >= bs then blocks + 1 else blocks
  }

  lemma FrameGoes(c: Link, frames: seq<Frame>, t0: int, past: seq<Event>, k: nat, i: nat, bs: byte, st: nat,
                  now: int, blocks: nat, at: int)
    requires k + 1 < |frames| && (bs == 0 || i < bs) && at == (if i == 0 then now else now + st)
    requires RunLog(c, frames, t0, past) == Some(InLoop(c, |frames| - 1, k, i, bs, st, now, blocks))
    ensures RunLog(c, frames, t0, past + [Sent(at, frames[k + 1])])
            == Some(InLoop(c, |frames| - 1, k + 1, i + 1, bs, st, at, BlocksAfter(|frames| - 1, k, i, bs, blocks)))
  {
    RunSnoc(c, frames, t0, past, Sent(at, frames[k + 1]));
  }

  lemma FrameStops(c: Link, frames: seq<Frame>, t0: int, past: seq<Event>, k: nat, i: nat, bs: byte, st: nat,
                   now: int, blocks: nat, at: int)
    requires k + 1 < |frames| && (bs == 0 || i < bs) && now <= at <= (if i == 0 then now else now + st)
    requires RunLog(c, frames, t0, past) == Some(InLoop(c, |frames| - 1, k, i, bs, st, now, blocks))
    ensures RunLog(c, frames, t0, past + [Broken(at)]) == Some(Clocked(Sending.Failed(ErrBus, k), at, at, blocks))
  {
    RunSnoc(c, frames, t0, past, Broken(at));
  }

  /** The sender's offset and sequence number once k consecutive frames are out. */
  ghost predicate AtOffset(n: nat, k: nat, off: int, sn: int) {
    off == Min(Offset(k), n) && sn == (k + 1) % 16 && (off < n <==> k < ConsecutiveCount(n))
  }

  lemma FirstSegment(c: Link, msg: seq<byte>)
    requires Sendable(msg) && |msg| > 7
    ensures FrameOf(c.opt, c.txID, [PCI_FIRST * 16 + |msg| / 256, |msg| % 256] + msg[..6]) == SegmentFrame(c, msg, 0)
    ensures |AllFrames(c, msg)| == ConsecutiveCount(|msg|) + 1 >= 2 && AtOffset(|msg|, 0, 6, 1)
  {
  }

  lemma FrameAt(c: Link, msg: seq<byte>, j: nat)
    requires Sendable(msg) && j <= ConsecutiveCount(|msg|)
    ensures AllFrames(c, msg)[j] == FrameOf(c.opt, c.txID, Segment(msg, j))
  {
  }

  /** The offset tells whether frames are left, as Send's loops test it. */
  lemma OffsetInside(n: nat, k: nat, off: int, sn: int)
    requires AtOffset(n, k, off, sn)
    ensures off < n <==> k < ConsecutiveCount(n)
    ensures 0 <= sn < 16 && 0 <= off <= n
  {
  }

  lemma NextOffset(msg: seq<byte>, k: nat, off: int, sn: byte)
    requires Sendable(msg) && |msg| > 7 && k < ConsecutiveCount(|msg|) && AtOffset(|msg|, k, off, sn)
    ensures
      var end := Min(off + 7, |msg|);
      && [PCI_CONSECUTIVE * 16 + sn] + msg[off..end] == Segment(msg, k + 1)
      && AtOffset(|msg|, k + 1, end, (sn + 1) % 16)
  {
  }

  /** A log after the first frame with which Send may return err at time `now`. */
  ghost predicate EndsSend(c: Link, frames: seq<Frame>, t0: int, log: seq<Event>, now: int, err: Option<Error>) {
    var run := RunLog(c, frames, t0, log);
    && run.Some? && run.value.now == now
    && (if err.None? then run.value.s.Finished? else run.value.s.Failed? && run.value.s.err == err.value)
  }

  /** What Send may put on the bus from time t0 on, and return at time `now`. */
  ghost predicate SendReport(c: Link, msg: seq<byte>, t0: int, sent: seq<Event>, now: int, err: Option<Error>) {
    if msg == [] then err == Some(ErrInvalidFrame) && sent == [] && now == t0
    else if |msg| > MAX_MESSAGE_LEN then err == Some(ErrTooLong) && sent == [] && now == t0
    else if sent == [Broken(t0)] then err == Some(ErrBus) && now == t0
    else
      && sent != [] && sent[0] == Sent(t0, SegmentFrame(c, msg, 0))
      && if |msg| <= 7 then err == None && |sent| == 1 && now == t0
         else EndsSend(c, AllFrames(c, msg), t0, sent[1..], now, err)
  }

  class Conn {
    const bus: Endpoint
    const link: Link

    constructor (bus: Endpoint, txID: uint32, rxID: uint32, opt: Options)
      ensures this.bus == bus && link == Link(txID, rxID, opt)
    {
      this.bus := bus;
      this.link := Link(txID, rxID, opt);
    }

    /** The next frame from the peer; others are skipped. */
    method ReceiveFromPeer(deadline: Option<int>) returns (r: Received, ghost junk: seq<Event>)
      modifies bus
      ensures r.Delivered? ==>
                && link.FromPeer(r.frame) && |bus.inbox| < |old(bus.inbox)|
                && bus.log == old(bus.log) + junk + [Got(bus.now, r.frame)]
      ensures r.DeadlineExceeded? ==>
                && deadline.Some? && bus.now == Max(old(bus.now), deadline.value)
                && bus.log == old(bus.log) + junk + [Expired(bus.now)]
      ensures r.BusFailed? ==> bus.log == old(bus.log) + junk + [Broken(bus.now)]
      ensures deadline.Some? ==> bus.now <= Max(old(bus.now), deadline.value)
      ensures Junk(link, junk, old(bus.now), bus.now)
    {
      junk := [];
      while true
        invariant bus.log == old(bus.log) + junk && |bus.inbox| <= |old(bus.inbox)|
        invariant Junk(link, junk, old(bus.now), bus.now) && old(bus.now) <= bus.now
        invariant deadline.Some? ==> bus.now <= Max(old(bus.now), deadline.value)
        decreases |bus.inbox|
      {
        ghost var before := bus.now;
        r := bus.Receive(deadline);
        JunkGrows(link, junk, old(bus.now), before, if r.Delivered? then Got(bus.now, r.frame) else Broken(bus.now));
        if !r.Delivered? || link.FromPeer(r.frame) {
          return;
        }
        junk := junk + [Got(bus.now, r.frame)];
      }
    }

    /**
     * Waits until the peer lets the transfer go on. `past` is the log since the first frame,
     * `tail` what this call adds.
     */
    method WaitFlowControl(ghost frames: seq<Frame>, ghost t0: int, ghost past: seq<Event>, ghost k: nat,
                           ghost blocks: nat)
      returns (err: Option<Error>, bs: byte, st: nat, ghost tail: seq<Event>)
      requires k + 1 < |frames|
      requires RunLog(link, frames, t0, past)
               == Some(Clocked(Waiting(k, 0), bus.now, bus.now + link.opt.Timeout(), blocks))
      modifies bus
      ensures bus.log == old(bus.log) + tail
      ensures RunLog(link, frames, t0, past + tail)
              == Some(if err.Some? then Clocked(Sending.Failed(err.value, k), bus.now, bus.now, blocks)
                      else Clocked(InBlock(k, 0, bs, st), bus.now, bus.now, blocks))
    {
      hide RunLog;
      err, bs, st, tail := None, 0, 0, [];
      var waits := 0;
      var deadline := bus.now + link.opt.Timeout();
      ghost var t := Clocked(Waiting(k, 0), bus.now, deadline, blocks);
      ghost var run := past;
      while true
        invariant bus.log == old(bus.log) + tail && run == past + tail
        invariant t == Clocked(Waiting(k, waits), t.now, deadline, blocks)
        invariant t.now == bus.now <= deadline
        invariant err.None? && RunLog(link, frames, t0, run) == Some(t)
        decreases |bus.inbox|
      {
        ghost var before := run;
        var r, junk := ReceiveFromPeer(Some(deadline));
        ghost var e := if r.Delivered? then Got(bus.now, r.frame)
                       else if r.BusFailed? then Broken(bus.now) else Expired(bus.now);
        tail := tail + (junk + [e]);
        run := past + tail;
        assert run == before + junk + [e];
        if !r.Delivered? {
          WaitEnds(link, frames, t0, before, t, junk, e);
          t := Clocked(Sending.Failed(if r.BusFailed? then ErrBus else ErrTimeout, k), bus.now, bus.now, blocks);
          err := Some(if r.BusFailed? then ErrBus else ErrTimeout);
          break;
        }
        var p := r.frame.Payload();
        PeerFrame(link, frames, t0, before, t, junk, bus.now, r.frame);
        ghost var s := OnFrame(link.opt, k, waits, p);
        t := Clocked(s, bus.now,
                     if s == t.s then deadline
                     else if s.Waiting? then bus.now + link.opt.Timeout() else bus.now, blocks);
        if |p| < 3 || p[0] / 16 != PCI_FLOW_CONTROL {
          continue;
        }
        match p[0] % 16 {
          case 0 =>
            bs, st := p[1], DecodeSTmin(p[2]);
            break;
          case 1 =>
            waits := waits + 1;
            if waits > link.opt.MaxWaitFrames() {
              err := Some(ErrTimeout);
              break;
            }
            deadline := bus.now + link.opt.Timeout();
          case 2 =>
            err := Some(ErrOverflow);
            break;
          case _ =>
            err := Some(ErrInvalidFrame);
            break;
        }
      }
    }

    /** Sleeps between the frames of a block, then sends the next consecutive frame. */
    method SendConsecutive(ghost frames: seq<Frame>, ghost t0: int, ghost past: seq<Event>, ghost k: nat,
                           ghost blocks: nat,
                           payload: seq<byte>, i: nat, ghost bs: byte, st: nat)
      returns (ok: bool, ghost e: Event)
      requires k + 1 < |frames| && frames[k + 1] == FrameOf(link.opt, link.txID, payload)
      requires RunLog(link, frames, t0, past) == Some(InLoop(link, |frames| - 1, k, i, bs, st, bus.now, blocks))
      requires bs == 0 || i < bs
      modifies bus
      ensures bus.log == old(bus.log) + [e]
      ensures RunLog(link, frames, t0, past + [e])
              == Some(if ok then InLoop(link, |frames| - 1, k + 1, i + 1, bs, st, bus.now,
                                        BlocksAfter(|frames| - 1, k, i, bs, blocks))
                      else Clocked(Sending.Failed(ErrBus, k), bus.now, bus.now, blocks))
    {
      if i > 0 && st > 0 {
        ok := bus.Sleep(st);
        if !ok {
          e := Broken(bus.now);
          FrameStops(link, frames, t0, past, k, i, bs, st, old(bus.now), blocks, bus.now);
          return;
        }
      }
      var f := BuildFrame(link.opt, link.txID, payload);
      ok := bus.Send(f);
      if ok {
        e := Sent(bus.now, f);
        FrameGoes(link, frames, t0, past, k, i, bs, st, old(bus.now), blocks, bus.now);
      } else {
        e := Broken(bus.now);
        FrameStops(link, frames, t0, past, k, i, bs, st, old(bus.now), blocks, bus.now);
      }
    }

    /** The inner loop of Send: one block of consecutive frames. */
    method SendBlock(msg: seq<byte>, ghost t0: int, ghost past: seq<Event>, ghost from: nat, ghost blocks: nat,
                     off0: int, sn0: int, bs: byte, st: nat)
      returns (ok: bool, off: int, sn: int, ghost tail: seq<Event>, ghost k: nat, ghost t: Clocked)
      requires Sendable(msg) && |msg| > 7 && from < ConsecutiveCount(|msg|) && AtOffset(|msg|, from, off0, sn0)
      requires RunLog(link, AllFrames(link, msg), t0, past)
               == Some(Clocked(InBlock(from, 0, bs, st), bus.now, bus.now, blocks))
      modifies bus
      ensures bus.log == old(bus.log) + tail
      ensures RunLog(link, AllFrames(link, msg), t0, past + tail) == Some(t) && t.now == bus.now
      ensures !ok ==> t.s == Sending.Failed(ErrBus, k)
      ensures ok ==> from < k <= ConsecutiveCount(|msg|) && AtOffset(|msg|, k, off, sn)
      ensures ok ==> t == if k < ConsecutiveCount(|msg|)
                          then Clocked(Waiting(k, 0), bus.now, bus.now + link.opt.Timeout(), t.blocks)
                          else Clocked(Finished, bus.now, bus.now, t.blocks)
    {
      hide RunLog, FrameOf, Segment, FrameRange, AllFrames, AtOffset, Offset;
      ghost var frames := AllFrames(link, msg);
      FirstSegment(link, msg);
      ghost var last := |frames| - 1;
      OffsetInside(|msg|, from, off0, sn0);
      ghost var waits := blocks;
      ok, off, sn, tail, k := true, off0, sn0, [], from;
      t := InLoop(link, last, k, 0, bs, st, bus.now, waits);
      var i: nat := 0;
      assert past + tail == past;
      while off < |msg| && (bs == 0 || i < bs)
        invariant ok && bus.log == old(bus.log) + tail
        invariant i == k - from && k <= last && (bs > 0 ==> i <= bs)
        invariant AtOffset(|msg|, k, off, sn) && 0 <= sn < 16 && 0 <= off <= |msg| && (off < |msg| <==> k < last)
        invariant t == InLoop(link, last, k, i, bs, st, bus.now, waits)
        invariant RunLog(link, frames, t0, past + tail) == Some(t)
        decreases |msg| - off
      {
        var end := Min(off + 7, |msg|);
        var cf := [PCI_CONSECUTIVE * 16 + sn] + msg[off..end];
        NextOffset(msg, k, off, sn);
        FrameAt(link, msg, k + 1);
        ghost var e;
        ok, e := SendConsecutive(frames, t0, past + tail, k, waits, cf, i, bs, st);
        assert past + tail + [e] == past + (tail + [e]);
        tail := tail + [e];
        if !ok {
          t := Clocked(Sending.Failed(ErrBus, k), bus.now, bus.now, waits);
          break;
        }
        waits := BlocksAfter(last, k, i, bs, waits);
        off, sn, i, k := end, (sn + 1) % 16, i + 1, k + 1;
        OffsetInside(|msg|, k, off, sn);
        t := InLoop(link, last, k, i, bs, st, bus.now, waits);
      }
    }

    /** The loop of Send over the blocks of a message. */
    method SendSegmented(msg: seq<byte>) returns (err: Option<Error>, ghost events: seq<Event>)
      requires Sendable(msg) && |msg| > 7
      modifies bus
      ensures bus.log == old(bus.log) + events
      ensures
        || (err == Some(ErrBus) && events == [Broken(bus.now)] && bus.now == old(bus.now))
        || (&& events != [] && events[0] == Sent(old(bus.now), SegmentFrame(link, msg, 0))
            && EndsSend(link, AllFrames(link, msg), old(bus.now), events[1..], bus.now, err))
    {
      hide RunLog, FrameOf, Segment, FrameRange, AllFrames, SegmentFrame, AtOffset, Offset;
      FirstSegment(link, msg);
      ghost var tail: seq<Event> := [];
      var n := |msg|;
      var first := BuildFrame(link.opt, link.txID, [PCI_FIRST * 16 + n / 256, n % 256] + msg[..6]);
      var ok := bus.Send(first);
      if !ok {
        return Some(ErrBus), [Broken(bus.now)];
      }
      ghost var t0, frames, sent := bus.now, AllFrames(link, msg), bus.log;
      ghost var k, last := 0, |frames| - 1;
      ghost var t := Start(link, t0);
      RunStart(link, frames, t0);
      err := None;
      var off: int, sn: int := 6, 1;
      while off < n
        invariant bus.log == sent + tail && err.None?
        invariant k <= last && AtOffset(n, k, off, sn) && 0 <= off <= n && (off < n <==> k < last)
        invariant t == if k < last then Clocked(Waiting(k, 0), bus.now, bus.now + link.opt.Timeout(), t.blocks)
                       else Clocked(Finished, bus.now, bus.now, t.blocks)
        invariant RunLog(link, frames, t0, tail) == Some(t)
        decreases last - k
      {
        var bs, st;
        ghost var waited;
        err, bs, st, waited := WaitFlowControl(frames, t0, tail, k, t.blocks);
        tail := tail + waited;
        if err.Some? {
          t := Clocked(Sending.Failed(err.value, k), bus.now, bus.now, t.blocks);
          break;
        }
        ghost var burst;
        ok, off, sn, burst, k, t := SendBlock(msg, t0, tail, k, t.blocks, off, sn, bs, st);
        tail := tail + burst;
        if !ok {
          err := Some(ErrBus);
          break;
        }
        OffsetInside(n, k, off, sn);
      }
      events := [Sent(t0, first)] + tail;
      assert events[1..] == tail;
    }

    /**
     * Send against an arbitrary peer. A message of 1 to 7 bytes is one frame; a longer one
     * is its first frame and then a run of the sender's state machine, which says why Send
     * returns. A message of any other length is refused and nothing is sent.
     */
    method Send(msg: seq<byte>) returns (err: Option<Error>, ghost sent: seq<Event>)
      modifies bus
      ensures bus.log == old(bus.log) + sent
      ensures SendReport(link, msg, old(bus.now), sent, bus.now, err)
    {
      hide EndsSend, AllFrames, RunLog;
      sent := [];
      var n := |msg|;
      if n == 0 {
        err := Some(ErrInvalidFrame);
      } else if n > MAX_MESSAGE_LEN {
        err := Some(ErrTooLong);
      } else if n <= 7 {
        var f := BuildFrame(link.opt, link.txID, [n] + msg);
        var ok := bus.Send(f);
        err, sent := if ok then None else Some(ErrBus), [if ok then Sent(bus.now, f) else Broken(bus.now)];
      } else {
        err, sent := SendSegmented(msg);
      }
    }

    /** Feeds one payload to the receiver and transmits the flow control frame it asks for. */
    method FeedAndAnswer(rx: Receiver, p: seq<byte>) returns (fed: Fed, ok: bool, ghost sent: seq<Event>)
      requires rx.Valid() && rx.opt == link.opt
      modifies rx, bus`log
      ensures rx.Valid() && (rx.State(), fed) == FeedStep(link.opt, old(rx.State()), p)
      ensures bus.log == old(bus.log) + sent && PeerPayloads(link, sent) == []
      ensures ok ==> SentFrames(sent) == ControlFrames(link, [fed])
      ensures !ok ==> EndsBroken(sent)
      ensures fed.err.Some? ==> fed.err.value in {ErrInvalidFrame, ErrTooLong, ErrSequence} && fed.msg.None?
    {
      fed := rx.Feed(p);
      assert [fed][..0] == [];
      if fed.fc.Some? {
        var f := BuildFrame(link.opt, link.txID, fed.fc.value);
        ok := bus.Send(f);
        sent := [if ok then Sent(bus.now, f) else Broken(bus.now)];
        assert sent[..0] == [];
      } else {
        ok, sent := true, [];
      }
    }

    /**
     * Receive: the frames from the peer go through one Receiver. It returns the first
     * message, or the first error, and has sent each flow control frame asked for on the
     * way. It times out only inside a message, when no frame from the peer came within the
     * timeout of the last one.
     */
    method Receive() returns (r: Result<seq<byte>, Error>, ghost tail: seq<Event>)
      modifies bus
      ensures bus.log == old(bus.log) + tail
      ensures ReceiveReport(link, Feeds(link.opt, IDLE, PeerPayloads(link, tail)), SentFrames(tail),
              LastPeerAt(link, tail), bus.now, r)
      ensures Punctual(link, tail)
      ensures r == Err(ErrBus) ==> EndsBroken(tail)
    {
      hide Feeds, PeerPayloads, SentFrames, ControlFrames, FeedStep, RxValid, Junk, LastPeerAt, Punctual, Expects,
           JustFed, ReceiveReport;
      var rx := new Receiver(link.opt);
      var deadline: Option<int> := None;
      tail := [];
      ghost var outs: seq<Fed> := [];
      ReceiveStarts(link, bus.now);
      while true
        invariant rx.Valid() && rx.opt == link.opt && fresh(rx)
        invariant bus.log == old(bus.log) + tail && Expects(link, tail, rx.State(), outs, bus.now, deadline)
        decreases |bus.inbox|
      {
        ghost var before, past := bus.now, tail;
        var got, junk := ReceiveFromPeer(deadline);
        ghost var e := if got.Delivered? then Got(bus.now, got.frame)
                       else if got.BusFailed? then Broken(bus.now) else Expired(bus.now);
        tail := tail + (junk + [e]);
        if !got.Delivered? {
          r := Err(if got.BusFailed? then ErrBus else ErrTimeout);
          ReceiveStops(link, past, rx.State(), outs, before, deadline, junk, e, bus.now);
          break;
        }
        ghost var st := rx.State();
        var fed, ok, sent := FeedAndAnswer(rx, got.frame.Payload());
        ReceiveFeeds(link, past, st, outs, before, deadline, junk, e, fed, rx.State(), sent, ok);
        tail, outs := tail + sent, outs + [fed];
        FedEnds(link, tail, rx.State(), outs, bus.now, ok);
        if !ok {
          r := Err(ErrBus);
          break;
        }
        if fed.err.Some? {
          r := Err(fed.err.value);
          break;
        }
        if fed.msg.Some? {
          r := Ok(fed.msg.value);
          break;
        }
        deadline := if rx.active then Some(bus.now + link.opt.Timeout()) else None;
      }
    }
  }

  /**
   * Receive's deadline: set inside a message only, the timeout after the last frame from the
   * peer, and still to come.
   */
  predicate DeadlineSet(c: Link, active: bool, last: Option<int>, now: int, deadline: Option<int>) {
    if active then last.Some? && deadline == Some(last.value + c.opt.Timeout()) && now <= deadline.value
    else deadline == None
  }

  /** Receive is in its loop, and its receiver, its answers and its deadline are what the log says. */
  ghost predicate Expects(c: Link, log: seq<Event>, st: RxState, outs: seq<Fed>, now: int, deadline: Option<int>) {
    && Feeds(c.opt, IDLE, PeerPayloads(c, log)) == (st, outs) && Quiet(outs)
    && SentFrames(log) == ControlFrames(c, outs) && Punctual(c, log)
    && DeadlineSet(c, st.active, LastPeerAt(c, log), now, deadline)
  }

  /** Receive has just fed a frame and answered it, if `ok`. */
  ghost predicate JustFed(c: Link, log: seq<Event>, st: RxState, outs: seq<Fed>, now: int, ok: bool) {
    && Feeds(c.opt, IDLE, PeerPayloads(c, log)) == (st, outs) && outs != [] && Quiet(outs[..|outs| - 1])
    && (ok ==> SentFrames(log) == ControlFrames(c, outs)) && Punctual(c, log) && LastPeerAt(c, log) == Some(now)
    && (!ok ==> EndsBroken(log))
  }

  lemma ReceiveStarts(c: Link, now: int)
    ensures Expects(c, [], IDLE, [], now, None)
  {
    NothingYet(c);
  }

  /** The wait for the next frame ends without one. */
  lemma ReceiveStops(c: Link, log: seq<Event>, st: RxState, outs: seq<Fed>, before: int, deadline: Option<int>,
                     junk: seq<Event>, e: Event, now: int)
    requires Expects(c, log, st, outs, before, deadline) && Junk(c, junk, before, now) && e.at == now
    requires e.Broken? || (e.Expired? && deadline.Some? && now == Max(before, deadline.value))
    ensures
      var tail := log + (junk + [e]);
      && ReceiveReport(c, Feeds(c.opt, IDLE, PeerPayloads(c, tail)), SentFrames(tail), LastPeerAt(c, tail), now,
                       Err(if e.Broken? then ErrBus else ErrTimeout))
      && Punctual(c, tail) && (e.Broken? ==> EndsBroken(tail))
  {
    hide Feeds, PeerPayloads, SentFrames, ControlFrames, Junk, LastPeerAt, Punctual;
    Overheard(c, log, junk, before, now, e);
    Interrupted(c, log, junk, before, now, e);
    var tail := log + (junk + [e]);
    assert tail[|tail| - 1] == e;
  }

  /** The next frame from the peer is fed and answered. */
  lemma ReceiveFeeds(c: Link, log: seq<Event>, st: RxState, outs: seq<Fed>, before: int, deadline: Option<int>,
                     junk: seq<Event>, e: Event, fed: Fed, st': RxState, sent: seq<Event>, ok: bool)
    requires Expects(c, log, st, outs, before, deadline) && RxValid(st)
    requires e.Got? && c.FromPeer(e.frame) && Junk(c, junk, before, e.at)
    requires deadline.Some? ==> e.at <= Max(before, deadline.value)
    requires (st', fed) == FeedStep(c.opt, st, e.frame.Payload())
    requires PeerPayloads(c, sent) == [] && (ok ==> SentFrames(sent) == ControlFrames(c, [fed]))
             && (!ok ==> EndsBroken(sent))
    ensures JustFed(c, log + (junk + [e]) + sent, st', outs + [fed], e.at, ok)
  {
    hide Feeds, PeerPayloads, SentFrames, ControlFrames, FeedStep, RxValid, Junk, LastPeerAt, Punctual;
    Overheard(c, log, junk, before, e.at, e);
    PeerPunctual(c, log, junk, before, e.at, e);
    var heard := log + (junk + [e]);
    FeedsSnoc(c.opt, IDLE, PeerPayloads(c, log), e.frame.Payload());
    Answered(c, heard, sent, outs, fed);
    OthersPunctual(c, heard, sent);
    assert (outs + [fed])[..|outs|] == outs;
    assert !ok ==> (heard + sent)[|heard + sent| - 1] == sent[|sent| - 1];
  }

  /** What follows from the result of the frame: Receive returns, or goes on with a new deadline. */
  lemma FedEnds(c: Link, log: seq<Event>, st: RxState, outs: seq<Fed>, now: int, ok: bool)
    requires JustFed(c, log, st, outs, now, ok)
    ensures outs != [] && Punctual(c, log) && (!ok ==> EndsBroken(log))
    ensures
      var run, sent := Feeds(c.opt, IDLE, PeerPayloads(c, log)), SentFrames(log);
      var last, fed := LastPeerAt(c, log), outs[|outs| - 1];
      && (!ok ==> ReceiveReport(c, run, sent, last, now, Err(ErrBus)))
      && (ok && fed.err.Some? && fed.err.value in {ErrInvalidFrame, ErrTooLong, ErrSequence} ==>
            ReceiveReport(c, run, sent, last, now, Err(fed.err.value)))
      && (ok && fed.msg.Some? ==> ReceiveReport(c, run, sent, last, now, Ok(fed.msg.value)))
      && (ok && fed.err.None? && fed.msg.None? ==>
            Expects(c, log, st, outs, now, if st.active then Some(now + c.opt.Timeout()) else None))
  {
    hide Feeds, PeerPayloads, SentFrames, ControlFrames, LastPeerAt, Punctual;
    assert outs[..|outs| - 1] + [outs[|outs| - 1]] == outs;
  }

  lemma Interrupted(c: Link, log: seq<Event>, junk: seq<Event>, from: int, upTo: int, e: Event)
    requires Punctual(c, log) && Junk(c, junk, from, upTo) && !e.Got?
    ensures Punctual(c, log + (junk + [e])) && LastPeerAt(c, log + (junk + [e])) == LastPeerAt(c, log)
  {
    hide Junk, Punctual, LastPeerAt;
    JunkSilent(c, junk, from, upTo);
    LastPeerSnoc(c, junk, e);
    OthersPunctual(c, log, junk + [e]);
  }
}
