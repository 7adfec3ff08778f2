/**
 * What a Receiver promises over whole frame sequences (isotp/isotp.go:131-237): its
 * results as a function of the history, and its behaviour when frames of a message are
 * lost, repeated or reordered.
 */
module ReceiverHistory {
  import opened Can
  import opened IsoTp
  import opened Segmentation

  predicate IsKind(p: seq<byte>, kind: nat) {
    p != [] && p[0] / 16 == kind
  }

  /** Single and first frames end whatever transfer was in progress. */
  predicate Restarts(p: seq<byte>) {
    IsKind(p, PCI_SINGLE) || IsKind(p, PCI_FIRST)
  }

  /** The latest single or first frame of a history, or [] when there is none. */
  function Head(ps: seq<seq<byte>>): seq<byte> {
    if ps == [] then []
    else
      var p := ps[|ps| - 1];
      if Restarts(p) then p else Head(ps[..|ps| - 1])
  }

  /** The consecutive frames since then, in order of arrival. */
  function Since(ps: seq<seq<byte>>): (cs: seq<seq<byte>>)
    ensures forall i :: 0 <= i < |cs| ==> IsKind(cs[i], PCI_CONSECUTIVE)
  {
    if ps == [] then []
    else
      var p, before := ps[|ps| - 1], ps[..|ps| - 1];
      if Restarts(p) then []
      else if IsKind(p, PCI_CONSECUTIVE) then Since(before) + [p]
      else Since(before)
  }

  /** A first frame that starts a transfer. */
  predicate Opens(h: seq<byte>) {
    IsKind(h, PCI_FIRST) && |h| >= MAX_DATA_LEN && Announced(h) >= MAX_DATA_LEN
  }

  /** Sequence numbers 1, 2, .. modulo 16 without a gap. */
  predicate InSequence(cs: seq<seq<byte>>) {
    forall i :: 0 <= i < |cs| ==> cs[i] != [] && cs[i][0] % 16 == (i + 1) % 16
  }

  /** The data bytes of a first frame and of consecutive frames, put end to end. */
  function Joined(h: seq<byte>, cs: seq<seq<byte>>): (s: seq<byte>)
    requires |h| >= MAX_DATA_LEN
    requires forall i :: 0 <= i < |cs| ==> cs[i] != []
    ensures |s| >= 6
  {
    if cs == [] then h[2..8] else Joined(h, cs[..|cs| - 1]) + cs[|cs| - 1][1..]
  }

  /** A transfer is open: frames h and cs belong together and do not yet carry the announced length. */
  predicate Open(h: seq<byte>, cs: seq<seq<byte>>) {
    Opens(h) && InSequence(cs) && |Joined(h, cs)| < Announced(h)
  }

  /** The receiver's whole state, read off the history. */
  function StateOf(opt: Options, h: seq<byte>, cs: seq<seq<byte>>): (s: RxState)
    ensures RxValid(s)
  {
    if Open(h, cs) then
      RxState(true, Announced(h), Joined(h, cs), (|cs| + 1) % 16, InBlockAfter(opt.blockSize, |cs|))
    else IDLE
  }

  lemma {:induction false} HistoryState(opt: Options, ps: seq<seq<byte>>)
    ensures Feeds(opt, IDLE, ps).0 == StateOf(opt, Head(ps), Since(ps))
  {
    if ps != [] {
      var before, p := ps[..|ps| - 1], ps[|ps| - 1];
      assert ps == before + [p];
      HistoryState(opt, before);
      FeedsSnoc(opt, IDLE, before, p);
      var s := Feeds(opt, IDLE, before).0;
      if Restarts(p) {
        RestartState(opt, s, p);
      } else if IsKind(p, PCI_CONSECUTIVE) {
        ConsecutiveState(opt, Head(before), Since(before), p);
      }
    }
  }

  lemma RestartState(opt: Options, s: RxState, p: seq<byte>)
    requires RxValid(s) && Restarts(p)
    ensures FeedStep(opt, s, p).0 == StateOf(opt, p, [])
  {
  }

  lemma ConsecutiveState(opt: Options, h: seq<byte>, cs: seq<seq<byte>>, p: seq<byte>)
    requires IsKind(p, PCI_CONSECUTIVE)
    requires forall i :: 0 <= i < |cs| ==> cs[i] != []
    ensures FeedStep(opt, StateOf(opt, h, cs), p).0 == StateOf(opt, h, cs + [p])
  {
    hide InSequence, FeedFirst, FeedSingle, InBlockAfter, Joined;
    SequenceSnoc(cs, p);
    if |h| >= MAX_DATA_LEN {
      JoinedSnoc(h, cs, p);
    }
    var ds := cs + [p];
    var s := StateOf(opt, h, cs);
    assert FeedStep(opt, s, p) == FeedConsecutive(opt, s, p);
    if Opens(h) {
      hide FeedStep;
      if Open(h, cs) && InSequence(ds) && |Joined(h, ds)| < Announced(h) {
        assert p[1..1 + (|p| - 1)] == p[1..];
        BlockNext(opt, |cs|);
      }
    }
  }

  lemma JoinedSnoc(h: seq<byte>, cs: seq<seq<byte>>, p: seq<byte>)
    requires |h| >= MAX_DATA_LEN && p != []
    requires forall i :: 0 <= i < |cs| ==> cs[i] != []
    ensures Joined(h, cs + [p]) == Joined(h, cs) + p[1..]
  {
    var ds := cs + [p];
    assert ds[..|cs|] == cs && ds[|cs|] == p;
  }

  lemma BlockNext(opt: Options, k: nat)
    ensures InBlockAfter(opt.blockSize, k + 1)
            == if opt.blockSize == 0 || InBlockAfter(opt.blockSize, k) + 1 == opt.blockSize then 0
               else InBlockAfter(opt.blockSize, k) + 1
  {
  }

  lemma SequenceSnoc(cs: seq<seq<byte>>, p: seq<byte>)
    requires p != []
    ensures InSequence(cs + [p]) <==> InSequence(cs) && p[0] % 16 == (|cs| + 1) % 16
  {
    var ds := cs + [p];
    assert ds[|cs|] == p;
    if InSequence(ds) {
      forall i | 0 <= i < |cs| ensures cs[i] != [] && cs[i][0] % 16 == (i + 1) % 16 {
        assert ds[i] == cs[i];
      }
    }
  }

  /** p is a well-formed single frame. */
  predicate CompleteSingle(p: seq<byte>) {
    IsKind(p, PCI_SINGLE) && 1 <= p[0] % 16 <= 7 && p[0] % 16 < |p|
  }

  /** p is the consecutive frame that brings an open transfer to its announced length. */
  predicate Completes(h: seq<byte>, cs: seq<seq<byte>>, p: seq<byte>) {
    Open(h, cs) && IsKind(p, PCI_CONSECUTIVE) && InSequence(cs + [p]) && Announced(h) <= |Joined(h, cs + [p])|
  }

  /** p is the consecutive frame after which an open transfer goes on with a new block. */
  predicate EndsBlock(opt: Options, h: seq<byte>, cs: seq<seq<byte>>, p: seq<byte>) {
    && Open(h, cs) && IsKind(p, PCI_CONSECUTIVE) && InSequence(cs + [p])
    && |Joined(h, cs + [p])| < Announced(h)
    && BlockEnds(opt, |cs| + 1)
  }

  /**
   * Soundness and completeness of Feed over every frame sequence. With h and cs the latest
   * starting frame and the consecutive frames since: a message comes out exactly for a
   * well-formed single frame or a frame that completes an unbroken transfer, and it is the
   * joined data cut at the announced length; flow control goes out exactly after a first
   * frame and at each block end; and each error has exactly one cause.
   */
  lemma FeedByHistory(opt: Options, ps: seq<seq<byte>>, p: seq<byte>)
    ensures
      var h, cs := Head(ps), Since(ps);
      var out := FeedStep(opt, Feeds(opt, IDLE, ps).0, p).1;
      && (out.msg.Some? <==> CompleteSingle(p) || Completes(h, cs, p))
      && (CompleteSingle(p) ==> out.msg == Some(p[1..1 + p[0] % 16]))
      && (Completes(h, cs, p) ==> out.msg == Some(Joined(h, cs + [p])[..Announced(h)]))
      && (out.fc == Some(FlowControl(opt)) <==> Opens(p) || EndsBlock(opt, h, cs, p))
      && (out.fc == Some(OVERFLOW_CONTROL) <==> out.err == Some(ErrTooLong))
      && (out.err == Some(ErrTooLong) <==> IsKind(p, PCI_FIRST) && |p| >= 8 && Announced(p) == 0)
      && (out.err == Some(ErrSequence) <==> Open(h, cs) && IsKind(p, PCI_CONSECUTIVE) && !InSequence(cs + [p]))
      && (out.err == Some(ErrInvalidFrame) <==>
            (IsKind(p, PCI_SINGLE) && !CompleteSingle(p)) || (IsKind(p, PCI_FIRST) && |p| < 8))
  {
    HistoryState(opt, ps);
    var h, cs := Head(ps), Since(ps);
    if IsKind(p, PCI_CONSECUTIVE) {
      ConsecutiveResult(opt, h, cs, p);
    }
  }

  lemma ConsecutiveResult(opt: Options, h: seq<byte>, cs: seq<seq<byte>>, p: seq<byte>)
    requires IsKind(p, PCI_CONSECUTIVE)
    requires forall i :: 0 <= i < |cs| ==> cs[i] != []
    ensures
      FeedStep(opt, StateOf(opt, h, cs), p).1 ==
      if !Open(h, cs) then NOTHING
      else if !InSequence(cs + [p]) then Fed(None, None, Some(ErrSequence))
      else if Announced(h) <= |Joined(h, cs + [p])| then Fed(None, Some(Joined(h, cs + [p])[..Announced(h)]), None)
      else if BlockEnds(opt, |cs| + 1) then Fed(Some(FlowControl(opt)), None, None)
      else NOTHING
  {
    ConsecutiveState(opt, h, cs, p);
    var ds := cs + [p];
    if Open(h, cs) {
      assert ds[..|cs|] == cs && ds[|cs|] == p;
      var buf, want := Joined(h, cs), Announced(h);
      assert Joined(h, ds) == buf + p[1..];
      SequenceSnoc(cs, p);
      if InSequence(ds) {
        if want <= |buf| + |p| - 1 {
          assert buf + p[1..1 + (want - |buf|)] == (buf + p[1..])[..want];
        }
      }
    }
  }

  // ------------------------------------------------ faults

  /** The payloads that arrive when the segments of a message are delivered in the order d. */
  function Arrivals(sopt: Options, msg: seq<byte>, d: seq<nat>): (ps: seq<seq<byte>>)
    requires Sendable(msg) && forall i :: 0 <= i < |d| ==> d[i] <= ConsecutiveCount(|msg|)
    ensures |ps| == |d|
  {
    if d == [] then [] else [Padded(sopt, Segment(msg, d[0]))] + Arrivals(sopt, msg, d[1..])
  }

  /** Where a receiver is in a message: None when reset, Some(k) when it expects consecutive frame k. */
  type Position = Option<nat>

  predicate ValidPosition(msg: seq<byte>, at: Position) {
    at.Some? ==> at.value < ConsecutiveCount(|msg|)
  }

  function StateAt(opt: Options, msg: seq<byte>, at: Position): (s: RxState)
    requires Sendable(msg) && ValidPosition(msg, at)
    ensures RxValid(s)
  {
    if at.Some? then Partial(opt, msg, at.value) else IDLE
  }

  /** The position after segment j arrives. */
  function Move(msg: seq<byte>, at: Position, j: nat): (next: Position)
    requires Sendable(msg) && ValidPosition(msg, at) && j <= ConsecutiveCount(|msg|)
    ensures ValidPosition(msg, next)
  {
    if j == 0 then (if |msg| <= 7 then None else Some(0))
    else if at == Some(j - 1) && j < ConsecutiveCount(|msg|) then Some(j)
    else None
  }

  /** Every consecutive frame that arrives is less than 16 away from the expected one. */
  predicate InWindow(msg: seq<byte>, at: Position, d: seq<nat>)
    requires Sendable(msg) && ValidPosition(msg, at)
    requires forall i :: 0 <= i < |d| ==> d[i] <= ConsecutiveCount(|msg|)
    decreases |d|
  {
    d != [] ==>
      && (d[0] > 0 && at.Some? ==> -16 < d[0] - 1 - at.value < 16)
      && InWindow(msg, Move(msg, at, d[0]), d[1..])
  }

  lemma MoveStep(ropt: Options, sopt: Options, msg: seq<byte>, at: Position, j: nat)
    requires Sendable(msg) && ValidPosition(msg, at) && j <= ConsecutiveCount(|msg|)
    requires j > 0 && at.Some? ==> -16 < j - 1 - at.value < 16
    ensures
      var (s, out) := FeedStep(ropt, StateAt(ropt, msg, at), Padded(sopt, Segment(msg, j)));
      && s == StateAt(ropt, msg, Move(msg, at, j))
      && (out.msg.Some? ==> out.msg.value == msg)
      && (out.msg.Some? <==> j == ConsecutiveCount(|msg|) && (j == 0 || at == Some(j - 1)))
  {
    if j == 0 {
      FeedHead(ropt, sopt, StateAt(ropt, msg, at), msg);
    } else if at == Some(j - 1) {
      FeedTail(ropt, sopt, msg, j - 1);
    } else {
      OutOfTurn(ropt, sopt, msg, at, j);
    }
  }

  /** Inside the window, a consecutive frame out of turn is never taken. */
  lemma OutOfTurn(ropt: Options, sopt: Options, msg: seq<byte>, at: Position, j: nat)
    requires Sendable(msg) && ValidPosition(msg, at) && 0 < j <= ConsecutiveCount(|msg|)
    requires at.Some? ==> -16 < j - 1 - at.value < 16 && j - 1 != at.value
    ensures
      var (s, out) := FeedStep(ropt, StateAt(ropt, msg, at), Padded(sopt, Segment(msg, j)));
      s == IDLE && out.msg.None?
  {
    var p := Padded(sopt, Segment(msg, j));
    SequenceNumber(sopt, msg, j - 1);
    if at.Some? {
      assert j % 16 != (at.value + 1) % 16;
    }
    assert FeedStep(ropt, StateAt(ropt, msg, at), p) == FeedConsecutive(ropt, StateAt(ropt, msg, at), p);
  }

  /**
   * Window safety: with any losses, repetitions and reorderings that stay inside the
   * window of the 4-bit sequence number, every message Feed returns is the original.
   */
  lemma {:induction false} WindowSafe(ropt: Options, sopt: Options, msg: seq<byte>, at: Position, d: seq<nat>)
    requires Sendable(msg) && ValidPosition(msg, at)
    requires forall i :: 0 <= i < |d| ==> d[i] <= ConsecutiveCount(|msg|)
    requires InWindow(msg, at, d)
    ensures forall m :: m in Messages(Feeds(ropt, StateAt(ropt, msg, at), Arrivals(sopt, msg, d)).1) ==> m == msg
    decreases |d|
  {
    if d != [] {
      var next := Move(msg, at, d[0]);
      var s, p := StateAt(ropt, msg, at), Padded(sopt, Segment(msg, d[0]));
      MoveStep(ropt, sopt, msg, at, d[0]);
      WindowSafe(ropt, sopt, msg, next, d[1..]);
      FeedsCons(ropt, s, p, Arrivals(sopt, msg, d[1..]), FeedStep(ropt, s, p).0, FeedStep(ropt, s, p).1);
    }
  }

  /** The message whose consecutive frame 0 carries what consecutive frame 16 of msg carries. */
  function Aliased(msg: seq<byte>): (m: seq<byte>)
    requires Sendable(msg) && |msg| >= Offset(17)
    ensures |m| == |msg|
  {
    msg[..6] + msg[Offset(16)..Offset(17)] + msg[Offset(1)..]
  }

  /** Consecutive frame 16 in place of frame 0, then all the others at their turn. */
  function Overtaken(msg: seq<byte>, from: nat): (d: seq<nat>)
    requires Sendable(msg) && |msg| >= Offset(17) && from <= ConsecutiveCount(|msg|) + 1
    ensures forall i :: 0 <= i < |d| ==> d[i] <= ConsecutiveCount(|msg|)
    decreases ConsecutiveCount(|msg|) + 1 - from
  {
    if from > ConsecutiveCount(|msg|) then []
    else [if from == 1 then 17 else from] + Overtaken(msg, from + 1)
  }

  lemma {:induction false} OvertakenArrivals(sopt: Options, msg: seq<byte>, from: nat)
    requires Sendable(msg) && |msg| >= Offset(17) && from <= ConsecutiveCount(|msg|) + 1
    ensures Arrivals(sopt, msg, Overtaken(msg, from))
            == WireRange(sopt, Aliased(msg), from, ConsecutiveCount(|msg|) + 1)
    decreases ConsecutiveCount(|msg|) + 1 - from
  {
    if from <= ConsecutiveCount(|msg|) {
      OvertakenArrivals(sopt, msg, from + 1);
      AliasedSegment(msg, from);
      hide Segment, Padded, Aliased;
      assert Overtaken(msg, from)[1..] == Overtaken(msg, from + 1);
    }
  }

  lemma AliasedSegment(msg: seq<byte>, j: nat)
    requires Sendable(msg) && |msg| >= Offset(17) && j <= ConsecutiveCount(|msg|)
    ensures Segment(Aliased(msg), j) == Segment(msg, if j == 1 then 17 else j)
  {
    var m := Aliased(msg);
    if j == 0 {
      assert m[..6] == msg[..6];
    } else if j == 1 {
      assert m[Offset(0)..Offset(1)] == msg[Offset(16)..Offset(17)];
    } else {
      var a, b := Offset(j - 1), Min(Offset(j - 1) + 7, |msg|);
      assert m[a..b] == msg[a..b];
    }
  }

  /**
   * The window cannot be widened: one consecutive frame 16 ahead of its turn passes for the
   * expected one, and the receiver then returns a message that was never sent.
   */
  lemma WindowTight(ropt: Options, sopt: Options, msg: seq<byte>)
    requires Sendable(msg) && |msg| >= Offset(17)
    requires msg[Offset(0)..Offset(1)] != msg[Offset(16)..Offset(17)]
    ensures Messages(Feeds(ropt, IDLE, Arrivals(sopt, msg, Overtaken(msg, 0))).1) == [Aliased(msg)]
    ensures Aliased(msg) != msg
  {
    hide Arrivals, Overtaken, Feeds, Messages, WireRange, Results;
    OvertakenArrivals(sopt, msg, 0);
    SegmentsReassemble(ropt, sopt, IDLE, Aliased(msg));
    assert Aliased(msg)[Offset(0)..Offset(1)] == msg[Offset(16)..Offset(17)];
  }

  predicate Increasing(d: seq<nat>) {
    forall i, j :: 0 <= i < j < |d| ==> d[i] < d[j]
  }

  /** Too few consecutive frames cannot reach the announced length. */
  lemma {:induction false} TooFew(opt: Options, s: RxState, ps: seq<seq<byte>>)
    requires RxValid(s)
    requires forall i :: 0 <= i < |ps| ==> IsKind(ps[i], PCI_CONSECUTIVE) && |ps[i]| <= MAX_DATA_LEN
    requires s.active ==> |s.buf| + 7 * |ps| < s.want
    ensures Messages(Feeds(opt, s, ps).1) == []
    decreases |ps|
  {
    if ps != [] {
      var (s1, out) := FeedStep(opt, s, ps[0]);
      assert (s1, out) == FeedConsecutive(opt, s, ps[0]);
      TooFew(opt, s1, ps[1..]);
    }
  }

  lemma {:induction false} ArrivalsConsecutive(sopt: Options, msg: seq<byte>, d: seq<nat>)
    requires Sendable(msg) && forall i :: 0 <= i < |d| ==> 0 < d[i] <= ConsecutiveCount(|msg|)
    ensures forall i :: 0 <= i < |d| ==>
              var p := Arrivals(sopt, msg, d)[i];
              IsKind(p, PCI_CONSECUTIVE) && |p| <= MAX_DATA_LEN
  {
    if d != [] {
      SequenceNumber(sopt, msg, d[0] - 1);
      ArrivalsConsecutive(sopt, msg, d[1..]);
    }
  }

  /** An increasing list of at most top+1-low numbers from low..top that is full is low, low+1, .. top. */
  lemma {:induction false} FullDelivery(sopt: Options, msg: seq<byte>, d: seq<nat>, low: nat)
    requires Sendable(msg) && Increasing(d) && low <= ConsecutiveCount(|msg|) + 1
    requires forall i :: 0 <= i < |d| ==> low <= d[i] <= ConsecutiveCount(|msg|)
    ensures |d| <= ConsecutiveCount(|msg|) + 1 - low
    ensures |d| == ConsecutiveCount(|msg|) + 1 - low ==>
              Arrivals(sopt, msg, d) == WireRange(sopt, msg, low, ConsecutiveCount(|msg|) + 1)
    decreases |d|
  {
    if d != [] {
      assert forall i :: 0 <= i < |d[1..]| ==> d[1..][i] == d[i + 1] && d[0] < d[i + 1];
      FullDelivery(sopt, msg, d[1..], d[0] + 1);
      if |d| == ConsecutiveCount(|msg|) + 1 - low {
        assert d[0] == low;
      }
    }
  }

  /**
   * Loss only: when frames of a message are lost but the rest keeps its order, with gaps of
   * any length, the receiver returns the original exactly when nothing was lost, and
   * nothing otherwise.
   */
  lemma LossOnly(ropt: Options, sopt: Options, msg: seq<byte>, d: seq<nat>)
    requires Sendable(msg) && Increasing(d)
    requires forall i :: 0 <= i < |d| ==> d[i] <= ConsecutiveCount(|msg|)
    ensures Messages(Feeds(ropt, IDLE, Arrivals(sopt, msg, d)).1)
            == if |d| == ConsecutiveCount(|msg|) + 1 then [msg] else []
  {
    FullDelivery(sopt, msg, d, 0);
    if |d| == ConsecutiveCount(|msg|) + 1 {
      SegmentsReassemble(ropt, sopt, IDLE, msg);
    } else if d != [] {
      var rest := d[1..];
      assert forall i :: 0 <= i < |rest| ==> rest[i] == d[i + 1] && d[0] < d[i + 1];
      ArrivalsConsecutive(sopt, msg, rest);
      if d[0] == 0 {
        FeedHead(ropt, sopt, IDLE, msg);
        TooFew(ropt, Partial(ropt, msg, 0), Arrivals(sopt, msg, rest));
        FeedsCons(ropt, IDLE, Padded(sopt, Segment(msg, 0)), Arrivals(sopt, msg, rest),
                  Partial(ropt, msg, 0), Fed(Some(FlowControl(ropt)), None, None));
      } else {
        ArrivalsConsecutive(sopt, msg, d);
        TooFew(ropt, IDLE, Arrivals(sopt, msg, d));
      }
    }
  }
}
