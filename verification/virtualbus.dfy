/**
 * The virtual bus as a concurrent object (can/virtual.go). Every action is one critical
 * section or one channel operation of one goroutine; any number of Sends, Receives and
 * Closes may be under way at once, and a run is any sequence of enabled actions.
 */
module VirtualBus {
  import opened Can

  /**
   * One endpoint: its queue, the closed flag, and whether its notify channel holds a token.
   * The rest is history: the sender of each frame, the frames received, the length of the
   * log when it connected, and the length of the log when it was detached.
   */
  datatype Port = Port(queue: seq<Entry>, closed: bool, token: bool,
                       received: seq<Entry>, since: nat, until: Option<nat>)
  {
    /** All that has come to the port, in order. */
    function Stream(): seq<Entry> {
      received + queue
    }

    /** A frame is appended unless the port is closed. */
    function Appended(e: Entry): Port {
      if closed then this else this.(queue := queue + [e])
    }

    /** The notify channel holds one token at most. */
    function Notified(): Port {
      this.(token := true)
    }

    function Woken(): Port {
      this.(token := false)
    }

    function Taken(): Port
      requires queue != []
    {
      this.(queue := queue[1..], received := received + [queue[0]])
    }

    function Shut(): Port {
      this.(closed := true, queue := [])
    }
  }

  /** Where an operation is; `next` indexes the attached ports. */
  datatype Op =
    | SendCheck(port: nat, frame: Frame)
    | SendLock(port: nat, frame: Frame)
    | Delivering(port: nat, frame: Frame, next: nat)
    | Posting(port: nat, frame: Frame, next: nat)
    | ReceiveLook(port: nat)
    | ReceiveWait(port: nat)
    | CloseLock(port: nat)
    | CloseMark(port: nat)
    | ClosePost(port: nat)
    | Done(result: Ending)

  datatype Ending = Success | Delivered(frame: Frame) | ErrClosed | ErrLength | ErrContext

  /** A frame with the port that sent it. The log lists Sends in the order in which they took the bus lock. */
  datatype Entry = Entry(sender: nat, frame: Frame)

  /** The bus, all ports ever connected and all operations ever started; `holder` has the bus lock. */
  datatype Bus = Bus(attached: seq<nat>, ports: seq<Port>, ops: seq<Op>, holder: Option<nat>, log: seq<Entry>)

  const EMPTY := Bus([], [], [], None, [])

  datatype Action =
    | Connect
    | StartSend(port: nat, frame: Frame)
    | StartReceive(port: nat)
    | StartClose(port: nat)
    | Cancel(op: nat)
    | Check(op: nat)
    | Acquire(op: nat)
    | Deliver(op: nat)
    | Post(op: nat)
    | Release(op: nat)
    | Look(op: nat)
    | Wake(op: nat)
    | Detach(op: nat)
    | Mark(op: nat)
    | Announce(op: nat)

  // ------------------------------------------------ actions

  function At(s: Bus, o: nat): Op {
    if o < |s.ops| then s.ops[o] else Done(Success)
  }

  /** The guard of each action. The bus lock must be free for whoever takes it. */
  predicate Enabled(s: Bus, a: Action) {
    match a
    case Connect => s.holder == None
    case StartSend(p, _) => p < |s.ports|
    case StartReceive(p) => p < |s.ports|
    case StartClose(p) => p < |s.ports|
    case Cancel(o) => At(s, o).SendCheck? || At(s, o).ReceiveWait?
    case Check(o) => At(s, o).SendCheck? && At(s, o).port < |s.ports|
    case Acquire(o) => At(s, o).SendLock? && s.holder == None
    case Deliver(o) =>
      && At(s, o).Delivering? && At(s, o).next < |s.attached|
      && s.attached[At(s, o).next] < |s.ports|
    case Post(o) =>
      && At(s, o).Posting? && At(s, o).next < |s.attached|
      && s.attached[At(s, o).next] < |s.ports|
    case Release(o) => At(s, o).Delivering? && At(s, o).next == |s.attached|
    case Look(o) => At(s, o).ReceiveLook? && At(s, o).port < |s.ports|
    case Wake(o) => At(s, o).ReceiveWait? && At(s, o).port < |s.ports| && s.ports[At(s, o).port].token
    case Detach(o) => At(s, o).CloseLock? && At(s, o).port < |s.ports| && s.holder == None
    case Mark(o) => At(s, o).CloseMark? && At(s, o).port < |s.ports|
    case Announce(o) => At(s, o).ClosePost? && At(s, o).port < |s.ports|
  }

  function SetOp(s: Bus, o: nat, op: Op): Bus
    requires o < |s.ops|
  {
    s.(ops := s.ops[o := op])
  }

  function SetPort(s: Bus, p: nat, port: Port): Bus
    requires p < |s.ports|
  {
    s.(ports := s.ports[p := port])
  }

  function DoConnect(s: Bus): Bus {
    s.(attached := s.attached + [|s.ports|], ports := s.ports + [Port([], false, false, [], |s.log|, None)])
  }

  /** Send looks at the frame and at the closed flag before it takes the bus lock. */
  function DoCheck(s: Bus, o: nat): Bus
    requires Enabled(s, Check(o))
  {
    var op := s.ops[o];
    SetOp(s, o, if op.frame.len > MAX_DATA_LEN then Done(ErrLength)
                else if s.ports[op.port].closed then Done(ErrClosed)
                else SendLock(op.port, op.frame))
  }

  function DoAcquire(s: Bus, o: nat): Bus
    requires Enabled(s, Acquire(o))
  {
    var op := s.ops[o];
    SetOp(s, o, Delivering(op.port, op.frame, 0)).(holder := Some(o), log := s.log + [Entry(op.port, op.frame)])
  }

  /** The sender's own port is skipped; any other gets the frame unless it is closed. */
  function DoDeliver(s: Bus, o: nat): Bus
    requires Enabled(s, Deliver(o))
  {
    var op := s.ops[o];
    var q := s.attached[op.next];
    if q == op.port then SetOp(s, o, Delivering(op.port, op.frame, op.next + 1))
    else
      SetPort(SetOp(s, o, Posting(op.port, op.frame, op.next)), q,
              s.ports[q].Appended(Entry(op.port, op.frame)))
  }

  function DoPost(s: Bus, o: nat): Bus
    requires Enabled(s, Post(o))
  {
    var op := s.ops[o];
    var q := s.attached[op.next];
    SetPort(SetOp(s, o, Delivering(op.port, op.frame, op.next + 1)), q, s.ports[q].Notified())
  }

  function DoLook(s: Bus, o: nat): Bus
    requires Enabled(s, Look(o))
  {
    var p := s.ops[o].port;
    var port := s.ports[p];
    if port.queue != [] then
      SetPort(SetOp(s, o, Done(Delivered(port.queue[0].frame))), p, port.Taken())
    else if port.closed then SetOp(s, o, Done(ErrClosed))
    else SetOp(s, o, ReceiveWait(p))
  }

  function DoWake(s: Bus, o: nat): Bus
    requires Enabled(s, Wake(o))
  {
    var p := s.ops[o].port;
    SetPort(SetOp(s, o, ReceiveLook(p)), p, s.ports[p].Woken())
  }

  /** The list without p. */
  function Without(attached: seq<nat>, p: nat): seq<nat> {
    if attached == [] then []
    else if attached[0] == p then attached[1..]
    else [attached[0]] + Without(attached[1..], p)
  }

  function DoDetach(s: Bus, o: nat): Bus
    requires Enabled(s, Detach(o))
  {
    var p := s.ops[o].port;
    SetPort(SetOp(s, o, CloseMark(p)).(attached := Without(s.attached, p)), p,
            if p in s.attached then s.ports[p].(until := Some(|s.log|)) else s.ports[p])
  }

  function DoMark(s: Bus, o: nat): Bus
    requires Enabled(s, Mark(o))
  {
    var p := s.ops[o].port;
    SetPort(SetOp(s, o, ClosePost(p)), p, s.ports[p].Shut())
  }

  function DoAnnounce(s: Bus, o: nat): Bus
    requires Enabled(s, Announce(o))
  {
    var p := s.ops[o].port;
    SetPort(SetOp(s, o, Done(Success)), p, s.ports[p].Notified())
  }

  function Do(s: Bus, a: Action): Bus
    requires Enabled(s, a)
  {
    match a
    case Connect => DoConnect(s)
    case StartSend(p, f) => s.(ops := s.ops + [SendCheck(p, f)])
    case StartReceive(p) => s.(ops := s.ops + [ReceiveLook(p)])
    case StartClose(p) => s.(ops := s.ops + [CloseLock(p)])
    case Cancel(o) => SetOp(s, o, Done(ErrContext))
    case Check(o) => DoCheck(s, o)
    case Acquire(o) => DoAcquire(s, o)
    case Deliver(o) => DoDeliver(s, o)
    case Post(o) => DoPost(s, o)
    case Release(o) => SetOp(s, o, Done(Success)).(holder := None)
    case Look(o) => DoLook(s, o)
    case Wake(o) => DoWake(s, o)
    case Detach(o) => DoDetach(s, o)
    case Mark(o) => DoMark(s, o)
    case Announce(o) => DoAnnounce(s, o)
  }

  /** The state after a list of actions, when each is enabled in its turn. */
  function Run(acts: seq<Action>): Option<Bus> {
    if acts == [] then Some(EMPTY)
    else
      var s, a := Run(acts[..|acts| - 1]), acts[|acts| - 1];
      if s.Some? && Enabled(s.value, a) then Some(Do(s.value, a)) else None
  }

  // ------------------------------------------------ the objects

  /** A port as the object that the critical sections change; each method is one of them. */
  class VirtualPort {
    var queue: seq<Entry>
    var closed: bool
    var notify: bool
    ghost var received: seq<Entry>
    ghost var since: nat
    ghost var until: Option<nat>

    ghost function Now(): Port
      reads this
    {
      Port(queue, closed, notify, received, since, until)
    }

    constructor (ghost since: nat)
      ensures Now() == Port([], false, false, [], since, None)
    {
      queue, closed, notify := [], false, false;
      received, this.since, until := [], since, None;
    }

    /** The locked part of deliver. */
    method Append(e: Entry)
      modifies this
      ensures Now() == old(Now()).Appended(e)
    {
      if !closed {
        queue := queue + [e];
      }
    }

    /** A send to the notify channel that does nothing when the channel is full. */
    method Notify()
      modifies this
      ensures Now() == old(Now()).Notified()
    {
      if !notify {
        notify := true;
      }
    }

    /** The locked part of Receive's loop: a frame, or whether the port is closed. */
    method Look() returns (f: Option<Frame>, closedNow: bool)
      modifies this
      ensures old(queue) != [] ==> f == Some(old(queue)[0].frame) && Now() == old(Now()).Taken()
      ensures old(queue) == [] ==> f == None && closedNow == closed && Now() == old(Now())
    {
      if |queue| > 0 {
        f, closedNow := Some(queue[0].frame), closed;
        received := received + [queue[0]];
        queue := queue[1..];
        return;
      }
      return None, closed;
    }

    /** A receive from the notify channel that has a token. */
    method Wake()
      requires notify
      modifies this
      ensures Now() == old(Now()).Woken()
    {
      notify := false;
    }

    /** The locked part of Close. */
    method Shut()
      modifies this
      ensures Now() == old(Now()).Shut()
    {
      closed := true;
      queue := [];
    }
  }

  /** The bus object: its list of attached ports, changed under the bus lock. */
  class PortList {
    var ports: seq<nat>

    constructor ()
      ensures ports == []
    {
      ports := [];
    }

    method Connect(p: nat)
      modifies this
      ensures ports == old(ports) + [p]
    {
      ports := ports + [p];
    }

    /** Close's loop: cuts out the first entry for the port. */
    method Detach(p: nat)
      modifies this
      ensures ports == Without(old(ports), p)
    {
      WithoutFrom(ports, p, 0);
      for i := 0 to |ports|
        invariant ports == old(ports)
        invariant Without(ports, p) == ports[..i] + Without(ports[i..], p)
      {
        WithoutFrom(ports, p, i);
        if ports[i] == p {
          ports := ports[..i] + ports[i + 1..];
          return;
        }
      }
      assert ports[..|ports|] == ports && Without([], p) == [];
    }
  }

  lemma WithoutFrom(ports: seq<nat>, p: nat, i: nat)
    requires i <= |ports|
    ensures i == 0 ==> ports[..0] + Without(ports[0..], p) == Without(ports, p)
    ensures i < |ports| && ports[i] == p ==> ports[..i] + Without(ports[i..], p) == ports[..i] + ports[i + 1..]
    ensures i < |ports| && ports[i] != p ==>
              ports[..i] + Without(ports[i..], p) == ports[..i + 1] + Without(ports[i + 1..], p)
  {
    assert ports[0..] == ports;
    if i < |ports| {
      assert ports[i..][1..] == ports[i + 1..];
      assert ports[..i + 1] == ports[..i] + [ports[i]];
    }
  }

  // ------------------------------------------------ the invariant

  /** What port q must see of log entries since..upTo-1: all but its own. */
  function Heard(log: seq<Entry>, since: nat, upTo: nat, q: nat): seq<Entry>
    requires upTo <= |log|
  {
    if upTo <= since then []
    else
      var e, before := log[upTo - 1], Heard(log, since, upTo - 1, q);
      if e.sender != q then before + [e] else before
  }

  lemma {:induction false} HeardPrefix(log: seq<Entry>, e: Entry, since: nat, upTo: nat, q: nat)
    requires upTo <= |log|
    ensures Heard(log + [e], since, upTo, q) == Heard(log, since, upTo, q)
  {
    if upTo > since {
      HeardPrefix(log, e, since, upTo - 1, q);
      assert (log + [e])[upTo - 1] == log[upTo - 1];
    }
  }

  /** The delivery in progress has not reached port q. */
  predicate Missing(s: Bus, q: nat) {
    s.holder.Some? &&
    match At(s, s.holder.value)
    case Delivering(_, _, n) => n <= |s.attached| && q in s.attached[n..]
    case Posting(_, _, n) => n < |s.attached| && q in s.attached[n + 1..]
    case _ => false
  }

  /** How much of the log has been offered to port q. */
  function Offered(s: Bus, q: nat): int
    requires q < |s.ports|
  {
    if s.ports[q].until.Some? then s.ports[q].until.value else |s.log| - if Missing(s, q) then 1 else 0
  }

  /**
   * What port q has received and what it has queued are the log from its connection on,
   * without its own frames, as far as the log has been offered to it.
   */
  predicate PortInv(s: Bus, q: nat)
    requires q < |s.ports|
  {
    var p := s.ports[q];
    && p.since <= Offered(s, q) <= |s.log| && (s.holder.Some? ==> p.since < |s.log|)
    && (p.until == None <==> q in s.attached)
    && (p.closed ==> p.until.Some? && p.queue == [] && p.received <= Heard(s.log, p.since, Offered(s, q), q))
    && (!p.closed ==> p.Stream() == Heard(s.log, p.since, Offered(s, q), q))
  }

  predicate Distinct(xs: seq<nat>) {
    forall i, j :: 0 <= i < j < |xs| ==> xs[i] != xs[j]
  }

  predicate Holds(op: Op) {
    op.Delivering? || op.Posting?
  }

  /** Operation o is consistent: it works on a connected port, and only the holder of the lock delivers. */
  predicate OpInv(s: Bus, o: nat)
    requires o < |s.ops|
  {
    var op := s.ops[o];
    && (!op.Done? ==> op.port < |s.ports|)
    && (Holds(op) <==> s.holder == Some(o))
    && (op.Delivering? ==> op.next <= |s.attached|)
    && (op.Posting? ==> op.next < |s.attached|)
    && (Holds(op) ==> s.log != [] && s.log[|s.log| - 1] == Entry(op.port, op.frame))
    && (op.CloseMark? ==> op.port !in s.attached)
  }

  predicate Inv(s: Bus) {
    && Distinct(s.attached)
    && (forall i :: 0 <= i < |s.attached| ==> s.attached[i] < |s.ports|)
    && (s.holder.Some? ==> s.holder.value < |s.ops|)
    && (forall o :: 0 <= o < |s.ops| ==> OpInv(s, o))
    && (forall q :: 0 <= q < |s.ports| ==> PortInv(s, q))
  }

  // ------------------------------------------------ actions keep the invariant

  /** An operation that neither holds nor takes the lock moves on. */
  lemma OpMoves(s: Bus, o: nat, op: Op)
    requires Inv(s) && o < |s.ops| && !Holds(s.ops[o]) && !Holds(op)
    requires !op.Done? ==> op.port < |s.ports|
    requires op.CloseMark? ==> op.port !in s.attached
    ensures Inv(SetOp(s, o, op))
  {
    hide Heard, Distinct;
    var s' := SetOp(s, o, op);
    forall q | 0 <= q < |s.ports| ensures PortInv(s', q) {
      assert PortInv(s, q);
      assert Missing(s', q) == Missing(s, q);
    }
    forall o' | 0 <= o' < |s.ops| ensures OpInv(s', o') {
      assert OpInv(s, o');
    }
  }

  lemma OpStarts(s: Bus, op: Op)
    requires Inv(s) && !Holds(op) && !op.Done? && op.port < |s.ports| && !op.CloseMark?
    ensures Inv(s.(ops := s.ops + [op]))
  {
    hide Heard, Distinct;
    var s' := s.(ops := s.ops + [op]);
    forall q | 0 <= q < |s.ports| ensures PortInv(s', q) {
      assert PortInv(s, q);
      assert Missing(s', q) == Missing(s, q);
    }
    forall o | 0 <= o < |s'.ops| ensures OpInv(s', o) {
      if o < |s.ops| {
        assert OpInv(s, o);
      }
    }
  }

  /** A port changes in a way that keeps what it has seen. */
  lemma PortChanges(s: Bus, p: nat, port: Port)
    requires Inv(s) && p < |s.ports|
    requires port.since == s.ports[p].since && port.until == s.ports[p].until
    requires port.Stream() == s.ports[p].Stream()
    requires port.closed == s.ports[p].closed && (port.closed ==> port.received == s.ports[p].received)
    ensures Inv(SetPort(s, p, port))
  {
    hide Heard, Distinct;
    var s' := SetPort(s, p, port);
    assert PortInv(s, p);
    forall q | 0 <= q < |s.ports| ensures PortInv(s', q) {
      assert PortInv(s, q);
      assert Missing(s', q) == Missing(s, q);
      if q == p && port.closed {
        assert |port.received + port.queue| == |port.received|;
      }
    }
    forall o | 0 <= o < |s.ops| ensures OpInv(s', o) {
      assert OpInv(s, o);
    }
  }

  lemma ConnectKeeps(s: Bus)
    requires Inv(s) && Enabled(s, Connect)
    ensures Inv(DoConnect(s))
  {
    var s', n := DoConnect(s), |s.ports|;
    assert Heard(s'.log, |s.log|, |s.log|, n) == [];
    hide Heard;
    forall q | 0 <= q < |s'.ports| ensures PortInv(s', q) {
      if q < n {
        assert PortInv(s, q);
        assert q in s'.attached <==> q in s.attached;
      } else {
        assert s'.attached[|s.attached|] == q;
      }
    }
    forall o | 0 <= o < |s'.ops| ensures OpInv(s', o) {
      assert OpInv(s, o);
    }
  }

  lemma CheckKeeps(s: Bus, o: nat)
    requires Inv(s) && Enabled(s, Check(o))
    ensures Inv(DoCheck(s, o))
  {
    hide Inv;
    var op := s.ops[o];
    OpMoves(s, o, if op.frame.len > MAX_DATA_LEN then Done(ErrLength)
                  else if s.ports[op.port].closed then Done(ErrClosed)
                  else SendLock(op.port, op.frame));
  }

  lemma LookKeeps(s: Bus, o: nat)
    requires Inv(s) && Enabled(s, Look(o))
    ensures Inv(DoLook(s, o))
  {
    hide Inv;
    var p := s.ops[o].port;
    var port := s.ports[p];
    if port.queue != [] {
      OpMoves(s, o, Done(Delivered(port.queue[0].frame)));
      assert port.received + port.queue == port.received + [port.queue[0]] + port.queue[1..];
      QueueMeansOpen(s, p);
      PortChanges(SetOp(s, o, Done(Delivered(port.queue[0].frame))), p,
                  port.(queue := port.queue[1..], received := port.received + [port.queue[0]]));
    } else if port.closed {
      OpMoves(s, o, Done(ErrClosed));
    } else {
      OpMoves(s, o, ReceiveWait(p));
    }
  }

  lemma QueueMeansOpen(s: Bus, p: nat)
    requires Inv(s) && p < |s.ports|
    ensures s.ports[p].queue != [] ==> !s.ports[p].closed
  {
    assert PortInv(s, p);
  }

  lemma WakeKeeps(s: Bus, o: nat)
    requires Inv(s) && Enabled(s, Wake(o))
    ensures Inv(DoWake(s, o))
  {
    hide Inv;
    var p := s.ops[o].port;
    OpMoves(s, o, ReceiveLook(p));
    PortChanges(SetOp(s, o, ReceiveLook(p)), p, s.ports[p].(token := false));
  }

  lemma AnnounceKeeps(s: Bus, o: nat)
    requires Inv(s) && Enabled(s, Announce(o))
    ensures Inv(DoAnnounce(s, o))
  {
    hide Inv;
    var p := s.ops[o].port;
    OpMoves(s, o, Done(Success));
    PortChanges(SetOp(s, o, Done(Success)), p, s.ports[p].(token := true));
  }

  lemma AcquireKeeps(s: Bus, o: nat)
    requires Inv(s) && Enabled(s, Acquire(o))
    ensures Inv(DoAcquire(s, o))
  {
    hide Heard, Distinct;
    var s', op := DoAcquire(s, o), s.ops[o];
    assert OpInv(s, o);
    var e := Entry(op.port, op.frame);
    assert s'.attached[0..] == s'.attached;
    forall q | 0 <= q < |s.ports| ensures PortInv(s', q) {
      assert PortInv(s, q);
      HeardPrefix(s.log, e, s.ports[q].since, Offered(s, q), q);
      assert Missing(s', q) <==> q in s.attached;
    }
    forall o' | 0 <= o' < |s.ops| ensures OpInv(s', o') {
      assert OpInv(s, o');
    }
  }

  lemma ReleaseKeeps(s: Bus, o: nat)
    requires Inv(s) && Enabled(s, Release(o))
    ensures Inv(Do(s, Release(o)))
  {
    hide Heard, Distinct;
    var s' := SetOp(s, o, Done(Success)).(holder := None);
    assert OpInv(s, o);
    forall q | 0 <= q < |s.ports| ensures PortInv(s', q) {
      assert PortInv(s, q);
      assert !Missing(s, q);
    }
    forall o' | 0 <= o' < |s.ops| ensures OpInv(s', o') {
      assert OpInv(s, o');
    }
  }

  /** The holder of the lock advances from one port to the next. */
  lemma MissingShrinks(s: Bus, s': Bus, o: nat, n: nat, q: nat)
    requires s.holder == s'.holder == Some(o) && s.attached == s'.attached && n < |s.attached|
    requires At(s, o).Delivering? && At(s, o).next == n
    requires (At(s', o).Delivering? && At(s', o).next == n + 1) || (At(s', o).Posting? && At(s', o).next == n)
    requires Distinct(s.attached)
    ensures Missing(s, q) <==> q == s.attached[n] || Missing(s', q)
    ensures !Missing(s', s.attached[n])
  {
    assert s.attached[n..] == [s.attached[n]] + s.attached[n + 1..];
  }

  lemma DeliverKeeps(s: Bus, o: nat)
    requires Inv(s) && Enabled(s, Deliver(o))
    ensures Inv(DoDeliver(s, o))
  {
    var s' := DoDeliver(s, o);
    hide Heard, Missing, Distinct;
    assert OpInv(s, o);
    forall q | 0 <= q < |s.ports| ensures PortInv(s', q) {
      DeliverKeepsPort(s, o, q);
    }
    forall o' | 0 <= o' < |s.ops| ensures OpInv(s', o') {
      assert OpInv(s, o');
    }
  }

  lemma DeliverKeepsPort(s: Bus, o: nat, q: nat)
    requires Inv(s) && Enabled(s, Deliver(o)) && q < |s.ports|
    ensures PortInv(DoDeliver(s, o), q)
  {
    hide Heard, Missing;
    var s', n := DoDeliver(s, o), s.ops[o].next;
    assert OpInv(s, o) && PortInv(s, q);
    MissingShrinks(s, s', o, n, q);
    if q == s.attached[n] {
      DeliveredOne(s, o);
    } else {
      assert s'.ports[q] == s.ports[q];
    }
  }

  /** The port that is served next has now been offered the whole log. */
  lemma DeliveredOne(s: Bus, o: nat)
    requires Inv(s) && Enabled(s, Deliver(o))
    ensures
      var p := s.attached[s.ops[o].next];
      var before, after := s.ports[p], DoDeliver(s, o).ports[p];
      && after == before.(queue := after.queue) && !before.closed
      && after.Stream() == Heard(s.log, before.since, |s.log|, p)
      && before.since <= |s.log|
  {
    var op := s.ops[o];
    var p := s.attached[op.next];
    assert OpInv(s, o) && PortInv(s, p);
    assert s.attached[op.next..][0] == p;
    var port := s.ports[p];
    assert Offered(s, p) == |s.log| - 1;
    assert Heard(s.log, port.since, |s.log|, p)
           == Heard(s.log, port.since, |s.log| - 1, p) + if op.port != p then [Entry(op.port, op.frame)] else [];
    if op.port != p {
      assert port.received + (port.queue + [Entry(op.port, op.frame)]) == port.Stream() + [Entry(op.port, op.frame)];
    }
  }

  /** The holder of the lock goes from Posting to the next port. */
  lemma PostAdvances(s: Bus, o: nat)
    requires Inv(s) && Enabled(s, Post(o))
    ensures Inv(SetOp(s, o, Delivering(s.ops[o].port, s.ops[o].frame, s.ops[o].next + 1)))
  {
    hide Heard, Distinct;
    var op := s.ops[o];
    var s1 := SetOp(s, o, Delivering(op.port, op.frame, op.next + 1));
    assert OpInv(s, o);
    forall q | 0 <= q < |s.ports| ensures PortInv(s1, q) {
      assert PortInv(s, q);
      assert Missing(s1, q) == Missing(s, q);
    }
    hide PortInv, Missing;
    forall o' | 0 <= o' < |s.ops| ensures OpInv(s1, o') {
      assert OpInv(s, o');
    }
  }

  lemma PostKeeps(s: Bus, o: nat)
    requires Inv(s) && Enabled(s, Post(o))
    ensures Inv(DoPost(s, o))
  {
    PostAdvances(s, o);
    hide Inv;
    var op := s.ops[o];
    var s1 := SetOp(s, o, Delivering(op.port, op.frame, op.next + 1));
    var p := s.attached[op.next];
    PortChanges(s1, p, s.ports[p].Notified());
  }

  lemma {:induction false} WithoutMembers(xs: seq<nat>, p: nat)
    requires Distinct(xs)
    ensures Distinct(Without(xs, p))
    ensures forall q :: q in Without(xs, p) <==> q in xs && q != p
  {
    if xs != [] {
      assert forall i :: 0 <= i < |xs[1..]| ==> xs[1..][i] == xs[i + 1];
      assert xs[0] !in xs[1..];
      assert xs == [xs[0]] + xs[1..];
      if xs[0] != p {
        WithoutMembers(xs[1..], p);
        var rest := Without(xs[1..], p);
        assert xs[0] !in rest;
        var ys := [xs[0]] + rest;
        forall i, j | 0 <= i < j < |ys| ensures ys[i] != ys[j] {
          assert ys[j] == rest[j - 1] && rest[j - 1] in rest;
        }
      }
    }
  }

  lemma DetachKeeps(s: Bus, o: nat)
    requires Inv(s) && Enabled(s, Detach(o))
    ensures Inv(DoDetach(s, o))
  {
    hide Heard, Without;
    var s', p := DoDetach(s, o), s.ops[o].port;
    assert OpInv(s, o) && PortInv(s, p);
    WithoutMembers(s.attached, p);
    forall i | 0 <= i < |s'.attached| ensures s'.attached[i] < |s'.ports| {
      assert s'.attached[i] in s.attached;
    }
    hide Distinct;
    forall q | 0 <= q < |s.ports| ensures PortInv(s', q) {
      assert PortInv(s, q);
    }
    forall o' | 0 <= o' < |s.ops| ensures OpInv(s', o') {
      assert OpInv(s, o');
    }
  }

  lemma MarkKeeps(s: Bus, o: nat)
    requires Inv(s) && Enabled(s, Mark(o))
    ensures Inv(DoMark(s, o))
  {
    hide Heard, Distinct;
    var s', p := DoMark(s, o), s.ops[o].port;
    assert OpInv(s, o) && PortInv(s, p);
    forall q | 0 <= q < |s.ports| ensures PortInv(s', q) {
      assert PortInv(s, q);
      assert Missing(s', q) == Missing(s, q);
    }
    forall o' | 0 <= o' < |s.ops| ensures OpInv(s', o') {
      assert OpInv(s, o');
    }
  }

  lemma ActionKeeps(s: Bus, a: Action)
    requires Inv(s) && Enabled(s, a)
    ensures Inv(Do(s, a))
  {
    hide Inv;
    match a
    case Connect => ConnectKeeps(s);
    case StartSend(p, f) => OpStarts(s, SendCheck(p, f));
    case StartReceive(p) => OpStarts(s, ReceiveLook(p));
    case StartClose(p) => OpStarts(s, CloseLock(p));
    case Cancel(o) => OpMoves(s, o, Done(ErrContext));
    case Check(o) => CheckKeeps(s, o);
    case Acquire(o) => AcquireKeeps(s, o);
    case Deliver(o) => DeliverKeeps(s, o);
    case Post(o) => PostKeeps(s, o);
    case Release(o) => ReleaseKeeps(s, o);
    case Look(o) => LookKeeps(s, o);
    case Wake(o) => WakeKeeps(s, o);
    case Detach(o) => DetachKeeps(s, o);
    case Mark(o) => MarkKeeps(s, o);
    case Announce(o) => AnnounceKeeps(s, o);
  }

  lemma {:induction false} RunKeeps(acts: seq<Action>)
    requires Run(acts).Some?
    ensures Inv(Run(acts).value)
  {
    if acts != [] {
      hide Inv, Do, Enabled;
      RunKeeps(acts[..|acts| - 1]);
      ActionKeeps(Run(acts[..|acts| - 1]).value, acts[|acts| - 1]);
    }
  }

  // ------------------------------------------------ conservation and total order

  /**
   * No loss and no duplication, in every reachable state: an open port has received or has
   * queued exactly the log from its connection on, in log order, without its own frames;
   * only the delivery in progress may still be missing. A closed port has received a prefix.
   */
  lemma Conservation(acts: seq<Action>, q: nat)
    requires Run(acts).Some? && q < |Run(acts).value.ports|
    ensures
      var s := Run(acts).value;
      var p, n := s.ports[q], |s.log|;
      && p.since <= n
      && (q in s.attached && s.holder == None ==> p.Stream() == Heard(s.log, p.since, n, q))
      && (q in s.attached && s.holder.Some? ==>
            n > 0 && (p.Stream() == Heard(s.log, p.since, n, q) || p.Stream() == Heard(s.log, p.since, n - 1, q)))
      && (q !in s.attached ==> p.until.Some? && p.since <= p.until.value <= n)
      && (q !in s.attached && !p.closed ==> p.Stream() == Heard(s.log, p.since, p.until.value, q))
      && (p.closed ==> q !in s.attached && p.queue == [] && p.received <= Heard(s.log, p.since, p.until.value, q))
  {
    RunKeeps(acts);
    hide Heard, Run;
    var s := Run(acts).value;
    assert PortInv(s, q);
    if s.holder.Some? {
      assert OpInv(s, s.holder.value);
    }
  }

  /** The entries that `q` did not send. */
  function NotFrom(es: seq<Entry>, q: nat): seq<Entry> {
    if es == [] then []
    else
      var e, before := es[|es| - 1], NotFrom(es[..|es| - 1], q);
      if e.sender != q then before + [e] else before
  }

  lemma NotFromSnoc(es: seq<Entry>, e: Entry, q: nat)
    ensures NotFrom(es + [e], q) == if e.sender != q then NotFrom(es, q) + [e] else NotFrom(es, q)
  {
    assert (es + [e])[..|es|] == es;
  }

  lemma HeardSnoc(log: seq<Entry>, since: nat, upTo: nat, q: nat)
    requires since < upTo <= |log|
    ensures Heard(log, since, upTo, q)
            == if log[upTo - 1].sender != q then Heard(log, since, upTo - 1, q) + [log[upTo - 1]]
               else Heard(log, since, upTo - 1, q)
  {
  }

  lemma HeardNothing(log: seq<Entry>, since: nat, upTo: nat, p: nat, q: nat)
    requires upTo <= |log| && upTo <= since
    ensures NotFrom(Heard(log, since, upTo, p), q) == []
  {
  }

  lemma {:induction false} HeardByBoth(log: seq<Entry>, since: nat, upTo: nat, p: nat, q: nat)
    requires upTo <= |log|
    ensures NotFrom(Heard(log, since, upTo, p), q) == NotFrom(Heard(log, since, upTo, q), p)
  {
    hide NotFrom, Heard;
    if upTo <= since {
      HeardNothing(log, since, upTo, p, q);
      HeardNothing(log, since, upTo, q, p);
    } else {
      HeardByBoth(log, since, upTo - 1, p, q);
      HeardSnoc(log, since, upTo, p);
      HeardSnoc(log, since, upTo, q);
      var e := log[upTo - 1];
      NotFromSnoc(Heard(log, since, upTo - 1, p), e, q);
      NotFromSnoc(Heard(log, since, upTo - 1, q), e, p);
    }
  }

  lemma {:induction false} HeardSplit(log: seq<Entry>, since: nat, mid: nat, upTo: nat, q: nat)
    requires since <= mid <= upTo <= |log|
    ensures Heard(log, since, upTo, q) == Heard(log, since, mid, q) + Heard(log, mid, upTo, q)
  {
    if upTo > mid {
      HeardSplit(log, since, mid, upTo - 1, q);
    }
  }

  /** Two lists are equal, or one has one entry more at its end. */
  predicate UpToLast(a: seq<Entry>, b: seq<Entry>, e: Entry) {
    a == b || a == b + [e] || b == a + [e]
  }

  /** What two ports have been offered from some point on, without each other's frames, up to the last entry. */
  lemma OfferedAlike(log: seq<Entry>, mid: nat, p: nat, q: nat, a: nat, b: nat)
    requires log != [] && mid < |log| && |log| - 1 <= a <= |log| && |log| - 1 <= b <= |log|
    ensures UpToLast(NotFrom(Heard(log, mid, a, p), q), NotFrom(Heard(log, mid, b, q), p), log[|log| - 1])
  {
    var n := |log|;
    HeardByBoth(log, mid, n - 1, p, q);
    HeardByBoth(log, mid, n, p, q);
    LastHeard(log, mid, p, q);
    hide Heard, NotFrom;
    assert a == n || a == n - 1;
    assert b == n || b == n - 1;
  }

  lemma LastHeard(log: seq<Entry>, mid: nat, p: nat, q: nat)
    requires log != [] && mid < |log|
    ensures
      var before, all := NotFrom(Heard(log, mid, |log| - 1, p), q), NotFrom(Heard(log, mid, |log|, p), q);
      all == before || all == before + [log[|log| - 1]]
  {
    NotFromSnoc(Heard(log, mid, |log| - 1, p), log[|log| - 1], q);
    hide NotFrom;
  }

  lemma StreamsAlike(log: seq<Entry>, since: nat, mid: nat, p: nat, q: nat, a: nat, b: nat, x: seq<Entry>,
                     y: seq<Entry>)
    requires since <= mid <= a <= |log| && mid <= b <= |log|
    requires x == Heard(log, since, a, p) && y == Heard(log, mid, b, q)
    requires a == b || (mid < |log| && |log| - 1 <= a && |log| - 1 <= b)
    ensures
      var early := Heard(log, since, mid, p);
      && early <= x
      && (a == b ==> NotFrom(x[|early|..], q) == NotFrom(y, p))
      && (a != b ==> UpToLast(NotFrom(x[|early|..], q), NotFrom(y, p), log[|log| - 1]))
  {
    hide Heard, NotFrom, UpToLast;
    HeardSplit(log, since, mid, a, p);
    var early, late := Heard(log, since, mid, p), Heard(log, mid, a, p);
    assert x == early + late && x[|early|..] == late;
    if a == b {
      HeardByBoth(log, mid, a, p, q);
    } else {
      OfferedAlike(log, mid, p, q, a, b);
    }
  }

  /**
   * Ports p and q, the later of which is q, have seen the frames of all other senders in the
   * same order since q connected. What they have seen is equal, or while a delivery is in
   * progress differs by the last entry of the log, which one of them is still to get.
   */
  predicate Alike(s: Bus, p: nat, q: nat)
    requires p < |s.ports| && q < |s.ports|
  {
    s.ports[q].since <= |s.log| &&
    var early := Heard(s.log, s.ports[p].since, s.ports[q].since, p);
    early <= s.ports[p].Stream() &&
    var a, b := NotFrom(s.ports[p].Stream()[|early|..], q), NotFrom(s.ports[q].Stream(), p);
    a == b || (s.holder.Some? && s.log != [] && UpToLast(a, b, s.log[|s.log| - 1]))
  }

  lemma AlikeInState(s: Bus, p: nat, q: nat)
    requires Inv(s) && p in s.attached && q in s.attached && p < |s.ports| && q < |s.ports|
    requires s.ports[p].since <= s.ports[q].since
    ensures Alike(s, p, q)
  {
    assert PortInv(s, p) && PortInv(s, q);
    hide Heard, NotFrom, Missing, UpToLast, Inv, OpInv;
    StreamsAlike(s.log, s.ports[p].since, s.ports[q].since, p, q, Offered(s, p), Offered(s, q),
                 s.ports[p].Stream(), s.ports[q].Stream());
  }

  /** One total order: any two attached ports, in every reachable state. */
  lemma SameOrder(acts: seq<Action>, p: nat, q: nat)
    requires Run(acts).Some? && p in Run(acts).value.attached && q in Run(acts).value.attached
    requires p < |Run(acts).value.ports| && q < |Run(acts).value.ports|
    requires Run(acts).value.ports[p].since <= Run(acts).value.ports[q].since
    ensures Alike(Run(acts).value, p, q)
  {
    RunKeeps(acts);
    hide Run, Inv, Alike;
    AlikeInState(Run(acts).value, p, q);
  }

  /** Whoever holds the bus lock can always go on, so the bus never blocks. */
  lemma HolderSteps(acts: seq<Action>)
    requires Run(acts).Some? && Run(acts).value.holder.Some?
    ensures
      var s := Run(acts).value;
      var o := s.holder.value;
      Enabled(s, Deliver(o)) || Enabled(s, Post(o)) || Enabled(s, Release(o))
  {
    RunKeeps(acts);
    var s := Run(acts).value;
    hide Run;
    assert OpInv(s, s.holder.value);
  }

  // ------------------------------------------------ wakeups

  predicate Receiving(op: Op) {
    op.ReceiveLook? || op.ReceiveWait?
  }

  /** At most one Receive is under way on each port. */
  predicate Single(s: Bus) {
    forall o, o' :: 0 <= o < o' < |s.ops| && Receiving(s.ops[o]) && Receiving(s.ops[o']) ==>
      s.ops[o].port != s.ops[o'].port
  }

  /** Every state of the run has at most one Receive on each port. */
  predicate SingleRun(acts: seq<Action>) {
    Run(acts).Some? && Single(Run(acts).value) && (acts == [] || SingleRun(acts[..|acts| - 1]))
  }

  /** Operation o is about to put a token into port p's channel. */
  predicate Posts(s: Bus, o: nat, p: nat) {
    match At(s, o)
    case Posting(_, _, n) => n < |s.attached| && s.attached[n] == p
    case ClosePost(q) => q == p
    case _ => false
  }

  predicate Ready(s: Bus, p: nat)
    requires p < |s.ports|
  {
    s.ports[p].queue != [] || s.ports[p].closed
  }

  /** A Receive that waits although there is something for it has a token, or one is on its way. */
  ghost predicate WakeInv(s: Bus, o: nat)
    requires o < |s.ops|
  {
    s.ops[o].ReceiveWait? && s.ops[o].port < |s.ports| && Ready(s, s.ops[o].port) ==>
      s.ports[s.ops[o].port].token || exists o' :: Posts(s, o', s.ops[o].port)
  }

  ghost predicate AllWake(s: Bus) {
    forall o :: 0 <= o < |s.ops| ==> WakeInv(s, o)
  }

  /** What an action must keep for a Receive that waits before and after it. */
  lemma StillWakes(s: Bus, s': Bus, o: nat)
    requires o < |s.ops| && o < |s'.ops| && WakeInv(s, o)
    requires s'.ops[o].ReceiveWait? ==>
               && s.ops[o] == s'.ops[o] && s.ops[o].port < |s.ports| <= |s'.ports|
               && var p := s.ops[o].port;
                  && (Ready(s', p) ==> Ready(s, p) || s'.ports[p].token || exists o' :: Posts(s', o', p))
                  && (s.ports[p].token ==> s'.ports[p].token)
                  && (forall o' :: Posts(s, o', p) ==> Posts(s', o', p) || s'.ports[p].token)
    ensures WakeInv(s', o)
  {
    hide Posts, Ready;
  }

  lemma DeliverWakes(s: Bus, o: nat)
    requires Inv(s) && AllWake(s) && Enabled(s, Deliver(o))
    ensures AllWake(DoDeliver(s, o))
  {
    var s', q := DoDeliver(s, o), s.attached[s.ops[o].next];
    hide PortInv;
    assert q != s.ops[o].port ==> Posts(s', o, q);
    forall w | 0 <= w < |s'.ops| ensures WakeInv(s', w) {
      assert OpInv(s, w) && WakeInv(s, w);
      StillWakes(s, s', w);
    }
  }

  lemma PostWakes(s: Bus, o: nat)
    requires Inv(s) && AllWake(s) && Enabled(s, Post(o))
    ensures AllWake(DoPost(s, o))
  {
    var s' := DoPost(s, o);
    hide PortInv;
    forall w | 0 <= w < |s'.ops| ensures WakeInv(s', w) {
      assert OpInv(s, w) && WakeInv(s, w);
      StillWakes(s, s', w);
    }
  }

  lemma LookWakes(s: Bus, o: nat)
    requires Inv(s) && AllWake(s) && Enabled(s, Look(o))
    ensures AllWake(DoLook(s, o))
  {
    var s' := DoLook(s, o);
    hide PortInv;
    forall w | 0 <= w < |s'.ops| ensures WakeInv(s', w) {
      assert OpInv(s, w) && WakeInv(s, w);
      if w != o {
        StillWakes(s, s', w);
      }
    }
  }

  /** The token is only taken by the one Receive that waits for it. */
  lemma WakeWakes(s: Bus, o: nat)
    requires Inv(s) && AllWake(s) && Single(s) && Enabled(s, Wake(o))
    ensures AllWake(DoWake(s, o))
  {
    var s' := DoWake(s, o);
    hide PortInv;
    forall w | 0 <= w < |s'.ops| ensures WakeInv(s', w) {
      assert OpInv(s, w) && WakeInv(s, w);
      if w != o {
        StillWakes(s, s', w);
      }
    }
  }

  lemma DetachWakes(s: Bus, o: nat)
    requires Inv(s) && AllWake(s) && Enabled(s, Detach(o))
    ensures AllWake(DoDetach(s, o))
  {
    var s' := DoDetach(s, o);
    hide PortInv;
    forall o': nat ensures !At(s, o').Posting? {
      if o' < |s.ops| {
        assert OpInv(s, o');
      }
    }
    forall w | 0 <= w < |s'.ops| ensures WakeInv(s', w) {
      assert OpInv(s, w) && WakeInv(s, w);
      StillWakes(s, s', w);
    }
  }

  lemma MarkWakes(s: Bus, o: nat)
    requires Inv(s) && AllWake(s) && Enabled(s, Mark(o))
    ensures AllWake(DoMark(s, o))
  {
    var s' := DoMark(s, o);
    hide PortInv;
    assert Posts(s', o, s.ops[o].port);
    forall w | 0 <= w < |s'.ops| ensures WakeInv(s', w) {
      assert OpInv(s, w) && WakeInv(s, w);
      StillWakes(s, s', w);
    }
  }

  lemma AnnounceWakes(s: Bus, o: nat)
    requires Inv(s) && AllWake(s) && Enabled(s, Announce(o))
    ensures AllWake(DoAnnounce(s, o))
  {
    var s' := DoAnnounce(s, o);
    hide PortInv;
    forall w | 0 <= w < |s'.ops| ensures WakeInv(s', w) {
      assert OpInv(s, w) && WakeInv(s, w);
      StillWakes(s, s', w);
    }
  }

  /** Operations that start, stop or take the lock do not matter to those that wait. */
  lemma OthersWake(s: Bus, a: Action)
    requires Inv(s) && AllWake(s) && Enabled(s, a)
    requires a.Connect? || a.StartSend? || a.StartReceive? || a.StartClose? || a.Cancel? || a.Check? || a.Acquire?
             || a.Release?
    ensures AllWake(Do(s, a))
  {
    var s' := Do(s, a);
    hide PortInv;
    forall w | 0 <= w < |s'.ops| ensures WakeInv(s', w) {
      if w < |s.ops| {
        assert OpInv(s, w) && WakeInv(s, w);
        StillWakes(s, s', w);
      }
    }
  }

  lemma ActionWakes(s: Bus, a: Action)
    requires Inv(s) && AllWake(s) && Single(s) && Enabled(s, a)
    ensures AllWake(Do(s, a))
  {
    hide Inv, AllWake, Single;
    match a
    case Deliver(o) => DeliverWakes(s, o);
    case Post(o) => PostWakes(s, o);
    case Look(o) => LookWakes(s, o);
    case Wake(o) => WakeWakes(s, o);
    case Detach(o) => DetachWakes(s, o);
    case Mark(o) => MarkWakes(s, o);
    case Announce(o) => AnnounceWakes(s, o);
    case _ => OthersWake(s, a);
  }

  lemma {:induction false} RunWakes(acts: seq<Action>)
    requires SingleRun(acts)
    ensures AllWake(Run(acts).value)
  {
    hide Inv, Do, Enabled, Single;
    if acts != [] {
      RunWakes(acts[..|acts| - 1]);
      RunKeeps(acts[..|acts| - 1]);
      ActionWakes(Run(acts[..|acts| - 1]).value, acts[|acts| - 1]);
    }
  }

  /**
   * No lost wakeup with one receiver per port: a Receive that waits while its queue is not
   * empty or its port is closed can go on at once, or after one step of an operation that
   * nothing can hold up.
   */
  lemma NoLostWakeup(acts: seq<Action>, w: nat)
    requires SingleRun(acts)
    requires
      var s := Run(acts).value;
      w < |s.ops| && s.ops[w].ReceiveWait? && s.ops[w].port < |s.ports| && Ready(s, s.ops[w].port)
    ensures
      var s := Run(acts).value;
      Enabled(s, Wake(w)) || exists a: Action :: (a.Post? || a.Announce?) && Enabled(s, a) && Enabled(Do(s, a), Wake(w))
  {
    RunWakes(acts);
    RunKeeps(acts);
    hide Run, SingleRun, Inv, AllWake, Do, Enabled, Ready;
    CanWake(Run(acts).value, w);
  }

  lemma CanWake(s: Bus, w: nat)
    requires Inv(s) && AllWake(s)
    requires w < |s.ops| && s.ops[w].ReceiveWait? && s.ops[w].port < |s.ports| && Ready(s, s.ops[w].port)
    ensures Enabled(s, Wake(w))
            || exists a: Action :: (a.Post? || a.Announce?) && Enabled(s, a) && Enabled(Do(s, a), Wake(w))
  {
    hide PortInv;
    var p := s.ops[w].port;
    assert WakeInv(s, w);
    if !s.ports[p].token {
      var o: nat :| Posts(s, o, p);
      assert OpInv(s, o);
      PostThenWake(s, w, o);
    }
  }

  lemma PostThenWake(s: Bus, w: nat, o: nat)
    requires w < |s.ops| && s.ops[w].ReceiveWait? && s.ops[w].port < |s.ports| && Posts(s, o, s.ops[w].port)
    ensures exists a: Action :: (a.Post? || a.Announce?) && Enabled(s, a) && Enabled(Do(s, a), Wake(w))
  {
    if s.ops[o].Posting? {
      assert Do(s, Post(o)) == DoPost(s, o);
      assert Enabled(s, Post(o)) && Enabled(Do(s, Post(o)), Wake(w));
    } else {
      assert Do(s, Announce(o)) == DoAnnounce(s, o);
      assert Enabled(s, Announce(o)) && Enabled(Do(s, Announce(o)), Wake(w));
    }
  }

  lemma RunSnoc(acts: seq<Action>, s: Bus, a: Action, s': Bus) returns (acts': seq<Action>)
    requires Run(acts) == Some(s) && Enabled(s, a) && Do(s, a) == s'
    ensures Run(acts') == Some(s')
  {
    acts' := acts + [a];
    assert acts'[..|acts|] == acts;
  }

  // ------------------------------------------------ two receivers on a port

  predicate Closing(op: Op, p: nat) {
    (op.CloseLock? || op.CloseMark? || op.ClosePost?) && op.port == p
  }

  /** Receive w waits on a closed port that has no token, and no Close of it is under way. */
  predicate Stranded(s: Bus, p: nat, w: nat) {
    && w < |s.ops| && s.ops[w] == ReceiveWait(p)
    && p < |s.ports| && s.ports[p].closed && !s.ports[p].token && p !in s.attached
    && forall o :: 0 <= o < |s.ops| ==> !Closing(s.ops[o], p)
  }

  /** A Close of another port does not touch this one. */
  lemma OtherCloseStays(s: Bus, o: nat, p: nat, w: nat)
    requires Inv(s) && Stranded(s, p, w)
    ensures Enabled(s, Detach(o)) ==> Stranded(DoDetach(s, o), p, w)
    ensures Enabled(s, Mark(o)) ==> Stranded(DoMark(s, o), p, w)
    ensures Enabled(s, Announce(o)) ==> Stranded(DoAnnounce(s, o), p, w)
  {
    hide PortInv, OpInv;
    if Enabled(s, Detach(o)) {
      WithoutMembers(s.attached, s.ops[o].port);
    }
  }

  /** Deliveries only reach attached ports. */
  lemma DeliveryStays(s: Bus, o: nat, p: nat, w: nat)
    requires Stranded(s, p, w)
    ensures Enabled(s, Deliver(o)) ==> Stranded(DoDeliver(s, o), p, w)
    ensures Enabled(s, Post(o)) ==> Stranded(DoPost(s, o), p, w)
  {
  }

  /** Another Receive may look at the port, but there is nothing to wake it or to take. */
  lemma ReceiverStays(s: Bus, o: nat, p: nat, w: nat)
    requires Stranded(s, p, w)
    ensures Enabled(s, Look(o)) ==> Stranded(DoLook(s, o), p, w)
    ensures Enabled(s, Wake(o)) ==> Stranded(DoWake(s, o), p, w)
  {
  }

  lemma StrandedStays(s: Bus, a: Action, p: nat, w: nat)
    requires Inv(s) && Stranded(s, p, w) && Enabled(s, a) && a != StartClose(p) && a != Cancel(w)
    ensures Stranded(Do(s, a), p, w)
  {
    match a
    case Detach(o) => OtherCloseStays(s, o, p, w);
    case Mark(o) => OtherCloseStays(s, o, p, w);
    case Announce(o) => OtherCloseStays(s, o, p, w);
    case Deliver(o) => DeliveryStays(s, o, p, w);
    case Post(o) => DeliveryStays(s, o, p, w);
    case Look(o) => ReceiverStays(s, o, p, w);
    case Wake(o) => ReceiverStays(s, o, p, w);
    case _ =>
  }

  /**
   * A stranded Receive is never woken: as long as nobody closes the port once more, it waits
   * on, whatever is under way and whatever is started, until its own context ends.
   */
  lemma {:induction false} StrandedForEver(acts: seq<Action>, more: seq<Action>, p: nat, w: nat)
    requires Run(acts).Some? && Stranded(Run(acts).value, p, w)
    requires Run(acts + more).Some? && StartClose(p) !in more && Cancel(w) !in more
    ensures Stranded(Run(acts + more).value, p, w)
  {
    hide Inv, Stranded, Enabled, Do;
    if more == [] {
      assert acts + more == acts;
    } else {
      var before, a := more[..|more| - 1], more[|more| - 1];
      assert more == before + [a];
      assert (acts + more)[..|acts + more| - 1] == acts + before;
      StrandedForEver(acts, before, p, w);
      RunKeeps(acts + before);
      StrandedStays(Run(acts + before).value, a, p, w);
    }
  }

  /** The lock is free and two Receives wait on port p. */
  predicate TwoWait(s: Bus, p: nat, v: nat, w: nat) {
    && s.holder == None && p < |s.ports| && v != w && v < |s.ops| && w < |s.ops|
    && s.ops[v] == s.ops[w] == ReceiveWait(p)
  }

  /** Such states can be reached. */
  lemma TwoReceiversWait() returns (acts: seq<Action>)
    ensures Run(acts).Some? && TwoWait(Run(acts).value, 0, 0, 1) && Open(Run(acts).value, 0)
  {
    var open := Port([], false, false, [], 0, None);
    var s1, s2 := Bus([0], [open], [], None, []), Bus([0], [open], [ReceiveLook(0)], None, []);
    assert Run([]) == Some(EMPTY);
    hide Run;
    acts := RunSnoc([], EMPTY, Connect, s1);
    acts := RunSnoc(acts, s1, StartReceive(0), s2);
    var s3 := s2.(ops := [ReceiveWait(0)]);
    acts := RunSnoc(acts, s2, Look(0), s3);
    var s4 := s2.(ops := [ReceiveWait(0), ReceiveLook(0)]);
    acts := RunSnoc(acts, s3, StartReceive(0), s4);
    acts := RunSnoc(acts, s4, Look(1), s2.(ops := [ReceiveWait(0), ReceiveWait(0)]));
  }

  /** What a Close does next. */
  function NextClose(s: Bus, o: nat): Action {
    match At(s, o)
    case CloseLock(_) => Detach(o)
    case CloseMark(_) => Mark(o)
    case _ => Announce(o)
  }

  lemma CloseMoves(s: Bus, p: nat, v: nat, w: nat, o: nat)
    requires Inv(s) && TwoWait(s, p, v, w) && o < |s.ops| && Closing(s.ops[o], p)
    ensures
      var a := NextClose(s, o);
      && Enabled(s, a)
      && var s' := Do(s, a);
         && TwoWait(s', p, v, w) && |s'.ops| == |s.ops|
         && (forall o' :: 0 <= o' < |s.ops| && o' != o ==> s'.ops[o'] == s.ops[o'])
         && (s.ops[o].CloseLock? ==>
               s'.ops[o] == CloseMark(p) && p !in s'.attached && s'.ports[p].closed == s.ports[p].closed)
         && (s.ops[o].CloseMark? ==> s'.ops[o] == ClosePost(p) && s'.ports[p].closed && s'.attached == s.attached)
         && (s.ops[o].ClosePost? ==>
               s'.ops[o] == Done(Success) && s'.ports[p].token && s'.ports[p].closed == s.ports[p].closed
                 && s'.attached == s.attached)
  {
    hide PortInv, OpInv;
    WithoutMembers(s.attached, p);
  }

  /** A Close that is under way can run to its end. */
  lemma CloseRuns(acts0: seq<Action>, p: nat, v: nat, w: nat, o: nat) returns (acts: seq<Action>)
    requires Run(acts0).Some? && TwoWait(Run(acts0).value, p, v, w)
    requires o < |Run(acts0).value.ops| && Closing(Run(acts0).value.ops[o], p)
    ensures Run(acts).Some?
    ensures
      var s, s' := Run(acts0).value, Run(acts).value;
      && TwoWait(s', p, v, w) && |s'.ops| == |s.ops| && s'.ops[o] == Done(Success)
      && (forall o' :: 0 <= o' < |s.ops| && o' != o ==> s'.ops[o'] == s.ops[o'])
      && s'.ports[p].token
      && (!s.ops[o].ClosePost? || s.ports[p].closed ==> s'.ports[p].closed)
      && (if s.ops[o].CloseLock? then p !in s'.attached else s'.attached == s.attached)
    decreases match Run(acts0).value.ops[o] case CloseLock(_) => 2 case CloseMark(_) => 1 case _ => 0
  {
    hide Inv, Run, Do, Enabled;
    var s := Run(acts0).value;
    RunKeeps(acts0);
    CloseMoves(s, p, v, w, o);
    var s' := Do(s, NextClose(s, o));
    acts := RunSnoc(acts0, s, NextClose(s, o), s');
    if !s.ops[o].ClosePost? {
      acts := CloseRuns(acts, p, v, w, o);
    }
  }

  /** All Closes of the port that are under way can run to their ends. */
  lemma ClosesRun(acts0: seq<Action>, p: nat, v: nat, w: nat, n: nat) returns (acts: seq<Action>)
    requires Run(acts0).Some? && TwoWait(Run(acts0).value, p, v, w) && n <= |Run(acts0).value.ops|
    ensures Run(acts).Some? && TwoWait(Run(acts).value, p, v, w) && |Run(acts).value.ops| == |Run(acts0).value.ops|
    ensures forall o :: 0 <= o < n ==> !Closing(Run(acts).value.ops[o], p)
  {
    hide Run;
    acts := acts0;
    if n > 0 {
      acts := ClosesRun(acts0, p, v, w, n - 1);
      if Closing(Run(acts).value.ops[n - 1], p) {
        acts := CloseRuns(acts, p, v, w, n - 1);
      }
    }
  }

  /** Of two Receives on a closed port with one token, one takes it and returns, and the other is stranded. */
  lemma OneTokenForTwo(acts0: seq<Action>, p: nat, v: nat, w: nat) returns (acts: seq<Action>)
    requires Run(acts0).Some? && TwoWait(Run(acts0).value, p, v, w)
    requires
      var s := Run(acts0).value;
      && s.ports[p].closed && s.ports[p].token && p !in s.attached
      && forall o :: 0 <= o < |s.ops| ==> !Closing(s.ops[o], p)
    ensures Run(acts).Some? && Stranded(Run(acts).value, p, w) && At(Run(acts).value, v) == Done(ErrClosed)
  {
    var s := Run(acts0).value;
    RunKeeps(acts0);
    assert PortInv(s, p);
    hide Run, Inv, PortInv;
    var s1 := DoWake(s, v);
    acts := RunSnoc(acts0, s, Wake(v), s1);
    var s2 := DoLook(s1, v);
    acts := RunSnoc(acts, s1, Look(v), s2);
  }

  /**
   * One receiver per port is needed. From every reachable state in which the lock is free
   * and two Receives wait on a port, there is a run in which the port is closed, one of
   * them returns, and the other is stranded.
   */
  lemma TwoReceiversLoseWakeup(acts0: seq<Action>, p: nat, v: nat, w: nat) returns (acts: seq<Action>)
    requires Run(acts0).Some? && TwoWait(Run(acts0).value, p, v, w)
    ensures Run(acts).Some? && Stranded(Run(acts).value, p, w) && At(Run(acts).value, v) == Done(ErrClosed)
  {
    acts := ClosesRun(acts0, p, v, w, |Run(acts0).value.ops|);
    hide Run, Inv;
    var s := Run(acts).value;
    var s' := s.(ops := s.ops + [CloseLock(p)]);
    acts := RunSnoc(acts, s, StartClose(p), s');
    acts := CloseRuns(acts, p, v, w, |s.ops|);
    acts := OneTokenForTwo(acts, p, v, w);
  }
  // ------------------------------------------------ two receivers and two frames

  /** Receive w waits on a port without a token, and nothing under way will put one there but a further delivery. */
  predicate Unwoken(s: Bus, p: nat, w: nat) {
    && w < |s.ops| && s.ops[w] == ReceiveWait(p) && p < |s.ports| && !s.ports[p].token
    && forall o :: 0 <= o < |s.ops| ==> !Posts(s, o, p) && !Closing(s.ops[o], p)
  }

  /** Nobody closes port p, which is attached and open. */
  predicate Open(s: Bus, p: nat) {
    && p < |s.ports| && !s.ports[p].closed && p in s.attached
    && forall o :: 0 <= o < |s.ops| ==> !Closing(s.ops[o], p)
  }

  /** Send o from another port is delivering while two Receives wait on port p. */
  predicate Sends(s: Bus, p: nat, v: nat, w: nat, o: nat) {
    && s.holder == Some(o) && o < |s.ops| && s.ops[o].Delivering? && s.ops[o].port != p && s.ops[o].next <= |s.attached|
    && TwoWait(s.(holder := None), p, v, w) && Open(s, p)
  }

  /** A Send changes nothing else: not the other operations, and not which ports are attached or closed. */
  predicate SendOnly(s: Bus, s': Bus, o: nat) {
    && s'.attached == s.attached && |s'.ports| == |s.ports| && |s'.ops| == |s.ops|
    && (forall x :: 0 <= x < |s.ports| ==> s'.ports[x].closed == s.ports[x].closed)
    && (forall x :: 0 <= x < |s.ops| && x != o ==> s'.ops[x] == s.ops[x])
  }

  /** The delivery to one port, which may be p. */
  lemma DeliversOne(acts0: seq<Action>, p: nat, v: nat, w: nat, o: nat) returns (acts: seq<Action>)
    requires Run(acts0).Some? && Sends(Run(acts0).value, p, v, w, o)
    requires Run(acts0).value.ops[o].next < |Run(acts0).value.attached|
    ensures Run(acts).Some?
    ensures
      var s, s' := Run(acts0).value, Run(acts).value;
      && Sends(s', p, v, w, o) && SendOnly(s, s', o)
      && s'.ops[o] == Delivering(s.ops[o].port, s.ops[o].frame, s.ops[o].next + 1)
      && (if s.attached[s.ops[o].next] == p
          then s'.ports[p].token && |s'.ports[p].queue| == |s.ports[p].queue| + 1
          else s'.ports[p] == s.ports[p])
  {
    var s := Run(acts0).value;
    RunKeeps(acts0);
    hide PortInv, OpInv, Run;
    var s1 := DoDeliver(s, o);
    acts := RunSnoc(acts0, s, Deliver(o), s1);
    if s.attached[s.ops[o].next] != s.ops[o].port {
      acts := RunSnoc(acts, s1, Post(o), DoPost(s1, o));
    }
  }

  /** The rest of a Send, to the end. */
  lemma DeliversAll(acts0: seq<Action>, p: nat, v: nat, w: nat, o: nat) returns (acts: seq<Action>)
    requires Run(acts0).Some? && Sends(Run(acts0).value, p, v, w, o)
    ensures Run(acts).Some?
    ensures
      var s, s' := Run(acts0).value, Run(acts).value;
      && SendOnly(s, s', o) && TwoWait(s', p, v, w) && s'.ops[o] == Done(Success)
      && |s'.ports[p].queue| >= |s.ports[p].queue| && (s.ports[p].token ==> s'.ports[p].token)
      && (p in s.attached[s.ops[o].next..] ==>
            s'.ports[p].token && |s'.ports[p].queue| > |s.ports[p].queue|)
    decreases |Run(acts0).value.attached| - Run(acts0).value.ops[o].next
  {
    hide Run, Do, Enabled;
    var s := Run(acts0).value;
    var n := s.ops[o].next;
    if n < |s.attached| {
      acts := DeliversOne(acts0, p, v, w, o);
      var s1 := Run(acts).value;
      acts := DeliversAll(acts, p, v, w, o);
      hide Sends, TwoWait;
      SendOnlyTwice(s, s1, Run(acts).value, o);
      assert s.attached[n..] == [s.attached[n]] + s.attached[n + 1..];
    } else {
      SendEnds(s, p, v, w, o);
      acts := RunSnoc(acts0, s, Release(o), Do(s, Release(o)));
    }
  }

  lemma SendOnlyTwice(s: Bus, s1: Bus, s2: Bus, o: nat)
    requires SendOnly(s, s1, o) && SendOnly(s1, s2, o)
    ensures SendOnly(s, s2, o)
  {
  }

  lemma SendEnds(s: Bus, p: nat, v: nat, w: nat, o: nat)
    requires Sends(s, p, v, w, o) && s.ops[o].next == |s.attached|
    ensures Enabled(s, Release(o))
    ensures
      var s' := Do(s, Release(o));
      SendOnly(s, s', o) && TwoWait(s', p, v, w) && s'.ops[o] == Done(Success) && s'.ports == s.ports
  {
  }

  /** From a state with the lock free, a whole Send from another port. */
  lemma SendRuns(acts0: seq<Action>, p: nat, v: nat, w: nat, q: nat, f: Frame) returns (acts: seq<Action>)
    requires Run(acts0).Some? && TwoWait(Run(acts0).value, p, v, w) && Open(Run(acts0).value, p)
    requires q != p && q < |Run(acts0).value.ports| && !Run(acts0).value.ports[q].closed && f.len <= MAX_DATA_LEN
    ensures Run(acts).Some?
    ensures
      var s, s' := Run(acts0).value, Run(acts).value;
      && TwoWait(s', p, v, w) && Open(s', p) && |s'.ports| == |s.ports| && !s'.ports[q].closed
      && s'.ports[p].token && |s'.ports[p].queue| > |s.ports[p].queue|
  {
    hide Run;
    var s, o := Run(acts0).value, |Run(acts0).value.ops|;
    var s1 := s.(ops := s.ops + [SendCheck(q, f)]);
    acts := RunSnoc(acts0, s, StartSend(q, f), s1);
    var s2 := DoCheck(s1, o);
    acts := RunSnoc(acts, s1, Check(o), s2);
    var s3 := DoAcquire(s2, o);
    acts := RunSnoc(acts, s2, Acquire(o), s3);
    assert s3.attached[0..] == s.attached;
    acts := DeliversAll(acts, p, v, w, o);
  }

  /**
   * The same for frames: from every reachable state in which two Receives wait on an open
   * port, two more frames and one Receive leave the other waiting beside a queued frame, with
   * nothing under way to wake it.
   */
  lemma TwoReceiversMissFrame(acts0: seq<Action>, p: nat, v: nat, w: nat, f: Frame) returns (acts: seq<Action>)
    requires Run(acts0).Some? && TwoWait(Run(acts0).value, p, v, w) && Open(Run(acts0).value, p)
    requires f.len <= MAX_DATA_LEN
    ensures Run(acts).Some?
    ensures
      var s := Run(acts).value;
      && Unwoken(s, p, w) && s.ports[p].queue != [] && Open(s, p) && s.holder == None
      && At(s, v).Done? && At(s, v).result.Delivered?
  {
    hide Run;
    var s := Run(acts0).value;
    var q := |s.ports|;
    acts := RunSnoc(acts0, s, Connect, DoConnect(s));
    acts := SendRuns(acts, p, v, w, q, f);
    acts := SendRuns(acts, p, v, w, q, f);
    var s1 := Run(acts).value;
    var s2 := DoWake(s1, v);
    acts := RunSnoc(acts, s1, Wake(v), s2);
    acts := RunSnoc(acts, s2, Look(v), DoLook(s2, v));
    RunKeeps(acts);
    NobodyPosts(Run(acts).value, p);
  }

  lemma NobodyPosts(s: Bus, p: nat)
    requires Inv(s) && s.holder == None && Open(s, p)
    ensures forall o :: 0 <= o < |s.ops| ==> !Posts(s, o, p)
  {
    hide PortInv;
    forall o | 0 <= o < |s.ops| ensures !Posts(s, o, p) {
      assert OpInv(s, o);
    }
  }

  /**
   * It waits on, whatever runs or starts, until a further frame is delivered, the port is
   * closed, or its context ends.
   */
  lemma UnwokenStays(s: Bus, a: Action, p: nat, w: nat)
    requires Inv(s) && Unwoken(s, p, w) && Enabled(s, a) && !a.Deliver? && a != StartClose(p) && a != Cancel(w)
    ensures Unwoken(Do(s, a), p, w)
  {
    TokenStays(s, a, p, w);
    hide PortInv, Posts, Do, Enabled;
    var s' := Do(s, a);
    forall o | 0 <= o < |s'.ops| ensures !Posts(s', o, p) && !Closing(s'.ops[o], p) {
      if o < |s.ops| {
        assert OpInv(s, o);
      }
      PostsStay(s, a, p, o);
    }
  }

  lemma TokenStays(s: Bus, a: Action, p: nat, w: nat)
    requires Inv(s) && Unwoken(s, p, w) && Enabled(s, a) && !a.Deliver? && a != StartClose(p) && a != Cancel(w)
    ensures
      var s' := Do(s, a);
      w < |s'.ops| && s'.ops[w] == ReceiveWait(p) && p < |s'.ports| && !s'.ports[p].token
  {
    hide Inv;
  }

  lemma PostsStay(s: Bus, a: Action, p: nat, o: nat)
    requires Inv(s) && Enabled(s, a) && !a.Deliver? && a != StartClose(p) && o < |Do(s, a).ops|
    requires o < |s.ops| ==> OpInv(s, o) && !Posts(s, o, p) && !Closing(s.ops[o], p)
    ensures !Posts(Do(s, a), o, p) && !Closing(Do(s, a).ops[o], p)
  {
    hide Inv, PortInv;
    if a.Connect? || a.Detach? {
      FreeLockPosts(s, a, p, o);
    }
  }

  /** Ports come and go only while nobody delivers. */
  lemma FreeLockPosts(s: Bus, a: Action, p: nat, o: nat)
    requires Enabled(s, a) && (a.Connect? || a.Detach?) && o < |s.ops| && OpInv(s, o)
    requires !Posts(s, o, p) && !Closing(s.ops[o], p)
    ensures !Posts(Do(s, a), o, p) && !Closing(Do(s, a).ops[o], p)
  {
    assert !Holds(s.ops[o]);
  }
}
