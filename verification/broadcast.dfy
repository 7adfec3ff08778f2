/**
 * One broadcast, any number of ECUs (can_transport.go, ecusim/ecusim.go): each ECU sends its
 * answer through Conn.Send on its own identifier, and the tester demultiplexes one shared
 * queue. Seen from one ECU, the whole system is the two-party protocol with noise.
 */
module Broadcast {
  import opened Can
  import opened IsoTp
  import opened Segmentation
  import opened Sender
  import opened Addresses
  import opened Answers
  import opened Transport
  import Demux
  import Protocol

  /** The tester's request, and for each ECU its address, its answer and its transport options. */
  datatype Config = Config(call: Call, addresses: seq<uint32>, msgs: seq<seq<byte>>, opts: seq<Options>)
  {
    function N(): nat {
      |addresses|
    }

    function Ext(): bool {
      call.Extended()
    }

    predicate Valid() {
      && call.mode != Auto && call.ecu == 0
      && |msgs| == |addresses| == |opts|
      && (forall i :: 0 <= i < N() ==>
            Legislated(Ext(), addresses[i])
            && Sendable(msgs[i]) && call.Keeps(msgs[i]))
      && (forall i, j :: 0 <= i < j < N() ==> addresses[i] != addresses[j])
    }

    /** The identifier ECU i answers on. */
    function Id(i: nat): uint32
      requires i < N()
    {
      Addresses.Response(Ext(), addresses[i])
    }

    /** The identifier ECU i listens on. */
    function Hears(i: nat): uint32
      requires i < N()
    {
      Physical(Ext(), addresses[i])
    }

    /** The two-party protocol between ECU i and the tester. */
    function Pair(i: nat): Protocol.Config
      requires i < N() && |msgs| == |opts| == N()
    {
      Protocol.Config(msgs[i],
                      Link(Id(i), Hears(i), opts[i].(extended := Ext())),
                      Link(Hears(i), Id(i), call.Link()))
    }
  }

  /** An ECU that answers: whether it has begun, its sender, and the frames on their way to it. */
  datatype Ecu = Ecu(started: bool, tx: Sending, queue: seq<Frame>)

  datatype Sys = Sys(ecus: seq<Ecu>, tester: Demux.State, queue: seq<Frame>)

  /** A frame reaches every ECU except `from`; the bus does not echo. */
  function Spread(ecus: seq<Ecu>, f: Frame, from: int): (r: seq<Ecu>)
    ensures |r| == |ecus|
  {
    seq(|ecus|, j requires 0 <= j < |ecus| =>
      if j == from then ecus[j] else ecus[j].(queue := ecus[j].queue + [f]))
  }

  function Initial(c: Config): Sys {
    Sys(seq(c.N(), _ => Ecu(false, Waiting(0, 0), [])), Demux.EMPTY, [])
  }

  /** What ECU i and the tester see of the system. */
  function View(c: Config, s: Sys, i: nat): Protocol.Sys
    requires c.Valid() && i < c.N() == |s.ecus|
  {
    var mine := Demux.Share(s.tester.out, c.Id(i));
    Protocol.Sys(s.ecus[i].started, s.ecus[i].tx, s.tester.At(c.Id(i)),
                 if mine == [] then None else Some(mine[0]),
                 if s.tester.err.Some? && s.tester.err.value.0 == c.Id(i) then Some(s.tester.err.value.1) else None,
                 s.queue, s.ecus[i].queue)
  }

  // ------------------------------------------------ steps

  predicate CanStart(c: Config, s: Sys, i: nat)
    requires c.Valid() && |s.ecus| == c.N()
  {
    i < c.N() && !s.ecus[i].started
  }

  predicate CanSend(c: Config, s: Sys, i: nat)
    requires c.Valid() && |s.ecus| == c.N()
  {
    i < c.N() && s.ecus[i].started && s.ecus[i].tx.InBlock? && s.ecus[i].tx.k < c.Pair(i).Last()
  }

  /** ECU i puts a frame on the bus and goes on as `tx`. */
  function Emit(s: Sys, i: nat, tx: Sending, f: Frame): Sys
    requires i < |s.ecus|
  {
    s.(ecus := Spread(s.ecus, f, i)[i := Ecu(true, tx, s.ecus[i].queue)], queue := s.queue + [f])
  }

  function DoStart(c: Config, s: Sys, i: nat): Sys
    requires c.Valid() && |s.ecus| == c.N() && CanStart(c, s, i)
  {
    Emit(s, i, if |c.msgs[i]| <= 7 then Finished else Waiting(0, 0), SegmentFrame(c.Pair(i).tx, c.msgs[i], 0))
  }

  function DoSend(c: Config, s: Sys, i: nat): Sys
    requires c.Valid() && |s.ecus| == c.N() && CanSend(c, s, i)
  {
    var tx := s.ecus[i].tx;
    Emit(s, i, AfterFrame(c.Pair(i).Last(), tx.k, tx.i, tx.bs, tx.st),
         SegmentFrame(c.Pair(i).tx, c.msgs[i], tx.k + 1))
  }

  predicate CanReceive(c: Config, s: Sys, i: nat)
    requires c.Valid() && |s.ecus| == c.N()
  {
    i < c.N() && s.ecus[i].started && s.ecus[i].tx.Waiting? && s.ecus[i].queue != []
  }

  function DoReceive(c: Config, s: Sys, i: nat): Sys
    requires c.Valid() && |s.ecus| == c.N() && CanReceive(c, s, i)
  {
    var e := s.ecus[i];
    var f := e.queue[0];
    s.(ecus := s.ecus[i := e.(queue := e.queue[1..],
                              tx := if c.Pair(i).tx.FromPeer(f)
                                    then OnFrame(c.Pair(i).tx.opt, e.tx.k, e.tx.waits, f.Payload()) else e.tx)])
  }

  predicate CanListen(c: Config, s: Sys) {
    s.queue != [] && s.tester.err == None && s.tester.Valid()
  }

  /** The tester takes the head of its queue, as roundTrip does. */
  function DoListen(c: Config, s: Sys): Sys
    requires CanListen(c, s)
  {
    var f := s.queue[0];
    if !c.call.Accepts(f) then s.(queue := s.queue[1..])
    else Heard(c, s, f, FeedStep(c.call.Link(), s.tester.At(f.id), f.Payload()))
  }

  /** The tester has fed frame f to its ECU's receiver; flow control goes out on the bus. */
  function Heard(c: Config, s: Sys, f: Frame, fed: (RxState, Fed)): Sys
    requires s.queue != [] && s.tester.Valid() && RxValid(fed.0) && c.call.Accepts(f)
  {
    Sys(if fed.1.fc.Some? then Spread(s.ecus, ControlFor(c, f, fed.1.fc.value), -1) else s.ecus,
        Demux.Take(m => c.call.Keeps(m), s.tester, f.id, fed),
        s.queue[1..])
  }

  /** The flow control frame for the sender of f. */
  function ControlFor(c: Config, f: Frame, fc: seq<byte>): Frame
    requires c.call.Accepts(f)
  {
    FrameOf(c.call.Link(), Match(c.call.mode, c.call.ecu, f.id).value, fc)
  }

  /** A frame of someone else: no ECU listens for it and the tester does not take it for an answer. */
  predicate Foreign(c: Config, f: Frame)
    requires c.Valid()
  {
    !c.call.Accepts(f) && forall i :: 0 <= i < c.N() ==> !c.Pair(i).tx.FromPeer(f)
  }

  ghost predicate PartyStep(c: Config, s: Sys, s': Sys)
    requires c.Valid() && |s.ecus| == c.N()
  {
    || (CanListen(c, s) && s' == DoListen(c, s))
    || exists i: nat :: EcuStep(c, s, s', i)
  }

  predicate EcuStep(c: Config, s: Sys, s': Sys, i: nat)
    requires c.Valid() && |s.ecus| == c.N()
  {
    || (CanStart(c, s, i) && s' == DoStart(c, s, i))
    || (CanSend(c, s, i) && s' == DoSend(c, s, i))
    || (CanReceive(c, s, i) && s' == DoReceive(c, s, i))
  }

  predicate NoiseFrame(c: Config, s: Sys, s': Sys, f: Frame)
    requires c.Valid()
  {
    Foreign(c, f) && s' == s.(ecus := Spread(s.ecus, f, -1), queue := s.queue + [f])
  }

  ghost predicate NoiseStep(c: Config, s: Sys, s': Sys)
    requires c.Valid()
  {
    exists f :: NoiseFrame(c, s, s', f)
  }

  // ------------------------------------------------ the invariant

  /** Frame f comes from one of the ECUs. */
  ghost predicate FromEcu(c: Config, f: Frame)
    requires c.Valid()
  {
    exists i :: 0 <= i < c.N() && c.Id(i) == f.id
  }

  ghost predicate Inv(c: Config, s: Sys)
    requires c.Valid()
  {
    && |s.ecus| == c.N() && s.tester.Valid() && s.tester.err == None
    && (forall i :: 0 <= i < c.N() ==> Protocol.Inv(c.Pair(i), View(c, s, i)))
    && (forall i :: 0 <= i < c.N() ==> |Demux.Share(s.tester.out, c.Id(i))| <= 1)
    && (forall f :: f in s.queue && c.call.Accepts(f) ==> FromEcu(c, f))
    && (forall t :: t in s.tester.out ==> exists i :: 0 <= i < c.N() && c.Id(i) == t.id)
  }

  lemma PairValid(c: Config, i: nat)
    requires c.Valid() && i < c.N()
    ensures c.Pair(i).Valid()
  {
  }

  /** Identifiers of different ECUs never clash, and flow control is routed back. */
  lemma IdsApart(c: Config, i: nat, j: nat)
    requires c.Valid() && i < c.N() && j < c.N()
    ensures i != j ==> c.Id(i) != c.Hears(j) && c.Id(i) != c.Id(j) && c.Hears(i) != c.Hears(j)
    ensures Match(c.call.mode, 0, c.Id(i)) == Some(c.Hears(i))
  {
    OnlyTesterAddressCollides(c.Ext(), c.addresses[j], c.addresses[i]);
    OnlyTesterAddressCollides(c.Ext(), c.addresses[i], c.addresses[j]);
    BroadcastRoutesBack(c.Ext(), c.addresses[i]);
  }

  /** Each flow control frame reaches the ECU whose frame caused it, and no other. */
  lemma FlowControlReachesItsEcu(c: Config, f: Frame, fc: seq<byte>, i: nat, j: nat)
    requires c.Valid() && i < c.N() && j < c.N() && c.call.Accepts(f) && f.id == c.Id(i)
    ensures c.Pair(j).tx.FromPeer(ControlFor(c, f, fc)) <==> j == i
    ensures ControlFor(c, f, fc) == FrameOf(c.Pair(i).rx.opt, c.Pair(i).rx.txID, fc)
  {
    IdsApart(c, i, j);
  }

  /** A frame that ECU i emits is noise to every other ECU, and to the tester's receivers of the others. */
  lemma EmittedIsNoise(c: Config, i: nat, j: nat, seg: nat)
    requires c.Valid() && i < c.N() && j < c.N() && i != j && seg <= c.Pair(i).Last()
    ensures
      var f := SegmentFrame(c.Pair(i).tx, c.msgs[i], seg);
      !c.Pair(j).rx.FromPeer(f) && !c.Pair(j).tx.FromPeer(f) && c.call.Accepts(f) && f.id == c.Id(i)
  {
    IdsApart(c, i, j);
  }

  // ------------------------------------------------ steps keep the invariant

  lemma PairInv(c: Config, s: Sys, i: nat)
    requires c.Valid() && Inv(c, s) && i < c.N()
    ensures |s.ecus| == c.N() && c.Pair(i).Valid() && Protocol.Inv(c.Pair(i), View(c, s, i))
  {
    hide Protocol.Inv, View;
    PairValid(c, i);
  }

  /** A segment of ECU i is on ECU i's identifier. */
  lemma SegmentId(c: Config, i: nat, seg: nat)
    requires c.Valid() && i < c.N() && seg <= c.Pair(i).Last()
    ensures SegmentFrame(c.Pair(i).tx, c.msgs[i], seg).id == c.Id(i)
  {
  }

  lemma EmitKeeps(c: Config, s: Sys, i: nat, tx: Sending, seg: nat)
    requires c.Valid() && Inv(c, s) && i < c.N() && seg <= c.Pair(i).Last()
    requires
      var f, v := SegmentFrame(c.Pair(i).tx, c.msgs[i], seg), View(c, s, i);
      Protocol.Inv(c.Pair(i), v.(started := true, tx := tx, toRx := v.toRx + [f]))
    ensures Inv(c, Emit(s, i, tx, SegmentFrame(c.Pair(i).tx, c.msgs[i], seg)))
  {
    hide Protocol.Inv, Protocol.Mine, Demux.Share, SegmentFrame, Legislated, Match;
    var f := SegmentFrame(c.Pair(i).tx, c.msgs[i], seg);
    var s' := Emit(s, i, tx, f);
    forall j | 0 <= j < c.N() ensures Protocol.Inv(c.Pair(j), View(c, s', j)) {
      var v, v' := View(c, s, j), View(c, s', j);
      if j == i {
        assert v' == v.(started := true, tx := tx, toRx := v.toRx + [f]);
      } else {
        EmittedIsNoise(c, i, j, seg);
        Protocol.MineSnoc(c.Pair(j).rx, s.queue, f);
        Protocol.MineSnoc(c.Pair(j).tx, s.ecus[j].queue, f);
        Protocol.OtherFramesKeep(c.Pair(j), v, s'.queue, s'.ecus[j].queue);
        assert v' == v.(toRx := s'.queue, toTx := s'.ecus[j].queue);
      }
    }
    forall g | g in s'.queue && c.call.Accepts(g) ensures FromEcu(c, g) {
      if g == f {
        SegmentId(c, i, seg);
      }
    }
  }

  lemma StartKeeps(c: Config, s: Sys, i: nat)
    requires c.Valid() && Inv(c, s) && CanStart(c, s, i)
    ensures Inv(c, DoStart(c, s, i))
  {
    PairInv(c, s, i);
    hide Inv, Protocol.Inv, Emit, View, SegmentFrame, Legislated, Match;
    var v := View(c, s, i);
    ViewIs(c, s, i);
    Protocol.PartyKeeps(c.Pair(i), v, Protocol.DoStart(c.Pair(i), v));
    EmitKeeps(c, s, i, if |c.msgs[i]| <= 7 then Finished else Waiting(0, 0), 0);
  }

  lemma ViewIs(c: Config, s: Sys, i: nat)
    requires c.Valid() && i < c.N() == |s.ecus|
    ensures
      var v, e := View(c, s, i), s.ecus[i];
      v.started == e.started && v.tx == e.tx && v.toRx == s.queue && v.toTx == e.queue
      && v.rx == s.tester.At(c.Id(i))
  {
  }

  lemma SendKeeps(c: Config, s: Sys, i: nat)
    requires c.Valid() && Inv(c, s) && CanSend(c, s, i)
    ensures Inv(c, DoSend(c, s, i))
  {
    PairInv(c, s, i);
    hide Inv, Protocol.Inv, Emit, View, SegmentFrame, AfterFrame, Legislated, Match;
    var v, tx := View(c, s, i), s.ecus[i].tx;
    ViewIs(c, s, i);
    Protocol.PartyKeeps(c.Pair(i), v, Protocol.DoTxSend(c.Pair(i), v));
    EmitKeeps(c, s, i, AfterFrame(c.Pair(i).Last(), tx.k, tx.i, tx.bs, tx.st), tx.k + 1);
  }

  lemma ReceiveKeeps(c: Config, s: Sys, i: nat)
    requires c.Valid() && Inv(c, s) && CanReceive(c, s, i)
    ensures Inv(c, DoReceive(c, s, i))
  {
    hide Protocol.Inv, Protocol.Mine, OnFrame, Demux.Share;
    var s' := DoReceive(c, s, i);
    forall j | 0 <= j < c.N() ensures Protocol.Inv(c.Pair(j), View(c, s', j)) {
      var v := View(c, s, j);
      if j == i {
        Protocol.PartyKeeps(c.Pair(i), v, Protocol.DoTxReceive(c.Pair(i), v));
        assert View(c, s', i) == Protocol.DoTxReceive(c.Pair(i), v);
      } else {
        assert View(c, s', j) == v;
      }
    }
  }

  lemma NoiseKeeps(c: Config, s: Sys, s': Sys)
    requires c.Valid() && Inv(c, s) && NoiseStep(c, s, s')
    ensures Inv(c, s')
  {
    hide Protocol.Inv, Protocol.Mine, Demux.Share, Match, Legislated;
    var f :| NoiseFrame(c, s, s', f);
    forall j | 0 <= j < c.N() ensures Protocol.Inv(c.Pair(j), View(c, s', j)) {
      var v := View(c, s, j);
      IdsApart(c, j, j);
      Protocol.MineSnoc(c.Pair(j).rx, s.queue, f);
      Protocol.MineSnoc(c.Pair(j).tx, s.ecus[j].queue, f);
      Protocol.OtherFramesKeep(c.Pair(j), v, s'.queue, s'.ecus[j].queue);
      assert View(c, s', j) == v.(toRx := s'.queue, toTx := s'.ecus[j].queue);
    }
  }

  /** A frame that is dropped is for none of the tester's receivers. */
  lemma DropKeeps(c: Config, s: Sys)
    requires c.Valid() && Inv(c, s) && CanListen(c, s) && !c.call.Accepts(s.queue[0])
    ensures Inv(c, DoListen(c, s))
  {
    hide Protocol.Inv, Demux.Share, Match, Legislated;
    var s' := DoListen(c, s);
    forall j | 0 <= j < c.N() ensures Protocol.Inv(c.Pair(j), View(c, s', j)) {
      var v := View(c, s, j);
      IdsApart(c, j, j);
      assert !c.Pair(j).rx.FromPeer(s.queue[0]);
      Protocol.OtherFramesKeep(c.Pair(j), v, s'.queue, s'.ecus[j].queue);
      assert View(c, s', j) == v.(toRx := s'.queue, toTx := s'.ecus[j].queue);
    }
  }

  // ------------------------------------------------ the tester listens

  /** Seen by the ECU that sent it, taking an accepted frame is the receiver's own step. */
  lemma HeardBySender(c: Config, s: Sys, i: nat)
    requires c.Valid() && Inv(c, s) && CanListen(c, s) && i < c.N()
    requires c.call.Accepts(s.queue[0]) && s.queue[0].id == c.Id(i)
    ensures DoListen(c, s).tester.err == None
    ensures |Demux.Share(DoListen(c, s).tester.out, c.Id(i))| <= 1
    ensures Protocol.Inv(c.Pair(i), View(c, DoListen(c, s), i))
  {
    hide Protocol.Inv, FeedStep, FrameOf, Match, Legislated, Demux.Share, IsAnswer, IsPending;
    var f, v := s.queue[0], View(c, s, i);
    Protocol.HeadIsWanted(c.Pair(i), v);
    Protocol.PartyKeeps(c.Pair(i), v, Protocol.DoRxReceive(c.Pair(i), v));
    var fed := FeedStep(c.call.Link(), s.tester.At(f.id), f.Payload());
    if fed.1.msg.Some? {
      Demux.ShareSnoc(s.tester.out, Demux.Tagged(f.id, fed.1.msg.value), c.Id(i));
    }
    if fed.1.fc.Some? {
      FlowControlReachesItsEcu(c, f, fed.1.fc.value, i, i);
    }
    assert View(c, DoListen(c, s), i) == Protocol.DoRxReceive(c.Pair(i), v);
  }

  /** Neither the frame nor the flow control for it is for another ECU's pair. */
  lemma OthersUntouched(c: Config, s: Sys, i: nat, j: nat)
    requires c.Valid() && |s.ecus| == c.N() && CanListen(c, s) && i < c.N() && j < c.N() && i != j
    requires c.call.Accepts(s.queue[0]) && s.queue[0].id == c.Id(i)
    ensures
      var s' := DoListen(c, s);
      && s'.queue == s.queue[1..] && |s'.ecus| == c.N()
      && Protocol.Mine(c.Pair(j).rx, s'.queue) == Protocol.Mine(c.Pair(j).rx, s.queue)
      && Protocol.Mine(c.Pair(j).tx, s'.ecus[j].queue) == Protocol.Mine(c.Pair(j).tx, s.ecus[j].queue)
  {
    hide FeedStep, FrameOf, Match, Legislated, ControlFor;
    var f := s.queue[0];
    IdsApart(c, i, j);
    var fed := FeedStep(c.call.Link(), s.tester.At(f.id), f.Payload());
    if fed.1.fc.Some? {
      FlowControlReachesItsEcu(c, f, fed.1.fc.value, i, j);
      Protocol.MineSnoc(c.Pair(j).tx, s.ecus[j].queue, ControlFor(c, f, fed.1.fc.value));
    }
  }

  /** Nothing changes in what the tester has of another ECU. */
  lemma OtherShare(c: Config, s: Sys, i: nat, j: nat)
    requires c.Valid() && |s.ecus| == c.N() && CanListen(c, s) && i < c.N() && j < c.N() && i != j
    requires c.call.Accepts(s.queue[0]) && s.queue[0].id == c.Id(i) && DoListen(c, s).tester.err == None
    ensures
      var s' := DoListen(c, s);
      && Demux.Share(s'.tester.out, c.Id(j)) == Demux.Share(s.tester.out, c.Id(j))
      && s'.tester.At(c.Id(j)) == s.tester.At(c.Id(j))
      && s'.ecus[j].started == s.ecus[j].started && s'.ecus[j].tx == s.ecus[j].tx
  {
    hide FeedStep, FrameOf, Match, Legislated, Demux.Share, IsAnswer, IsPending, ControlFor;
    var f := s.queue[0];
    IdsApart(c, i, j);
    var fed := FeedStep(c.call.Link(), s.tester.At(f.id), f.Payload());
    if fed.1.msg.Some? {
      Demux.ShareSnoc(s.tester.out, Demux.Tagged(f.id, fed.1.msg.value), c.Id(j));
    }
  }

  /** To every other ECU, it is noise. */
  lemma HeardByOther(c: Config, s: Sys, i: nat, j: nat)
    requires c.Valid() && Inv(c, s) && CanListen(c, s) && i < c.N() && j < c.N() && i != j
    requires c.call.Accepts(s.queue[0]) && s.queue[0].id == c.Id(i)
    requires DoListen(c, s).tester.err == None
    ensures Demux.Share(DoListen(c, s).tester.out, c.Id(j)) == Demux.Share(s.tester.out, c.Id(j))
    ensures Protocol.Inv(c.Pair(j), View(c, DoListen(c, s), j))
  {
    PairInv(c, s, j);
    assert s.tester.err == None;
    hide Inv, Protocol.Inv, DoListen, Match, Legislated, Demux.Share, Protocol.Mine;
    var v, s' := View(c, s, j), DoListen(c, s);
    OthersUntouched(c, s, i, j);
    OtherShare(c, s, i, j);
    Protocol.OtherFramesKeep(c.Pair(j), v, s'.queue, s'.ecus[j].queue);
    assert View(c, s', j) == v.(toRx := s'.queue, toTx := s'.ecus[j].queue);
  }

  lemma ListenKeeps(c: Config, s: Sys)
    requires c.Valid() && Inv(c, s) && CanListen(c, s)
    ensures Inv(c, DoListen(c, s))
  {
    hide Protocol.Inv, View, Demux.Share, Match, Legislated, FeedStep, FrameOf, IsAnswer, IsPending;
    if !c.call.Accepts(s.queue[0]) {
      DropKeeps(c, s);
    } else {
      assert s.queue[0] in s.queue;
      var i :| 0 <= i < c.N() && c.Id(i) == s.queue[0].id;
      HeardBySender(c, s, i);
      forall j | 0 <= j < c.N()
        ensures Protocol.Inv(c.Pair(j), View(c, DoListen(c, s), j))
        ensures |Demux.Share(DoListen(c, s).tester.out, c.Id(j))| <= 1
      {
        if j != i {
          HeardByOther(c, s, i, j);
        }
      }
    }
  }

  lemma PartyKeeps(c: Config, s: Sys, s': Sys)
    requires c.Valid() && Inv(c, s) && PartyStep(c, s, s')
    ensures Inv(c, s')
  {
    assert |s.ecus| == c.N();
    hide Inv, EcuStep, DoListen;
    if CanListen(c, s) && s' == DoListen(c, s) {
      ListenKeeps(c, s);
    } else {
      var i: nat :| EcuStep(c, s, s', i);
      EcuKeeps(c, s, s', i);
    }
  }

  lemma EcuKeeps(c: Config, s: Sys, s': Sys, i: nat)
    requires c.Valid() && Inv(c, s) && |s.ecus| == c.N() && EcuStep(c, s, s', i)
    ensures Inv(c, s')
  {
    hide Inv, DoStart, DoSend, DoReceive;
    if CanStart(c, s, i) && s' == DoStart(c, s, i) {
      StartKeeps(c, s, i);
    } else if CanSend(c, s, i) && s' == DoSend(c, s, i) {
      SendKeeps(c, s, i);
    } else {
      ReceiveKeeps(c, s, i);
    }
  }

  lemma InitialInv(c: Config)
    requires c.Valid()
    ensures Inv(c, Initial(c))
  {
    hide Protocol.Inv, Legislated;
    forall i | 0 <= i < c.N() ensures Protocol.Inv(c.Pair(i), View(c, Initial(c), i)) {
      Protocol.InitialInv(c.Pair(i));
      assert View(c, Initial(c), i) == Protocol.INITIAL;
    }
  }

  // ------------------------------------------------ liveness

  /** Every ECU has sent its answer and the tester has it. */
  ghost predicate Complete(c: Config, s: Sys)
    requires c.Valid() && |s.ecus| == c.N()
  {
    forall i :: 0 <= i < c.N() ==>
      s.ecus[i].started && s.ecus[i].tx == Finished && Demux.Share(s.tester.out, c.Id(i)) == [c.msgs[i]]
  }

  /** No deadlock: as long as an answer is missing, somebody can step. */
  lemma NoDeadlock(c: Config, s: Sys, i: nat) returns (s': Sys)
    requires c.Valid() && Inv(c, s) && i < c.N() && !Protocol.Complete(c.Pair(i), View(c, s, i))
    ensures PartyStep(c, s, s')
  {
    hide Protocol.Inv, Protocol.Mine, FeedStep, FrameOf, Match, Legislated, Demux.Share, SegmentFrame, Emit;
    var v := View(c, s, i);
    var v' := Protocol.NoDeadlock(c.Pair(i), v);
    if CanStart(c, s, i) {
      s' := DoStart(c, s, i);
      assert EcuStep(c, s, s', i);
    } else if CanSend(c, s, i) {
      s' := DoSend(c, s, i);
      assert EcuStep(c, s, s', i);
    } else if CanReceive(c, s, i) {
      s' := DoReceive(c, s, i);
      assert EcuStep(c, s, s', i);
    } else {
      s' := DoListen(c, s);
    }
  }

  /** How many consecutive frames of ECU i are out; -1 before its first frame. */
  function Out(c: Config, s: Sys, i: nat): int
    requires c.Valid() && i < c.N() == |s.ecus|
  {
    var e := s.ecus[i];
    if !e.started then -1
    else match e.tx
      case Waiting(k, _) => k
      case InBlock(k, _, _, _) => k
      case Finished => c.Pair(i).Last()
      case Failed(_, k) => k
  }

  /** Work left with ECU i: its frames, each of which may reach every queue, and its queue. */
  function Left(c: Config, s: Sys, i: nat): int
    requires c.Valid() && i < c.N() == |s.ecus|
  {
    Weighted(c, c.Pair(i).Last() - Out(c, s, i)) + |s.ecus[i].queue|
  }

  function Weighted(c: Config, frames: int): int {
    (2 * c.N() + 1) * frames
  }

  function LeftBelow(c: Config, s: Sys, n: nat): int
    requires c.Valid() && n <= c.N() == |s.ecus|
  {
    if n == 0 then 0 else LeftBelow(c, s, n - 1) + Left(c, s, n - 1)
  }

  /** Work left with n frames on their way to the tester, each of which may cause a flow control frame. */
  function Queued(c: Config, n: int): int {
    (c.N() + 1) * n
  }

  lemma OneMoreQueued(c: Config, n: int)
    ensures Queued(c, n + 1) == Queued(c, n) + c.N() + 1
  {
  }

  function Measure(c: Config, s: Sys): int
    requires c.Valid() && c.N() == |s.ecus|
  {
    LeftBelow(c, s, c.N()) + Queued(c, |s.queue|)
  }

  /** If one ECU's work grows by at most a and every other's by at most 1, so does the sum. */
  lemma {:induction false} LeftGrows(c: Config, s: Sys, s': Sys, n: nat, i: nat, a: int, b: int)
    requires c.Valid() && c.N() == |s.ecus| == |s'.ecus| && n <= c.N() && 0 <= b <= 1
    requires forall j :: 0 <= j < n ==> Left(c, s', j) <= Left(c, s, j) + if j == i then a else b
    ensures LeftBelow(c, s', n) <= LeftBelow(c, s, n) + (if b == 1 then n else 0) + (if i < n then a - b else 0)
  {
    hide Left;
    if n > 0 {
      LeftGrows(c, s, s', n - 1, i, a, b);
    }
  }

  /** Emitting a frame moves ECU i on by at least one frame, and fills every other queue by one. */
  lemma EmitDecreases(c: Config, s: Sys, i: nat, tx: Sending, f: Frame)
    requires c.Valid() && c.N() == |s.ecus| && i < c.N()
    requires Out(c, Emit(s, i, tx, f), i) > Out(c, s, i)
    ensures Measure(c, Emit(s, i, tx, f)) < Measure(c, s)
  {
    var s' := Emit(s, i, tx, f);
    var before, after := c.Pair(i).Last() - Out(c, s, i), c.Pair(i).Last() - Out(c, s', i);
    MoreWeight(c, after + 1, before);
    AddWeights(c, after, 1);
    assert Weighted(c, 1) == 2 * c.N() + 1;
    OneMoreQueued(c, |s.queue|);
    hide Weighted, Queued, Legislated, Match, LeftBelow, Out;
    forall j | 0 <= j < c.N() ensures Left(c, s', j) <= Left(c, s, j) + if j == i then -(2 * c.N() + 1) else 1 {
      EmitLeaves(c, s, i, tx, f, j);
    }
    LeftGrows(c, s, s', c.N(), i, -(2 * c.N() + 1), 1);
  }

  lemma EmitLeaves(c: Config, s: Sys, i: nat, tx: Sending, f: Frame, j: nat)
    requires c.Valid() && c.N() == |s.ecus| && i < c.N() && j < c.N()
    ensures Emit(s, i, tx, f).ecus[j].queue == if j == i then s.ecus[j].queue else s.ecus[j].queue + [f]
    ensures j != i ==> Left(c, Emit(s, i, tx, f), j) == Left(c, s, j) + 1
  {
    hide Weighted, Legislated, Match;
  }

  lemma MoreWeight(c: Config, few: int, many: int)
    requires few <= many
    ensures Weighted(c, few) <= Weighted(c, many)
  {
    var d: nat := many - few;
    assert Weighted(c, many) == Weighted(c, few) + (2 * c.N() + 1) * d;
  }

  lemma SendDecreases(c: Config, s: Sys, i: nat)
    requires c.Valid() && Inv(c, s) && CanSend(c, s, i)
    ensures Measure(c, DoSend(c, s, i)) < Measure(c, s)
  {
    PairInv(c, s, i);
    hide Inv, Protocol.Inv, SegmentFrame, Legislated, Match, Measure;
    var tx := s.ecus[i].tx;
    EmitDecreases(c, s, i, AfterFrame(c.Pair(i).Last(), tx.k, tx.i, tx.bs, tx.st),
                  SegmentFrame(c.Pair(i).tx, c.msgs[i], tx.k + 1));
  }

  lemma StartDecreases(c: Config, s: Sys, i: nat)
    requires c.Valid() && Inv(c, s) && CanStart(c, s, i)
    ensures Measure(c, DoStart(c, s, i)) < Measure(c, s)
  {
    PairInv(c, s, i);
    hide Inv, Protocol.Inv, SegmentFrame, Legislated, Match, Measure;
    EmitDecreases(c, s, i, if |c.msgs[i]| <= 7 then Finished else Waiting(0, 0),
                  SegmentFrame(c.Pair(i).tx, c.msgs[i], 0));
  }

  lemma ReceiveLeaves(c: Config, s: Sys, i: nat, j: nat)
    requires c.Valid() && c.N() == |s.ecus| && CanReceive(c, s, i) && j < c.N()
    ensures Left(c, DoReceive(c, s, i), j) == Left(c, s, j) + if j == i then -1 else 0
  {
    hide Legislated, Match, Weighted;
  }

  lemma ReceiveDecreases(c: Config, s: Sys, i: nat)
    requires c.Valid() && Inv(c, s) && CanReceive(c, s, i)
    ensures Measure(c, DoReceive(c, s, i)) < Measure(c, s)
  {
    PairInv(c, s, i);
    hide Inv, Protocol.Inv, Legislated, Match, Weighted, Left, LeftBelow, Queued;
    forall j | 0 <= j < c.N() ensures Left(c, DoReceive(c, s, i), j) <= Left(c, s, j) + if j == i then -1 else 0 {
      ReceiveLeaves(c, s, i, j);
    }
    LeftGrows(c, s, DoReceive(c, s, i), c.N(), i, -1, 0);
  }

  lemma ListenDecreases(c: Config, s: Sys)
    requires c.Valid() && c.N() == |s.ecus| && CanListen(c, s)
    ensures Measure(c, DoListen(c, s)) < Measure(c, s)
  {
    hide Legislated, Match, Weighted, Queued, FeedStep, FrameOf, ControlFor;
    var s' := DoListen(c, s);
    forall j | 0 <= j < c.N() ensures Left(c, s', j) <= Left(c, s, j) + 1 {
    }
    LeftGrows(c, s, s', c.N(), 0, 1, 1);
    OneMoreQueued(c, |s'.queue|);
  }

  lemma PartyDecreases(c: Config, s: Sys, s': Sys)
    requires c.Valid() && Inv(c, s) && |s.ecus| == |s'.ecus| == c.N() && PartyStep(c, s, s')
    ensures Measure(c, s') < Measure(c, s)
  {
    hide Inv, DoListen, DoStart, DoSend, DoReceive, Measure;
    if CanListen(c, s) && s' == DoListen(c, s) {
      ListenDecreases(c, s);
    } else {
      var i: nat :| EcuStep(c, s, s', i);
      if CanStart(c, s, i) && s' == DoStart(c, s, i) {
        StartDecreases(c, s, i);
      } else if CanSend(c, s, i) && s' == DoSend(c, s, i) {
        SendDecreases(c, s, i);
      } else {
        ReceiveDecreases(c, s, i);
      }
    }
  }

  lemma NoiseIncreases(c: Config, s: Sys, s': Sys)
    requires c.Valid() && |s.ecus| == c.N() && NoiseStep(c, s, s')
    ensures |s'.ecus| == c.N() && Measure(c, s') <= Measure(c, s) + (2 * c.N() + 1)
  {
    hide Legislated, Match, Weighted, Queued, Foreign;
    var f :| NoiseFrame(c, s, s', f);
    LeftGrows(c, s, s', c.N(), 0, 1, 1);
    OneMoreQueued(c, |s.queue|);
  }

  lemma {:induction false} LeftNatural(c: Config, s: Sys, n: nat)
    requires c.Valid() && Inv(c, s) && n <= c.N()
    ensures |s.ecus| == c.N() && LeftBelow(c, s, n) >= 0
  {
    hide Inv, Left;
    MeasureDefined(c, s);
    if n > 0 {
      LeftNatural(c, s, n - 1);
      OwnLeftNatural(c, s, n - 1);
    }
  }

  lemma MeasureDefined(c: Config, s: Sys)
    requires c.Valid() && Inv(c, s)
    ensures |s.ecus| == c.N()
  {
  }

  lemma OwnLeftNatural(c: Config, s: Sys, i: nat)
    requires c.Valid() && Inv(c, s) && i < c.N()
    ensures |s.ecus| == c.N() && Left(c, s, i) >= 0
  {
    PairInv(c, s, i);
    hide Inv, Protocol.Inv, Weighted, Legislated, Match;
    Protocol.OutInRange(c.Pair(i), View(c, s, i));
    NoWeight(c);
    MoreWeight(c, 0, c.Pair(i).Last() - Out(c, s, i));
  }

  lemma NoWeight(c: Config)
    ensures Weighted(c, 0) == 0
  {
  }

  /** The sum over the ECUs of the frames they have to send. */
  function Frames(c: Config, n: nat): nat
    requires c.Valid() && n <= c.N()
  {
    if n == 0 then 0 else Frames(c, n - 1) + c.Pair(n - 1).Last() + 1
  }

  lemma MeasureNatural(c: Config, s: Sys)
    requires c.Valid() && Inv(c, s)
    ensures Measure(c, s) >= 0
  {
    hide Inv, Protocol.Inv, Weighted;
    LeftNatural(c, s, c.N());
    assert Queued(c, |s.queue|) >= 0;
  }

  lemma AddWeights(c: Config, a: int, b: int)
    ensures Weighted(c, a + b) == Weighted(c, a) + Weighted(c, b)
  {
    assert (2 * c.N() + 1) * (a + b) == (2 * c.N() + 1) * a + (2 * c.N() + 1) * b;
  }

  lemma InitialWork(c: Config)
    requires c.Valid()
    ensures Measure(c, Initial(c)) == Weighted(c, Frames(c, c.N()))
  {
    hide Weighted, LeftBelow, Frames;
    InitialLeft(c, c.N());
    assert Initial(c).queue == [];
  }

  lemma {:induction false} InitialLeft(c: Config, n: nat)
    requires c.Valid() && n <= c.N()
    ensures LeftBelow(c, Initial(c), n) == Weighted(c, Frames(c, n))
  {
    if n > 0 {
      InitialLeft(c, n - 1);
      hide Weighted, Legislated;
      AddWeights(c, Frames(c, n - 1), c.Pair(n - 1).Last() + 1);
    }
  }

  // ------------------------------------------------ whole runs

  ghost predicate IsRun(c: Config, run: seq<Sys>)
    requires c.Valid()
  {
    run != [] &&
    var s' := run[|run| - 1];
    && |s'.ecus| == c.N()
    && if |run| == 1 then s' == Initial(c)
       else
         var s := run[|run| - 2];
         IsRun(c, run[..|run| - 1]) && |s.ecus| == c.N() && (PartyStep(c, s, s') || NoiseStep(c, s, s'))
  }

  /** How many steps of a run are the ECUs' and the tester's own. */
  ghost function PartySteps(c: Config, run: seq<Sys>): nat
    requires c.Valid() && IsRun(c, run)
  {
    if |run| <= 1 then 0
    else
      PartySteps(c, run[..|run| - 1]) + if PartyStep(c, run[|run| - 2], run[|run| - 1]) then 1 else 0
  }

  lemma {:induction false} RunKeeps(c: Config, run: seq<Sys>)
    requires c.Valid() && IsRun(c, run)
    ensures Inv(c, run[|run| - 1])
    ensures PartySteps(c, run) + Measure(c, run[|run| - 1])
            <= Weighted(c, Frames(c, c.N())) + Weighted(c, |run| - 1 - PartySteps(c, run))
  {
    hide Inv, PartyStep, NoiseStep, Frames, Measure;
    if |run| == 1 {
      InitialInv(c);
      InitialWork(c);
      NoWeight(c);
    } else {
      var before, s, s' := run[..|run| - 1], run[|run| - 2], run[|run| - 1];
      RunKeeps(c, before);
      if PartyStep(c, s, s') {
        PartyKeeps(c, s, s');
        PartyDecreases(c, s, s');
      } else {
        NoiseKeeps(c, s, s');
        NoiseIncreases(c, s, s');
        var noise := |before| - 1 - PartySteps(c, before);
        assert Weighted(c, noise + 1) == Weighted(c, noise) + 2 * c.N() + 1;
      }
    }
  }

  /** What one ECU's answer has come to. */
  ghost predicate AnswerSafe(c: Config, s: Sys, i: nat)
    requires c.Valid() && i < c.N() == |s.ecus|
  {
    && !s.ecus[i].tx.Failed?
    && (Demux.Share(s.tester.out, c.Id(i)) == [] || Demux.Share(s.tester.out, c.Id(i)) == [c.msgs[i]])
  }

  lemma OneAnswer(c: Config, s: Sys, i: nat)
    requires c.Valid() && Inv(c, s) && i < c.N()
    ensures AnswerSafe(c, s, i)
    ensures Protocol.Complete(c.Pair(i), View(c, s, i)) ==>
              s.ecus[i].started && s.ecus[i].tx == Finished && Demux.Share(s.tester.out, c.Id(i)) == [c.msgs[i]]
  {
    PairInv(c, s, i);
    var v := View(c, s, i);
    hide Legislated, Match, Demux.Share, Protocol.Inv;
    Protocol.Outcomes(c.Pair(i), v);
  }

  /** No failure, for each ECU nothing or its answer, and nothing from anyone else. */
  ghost predicate Safe(c: Config, s: Sys)
    requires c.Valid() && |s.ecus| == c.N()
  {
    && s.tester.err == None
    && (forall i :: 0 <= i < c.N() ==> AnswerSafe(c, s, i))
    && (forall t :: t in s.tester.out ==> exists i :: 0 <= i < c.N() && c.Id(i) == t.id)
  }

  lemma InvSafe(c: Config, s: Sys)
    requires c.Valid() && Inv(c, s) && |s.ecus| == c.N()
    ensures Safe(c, s)
  {
    hide Protocol.Inv, View, AnswerSafe;
    forall i | 0 <= i < c.N() ensures AnswerSafe(c, s, i) {
      OneAnswer(c, s, i);
    }
  }

  /** Neither an ECU nor the tester can step. */
  ghost predicate Stuck(c: Config, s: Sys)
    requires c.Valid() && |s.ecus| == c.N()
  {
    forall s' :: !PartyStep(c, s, s')
  }

  lemma AtRest(c: Config, s: Sys)
    requires c.Valid() && Inv(c, s) && |s.ecus| == c.N() && Stuck(c, s)
    ensures Complete(c, s)
  {
    hide Inv, PartyStep, Protocol.Complete, View, Demux.Share;
    forall i | 0 <= i < c.N()
      ensures s.ecus[i].started && s.ecus[i].tx == Finished && Demux.Share(s.tester.out, c.Id(i)) == [c.msgs[i]]
    {
      OneAnswer(c, s, i);
      if !Protocol.Complete(c.Pair(i), View(c, s, i)) {
        var s' := NoDeadlock(c, s, i);
      }
    }
  }

  /**
   * A broadcast to any number of ECUs, for every interleaving of their senders, the tester
   * and foreign frames: no receiver and no sender ever fails; for each ECU the tester has
   * nothing or exactly that ECU's answer, and nothing from anyone else.
   */
  lemma {:induction false} BroadcastSafe(c: Config, run: seq<Sys>)
    requires c.Valid() && IsRun(c, run)
    ensures Safe(c, run[|run| - 1])
  {
    RunKeeps(c, run);
    hide Inv, PartyStep, NoiseStep, Safe, PartySteps, Frames, Measure, Weighted;
    InvSafe(c, run[|run| - 1]);
  }

  /** The number of steps the ECUs and the tester take is bounded, but for the foreign frames. */
  lemma {:induction false} BroadcastEnds(c: Config, run: seq<Sys>)
    requires c.Valid() && IsRun(c, run)
    ensures PartySteps(c, run) <= Weighted(c, Frames(c, c.N())) + Weighted(c, |run| - 1 - PartySteps(c, run))
  {
    RunKeeps(c, run);
    hide Inv, PartyStep, NoiseStep, PartySteps, Frames, Measure, Weighted;
    MeasureNatural(c, run[|run| - 1]);
  }

  /** When nobody can step any more, every answer has been delivered. */
  lemma {:induction false} BroadcastDelivers(c: Config, run: seq<Sys>)
    requires c.Valid() && IsRun(c, run) && Stuck(c, run[|run| - 1])
    ensures Complete(c, run[|run| - 1])
  {
    RunKeeps(c, run);
    hide Inv, PartyStep, NoiseStep, PartySteps, Frames, Measure, Weighted, Complete;
    AtRest(c, run[|run| - 1]);
  }

  // ------------------------------------------------ what the service layer sees

  lemma {:induction false} ShareMembers(ts: seq<Demux.Tagged>, id: uint32, data: seq<byte>)
    ensures data in Demux.Share(ts, id) <==> Demux.Tagged(id, data) in ts
  {
    if ts != [] {
      ShareMembers(ts[..|ts| - 1], id, data);
      assert ts == ts[..|ts| - 1] + [ts[|ts| - 1]];
    }
  }

  /**
   * When a broadcast is complete, the responses are exactly the ECUs' answers, each from its
   * own identifier: this is what RoundTrip is taken to return above the transport.
   */
  lemma CompleteResponses(c: Config, s: Sys, t: Demux.Tagged)
    requires c.Valid() && |s.ecus| == c.N() && Safe(c, s) && Complete(c, s)
    ensures t in s.tester.out <==> exists i :: 0 <= i < c.N() && t == Demux.Tagged(c.Id(i), c.msgs[i])
  {
    hide Demux.Share, Legislated, Match, AnswerSafe;
    if t in s.tester.out {
      var i :| 0 <= i < c.N() && c.Id(i) == t.id;
      ShareMembers(s.tester.out, t.id, t.data);
      assert Demux.Share(s.tester.out, c.Id(i)) == [c.msgs[i]];
      assert t == Demux.Tagged(c.Id(i), c.msgs[i]);
    }
    if exists i :: 0 <= i < c.N() && t == Demux.Tagged(c.Id(i), c.msgs[i]) {
      var i :| 0 <= i < c.N() && t == Demux.Tagged(c.Id(i), c.msgs[i]);
      ShareMembers(s.tester.out, t.id, t.data);
      assert Demux.Share(s.tester.out, c.Id(i)) == [c.msgs[i]];
    }
  }
}
