/**
 * From the bus to the client: what a broadcast delivers, by can_transport.go and isotp, is
 * what the vehicle of the service layer answers (client.go, ecusim/ecusim.go).
 */
module Delivery {
  import opened Can
  import opened IsoTp
  import opened Obd
  import opened Addresses
  import opened Endpoints
  import opened Simulator
  import opened Sorting
  import opened Vehicles
  import Broadcast
  import Demux
  import Segmentation
  import Transport

  /** An ECU that answers a broadcast. */
  predicate Speaks(e: State, req: seq<byte>)
    requires req != []
  {
    AnswerTo(e, req, true).Some? && Segmentation.Sendable(AnswerTo(e, req, true).value)
  }

  function Speakers(ecus: seq<State>, req: seq<byte>): (r: seq<State>)
    requires req != []
    ensures forall i :: 0 <= i < |r| ==> r[i] in ecus && Speaks(r[i], req)
  {
    if ecus == [] then []
    else
      var e, before := ecus[|ecus| - 1], Speakers(ecus[..|ecus| - 1], req);
      if Speaks(e, req) then before + [e] else before
  }

  /** The broadcast of a request to simulated ECUs, each of which answers as `AnswerTo` says. */
  function ConfigFor(call: Transport.Call, ecus: seq<State>, opts: seq<Options>): Broadcast.Config
    requires call.req != []
  {
    var sp := Speakers(ecus, call.req);
    Broadcast.Config(call,
                     seq(|sp|, i requires 0 <= i < |sp| => sp[i].address),
                     seq(|sp|, i requires 0 <= i < |sp| => AnswerTo(sp[i], call.req, true).value),
                     opts)
  }

  /** ECUs with the addresses of the standard, on the addressing of the call. */
  predicate Addressed(call: Transport.Call, ecus: seq<State>) {
    && call.mode != Auto && call.ecu == 0 && call.req != []
    && forall e :: e in ecus ==> e.extended == call.Extended() && Legislated(e.extended, e.address)
  }

  /** The answering ECUs keep the order of their identifiers. */
  lemma {:induction false} SpeakersValid(ecus: seq<State>, req: seq<byte>)
    requires req != [] && ValidEcus(ecus)
    ensures ValidEcus(Speakers(ecus, req))
    ensures ecus != [] ==> forall i :: 0 <= i < |Speakers(ecus, req)| ==>
                             Speakers(ecus, req)[i].Response() <= ecus[|ecus| - 1].Response()
  {
    hide AnswerTo, Speaks;
    if ecus != [] {
      SpeakersValid(ecus[..|ecus| - 1], req);
    }
  }

  lemma {:induction false} RepliesOfSpeakers(ecus: seq<State>, protocol: Protocol, req: seq<byte>)
    requires req != []
    ensures
      var sp := Speakers(ecus, req);
      Replies(ecus, protocol, req)
      == seq(|sp|, i requires 0 <= i < |sp| => Response(sp[i].Response(), protocol, AnswerTo(sp[i], req, true).value))
  {
    hide AnswerTo;
    if ecus != [] {
      RepliesOfSpeakers(ecus[..|ecus| - 1], protocol, req);
    }
  }

  /** Such a broadcast meets the conditions of the broadcast theorems. */
  lemma ConfigValid(call: Transport.Call, ecus: seq<State>, opts: seq<Options>)
    requires ValidEcus(ecus) && Addressed(call, ecus) && |opts| == |Speakers(ecus, call.req)|
    ensures ConfigFor(call, ecus, opts).Valid()
  {
    var sp := Speakers(ecus, call.req);
    SpeakersValid(ecus, call.req);
    forall i | 0 <= i < |sp|
      ensures Legislated(call.Extended(), sp[i].address)
      ensures Segmentation.Sendable(AnswerTo(sp[i], call.req, true).value)
              && call.Keeps(AnswerTo(sp[i], call.req, true).value)
    {
      SpeakerAnswers(call, ecus, i);
    }
    forall i, j | 0 <= i < j < |sp| ensures sp[i].address != sp[j].address {
      AddressesDiffer(call, ecus, i, j);
    }
    hide Legislated, AnswerTo, Speakers, Speaks, ValidEcus;
  }

  lemma SpeakerAnswers(call: Transport.Call, ecus: seq<State>, i: nat)
    requires Addressed(call, ecus) && i < |Speakers(ecus, call.req)|
    ensures
      var e := Speakers(ecus, call.req)[i];
      && Legislated(call.Extended(), e.address) && AnswerTo(e, call.req, true).Some?
      && Segmentation.Sendable(AnswerTo(e, call.req, true).value) && call.Keeps(AnswerTo(e, call.req, true).value)
  {
    hide Legislated, AnswerTo;
    AnswersItsRequest(Speakers(ecus, call.req)[i], call.req, true);
  }

  lemma AddressesDiffer(call: Transport.Call, ecus: seq<State>, i: nat, j: nat)
    requires Addressed(call, ecus) && ValidEcus(Speakers(ecus, call.req)) && i < j < |Speakers(ecus, call.req)|
    ensures Speakers(ecus, call.req)[i].address != Speakers(ecus, call.req)[j].address
  {
    hide Legislated, AnswerTo;
    var sp := Speakers(ecus, call.req);
    assert sp[i].Response() < sp[j].Response();
  }

  lemma {:induction false} ResponsesAt(call: Transport.Call, out: seq<Demux.Tagged>)
    ensures |Transport.Responses(call, out)| == |out|
    ensures forall i :: 0 <= i < |out| ==>
              Transport.Responses(call, out)[i] == Response(out[i].id, call.On(), out[i].data)
  {
    if out != [] {
      ResponsesAt(call, out[..|out| - 1]);
    }
  }

  /** Two entries of one identifier make its share at least two long. */
  lemma {:induction false} ShareTwice(ts: seq<Demux.Tagged>, i: nat, j: nat)
    requires i < j < |ts| && ts[i].id == ts[j].id
    ensures |Demux.Share(ts, ts[i].id)| >= 2
  {
    var last := |ts| - 1;
    if j < last {
      ShareTwice(ts[..last], i, j);
    } else {
      Broadcast.ShareMembers(ts[..last], ts[i].id, ts[i].data);
      assert ts[..last][i] == ts[i];
    }
  }

  /**
   * The bridge to the service layer: when a broadcast to simulated ECUs is complete, the
   * responses that the transport has are the replies of the vehicle, each exactly once.
   */
  lemma CompleteIsReplies(call: Transport.Call, ecus: seq<State>, opts: seq<Options>, s: Broadcast.Sys)
    requires ValidEcus(ecus) && Addressed(call, ecus) && |opts| == |Speakers(ecus, call.req)|
    requires
      var c := ConfigFor(call, ecus, opts);
      c.Valid() && |s.ecus| == c.N() && Broadcast.Safe(c, s) && Broadcast.Complete(c, s)
    ensures multiset(Transport.Responses(call, s.tester.out)) == multiset(Replies(ecus, call.On(), call.req))
  {
    var c, out := ConfigFor(call, ecus, opts), s.tester.out;
    var rs, replies := Transport.Responses(call, out), Replies(ecus, call.On(), call.req);
    ResponsesAt(call, out);
    RepliesOfSpeakers(ecus, call.On(), call.req);
    RepliesSorted(ecus, call.On(), call.req);
    OncePerEcu(c, s);
    hide Replies, Legislated, AnswerTo, Transport.Responses, Broadcast.Safe, Broadcast.Complete;
    forall i, j | 0 <= i < j < |rs| ensures EcuOf()(rs[i]) != EcuOf()(rs[j]) {
      assert out[i].id != out[j].id;
    }
    forall r: Response ensures r in rs <==> r in replies {
      SameResponse(c, s, call, rs, replies, r);
    }
    SortMultiset(EcuOf(), rs);
    SortUnique(EcuOf(), rs, replies);
  }

  lemma OncePerEcu(c: Broadcast.Config, s: Broadcast.Sys)
    requires c.Valid() && |s.ecus| == c.N() && Broadcast.Safe(c, s) && Broadcast.Complete(c, s)
    ensures forall i, j :: 0 <= i < j < |s.tester.out| ==> s.tester.out[i].id != s.tester.out[j].id
  {
    var out := s.tester.out;
    hide Demux.Share, Legislated;
    forall i, j | 0 <= i < j < |out| ensures out[i].id != out[j].id {
      assert out[i] in out;
      var k :| 0 <= k < c.N() && c.Id(k) == out[i].id;
      if out[i].id == out[j].id {
        ShareTwice(out, i, j);
      }
    }
  }

  lemma SameResponse(c: Broadcast.Config, s: Broadcast.Sys, call: Transport.Call, rs: seq<Response>,
                     replies: seq<Response>, r: Response)
    requires c.Valid() && |s.ecus| == c.N() && Broadcast.Safe(c, s) && Broadcast.Complete(c, s)
    requires |rs| == |s.tester.out|
    requires forall i :: 0 <= i < |rs| ==> rs[i] == Response(s.tester.out[i].id, call.On(), s.tester.out[i].data)
    requires |replies| == c.N()
    requires forall i :: 0 <= i < |replies| ==> replies[i] == Response(c.Id(i), call.On(), c.msgs[i])
    ensures r in rs <==> r in replies
  {
    var out := s.tester.out;
    var t := Demux.Tagged(r.ecu, r.data);
    Broadcast.CompleteResponses(c, s, t);
    hide Broadcast.Safe, Broadcast.Complete, Legislated;
    if r in rs {
      var i :| 0 <= i < |rs| && rs[i] == r;
      assert t == out[i];
      var j :| 0 <= j < c.N() && t == Demux.Tagged(c.Id(j), c.msgs[j]);
      assert replies[j] == r;
    }
    if r in replies {
      var j :| 0 <= j < |replies| && replies[j] == r;
      assert t == Demux.Tagged(c.Id(j), c.msgs[j]);
      var i :| 0 <= i < |out| && out[i] == t;
      assert rs[i] == r;
    }
  }

  // ---------------------------------------------------------------- the tester's log

  /** The frames that a log says were received. */
  function GotFrames(log: seq<Event>): seq<Frame> {
    if log == [] then []
    else
      var e, before := log[|log| - 1], GotFrames(log[..|log| - 1]);
      if e.Got? then before + [e.frame] else before
  }

  /** The frames that the tester takes from its queue over a run: only these steps make it shorter. */
  function Taken(run: seq<Broadcast.Sys>): seq<Frame> {
    if |run| <= 1 then []
    else
      var s, s', before := run[|run| - 2], run[|run| - 1], Taken(run[..|run| - 1]);
      if |s'.queue| < |s.queue| then before + [s.queue[0]] else before
  }

  /** One step of the tester in the broadcast is one frame more in the transport's log. */
  lemma ListenIsHear(c: Broadcast.Config, s: Broadcast.Sys, log: seq<Event>, at: int)
    requires Broadcast.CanListen(c, s) && s.tester == Transport.After(c.call, log)
    ensures Broadcast.DoListen(c, s).tester == Transport.After(c.call, log + [Got(at, s.queue[0])])
    ensures |Broadcast.DoListen(c, s).queue| < |s.queue|
  {
    hide FeedStep, Match, Transport.Hearing, Transport.Dues;
    Transport.LogSnoc(c.call, log, Got(at, s.queue[0]));
  }

  /** All other steps leave the tester as it is. */
  lemma OthersDoNotListen(c: Broadcast.Config, s: Broadcast.Sys, s': Broadcast.Sys)
    requires c.Valid() && |s.ecus| == c.N() && (Broadcast.PartyStep(c, s, s') || Broadcast.NoiseStep(c, s, s'))
    ensures |s'.queue| >= |s.queue| ==> s'.tester == s.tester
    ensures |s'.queue| < |s.queue| ==> Broadcast.CanListen(c, s) && s' == Broadcast.DoListen(c, s)
  {
    hide Legislated, Transport.Call.Keeps, Broadcast.Config.Pair;
    if Broadcast.CanListen(c, s) && s' == Broadcast.DoListen(c, s) {
      ListenShortens(c, s);
    }
  }

  lemma ListenShortens(c: Broadcast.Config, s: Broadcast.Sys)
    requires Broadcast.CanListen(c, s)
    ensures |Broadcast.DoListen(c, s).queue| < |s.queue|
  {
    hide FeedStep, Match;
  }

  lemma SnocSame<T>(a: seq<T>, x: T, b: seq<T>, y: T)
    requires a + [x] == b + [y]
    ensures a == b && x == y
  {
    assert (a + [x])[|a|] == x && (b + [y])[|b|] == y;
    assert a == (a + [x])[..|a|] && b == (b + [y])[..|b|];
  }

  /**
   * The tester of the broadcast is the transport that listens: over every run, its state is
   * the one that the transport's log gives, for any log that has the frames it took.
   */
  lemma {:induction false} TesterIsTransport(c: Broadcast.Config, run: seq<Broadcast.Sys>, log: seq<Event>)
    requires c.Valid() && Broadcast.IsRun(c, run) && GotFrames(log) == Taken(run)
    ensures run[|run| - 1].tester == Transport.After(c.call, log)
    decreases |run| + |log|
  {
    hide Broadcast.PartyStep, Broadcast.NoiseStep, Broadcast.DoListen, Transport.After, Broadcast.Config.Valid;
    if log != [] && !log[|log| - 1].Got? {
      var before, e := log[..|log| - 1], log[|log| - 1];
      TesterIsTransport(c, run, before);
      assert log == before + [e];
      Transport.OtherEvent(c.call, before, e);
    } else if |run| == 1 {
      Transport.NothingHeard(c.call);
    } else {
      var s, s' := run[|run| - 2], run[|run| - 1];
      OthersDoNotListen(c, s, s');
      if |s'.queue| < |s.queue| {
        var before, e := log[..|log| - 1], log[|log| - 1];
        SnocSame(GotFrames(before), e.frame, Taken(run[..|run| - 1]), s.queue[0]);
        TesterIsTransport(c, run[..|run| - 1], before);
        ListenIsHear(c, s, before, e.at);
        assert log == before + [e];
      } else {
        TesterIsTransport(c, run[..|run| - 1], log);
      }
    }
  }

  /**
   * Over every run of a broadcast to simulated ECUs that has come to rest, whatever log the
   * transport has of the frames it took, its responses are the replies that the client's
   * services are proved on.
   */
  lemma {:induction false} RunIsReplies(call: Transport.Call, ecus: seq<State>, opts: seq<Options>,
                                        run: seq<Broadcast.Sys>, log: seq<Event>)
    requires ValidEcus(ecus) && Addressed(call, ecus) && |opts| == |Speakers(ecus, call.req)|
    requires
      var c := ConfigFor(call, ecus, opts);
      c.Valid() && Broadcast.IsRun(c, run) && Broadcast.Stuck(c, run[|run| - 1])
    requires GotFrames(log) == Taken(run)
    ensures
      var heard := Transport.After(call, log);
      && heard.err == None
      && multiset(Transport.Responses(call, heard.out)) == multiset(Replies(ecus, call.On(), call.req))
  {
    var c := ConfigFor(call, ecus, opts);
    TesterIsTransport(c, run, log);
    Broadcast.BroadcastSafe(c, run);
    Broadcast.BroadcastDelivers(c, run);
    hide Broadcast.Safe, Broadcast.Complete, Broadcast.PartyStep, Broadcast.NoiseStep, Broadcast.Stuck, Replies,
         Transport.Responses, ConfigFor;
    CompleteIsReplies(call, ecus, opts, run[|run| - 1]);
  }
}
