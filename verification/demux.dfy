/**
 * One Receiver per identifier, fed by an interleaving of several senders: what
 * can_transport.go (roundTrip) and elm327/elm327.go (parseCAN) have in common.
 */
module Demux {
  import opened Can
  import opened IsoTp

  /** The payload of a frame, with the identifier that carried it. */
  datatype Heard = Heard(id: uint32, p: seq<byte>)

  /** A message or a flow control payload, with the identifier of the sender it belongs to. */
  datatype Tagged = Tagged(id: uint32, data: seq<byte>)

  /** The receivers by identifier, the kept messages and the flow controls so far, and the first error. */
  datatype State = State(rx: map<uint32, RxState>, out: seq<Tagged>, fcs: seq<Tagged>, err: Option<(uint32, Error)>)
  {
    predicate Valid() {
      forall id :: id in rx ==> RxValid(rx[id])
    }

    function At(id: uint32): RxState {
      if id in rx then rx[id] else IDLE
    }
  }

  const EMPTY := State(map[], [], [], None)

  /** Which complete messages a caller keeps. */
  type Keep = seq<byte> -> bool

  /** One frame. After an error nothing more happens. */
  function Step(opt: Options, keep: Keep, s: State, h: Heard): (s': State)
    requires s.Valid()
    ensures s'.Valid()
  {
    if s.err.Some? then s else Take(keep, s, h.id, FeedStep(opt, s.At(h.id), h.p))
  }

  /** What the result of one Feed does to the state. */
  function Take(keep: Keep, s: State, id: uint32, fed: (RxState, Fed)): (s': State)
    requires s.Valid() && RxValid(fed.0)
    ensures s'.Valid()
  {
    State(s.rx[id := fed.0],
          if fed.1.msg.Some? && keep(fed.1.msg.value) then s.out + [Tagged(id, fed.1.msg.value)] else s.out,
          if fed.1.fc.Some? then s.fcs + [Tagged(id, fed.1.fc.value)] else s.fcs,
          if fed.1.err.Some? then Some((id, fed.1.err.value)) else None)
  }

  function Run(opt: Options, keep: Keep, hs: seq<Heard>): (s: State)
    ensures s.Valid()
  {
    if hs == [] then EMPTY else Step(opt, keep, Run(opt, keep, hs[..|hs| - 1]), hs[|hs| - 1])
  }

  lemma RunSnoc(opt: Options, keep: Keep, hs: seq<Heard>, h: Heard)
    ensures Run(opt, keep, hs + [h]) == Step(opt, keep, Run(opt, keep, hs), h)
  {
    assert (hs + [h])[..|hs|] == hs;
  }

  // ------------------------------------------------ one identifier's share

  /** The payloads that one identifier carried. */
  function Carried(hs: seq<Heard>, id: uint32): seq<seq<byte>> {
    if hs == [] then []
    else
      var h, before := hs[|hs| - 1], Carried(hs[..|hs| - 1], id);
      if h.id == id then before + [h.p] else before
  }

  /** What a list of tagged data holds for one identifier. */
  function Share(ts: seq<Tagged>, id: uint32): seq<seq<byte>> {
    if ts == [] then []
    else
      var t, before := ts[|ts| - 1], Share(ts[..|ts| - 1], id);
      if t.id == id then before + [t.data] else before
  }

  lemma ShareSnoc(ts: seq<Tagged>, t: Tagged, id: uint32)
    ensures Share(ts + [t], id) == if t.id == id then Share(ts, id) + [t.data] else Share(ts, id)
  {
    assert (ts + [t])[..|ts|] == ts;
  }

  /** The kept messages among the results of a single Receiver. */
  function Kept(keep: Keep, outs: seq<Fed>): seq<seq<byte>> {
    if outs == [] then []
    else
      var out, before := outs[|outs| - 1], Kept(keep, outs[..|outs| - 1]);
      if out.msg.Some? && keep(out.msg.value) then before + [out.msg.value] else before
  }

  /** The flow controls among the results of a single Receiver. */
  function Controls(outs: seq<Fed>): seq<seq<byte>> {
    if outs == [] then []
    else
      var out, before := outs[|outs| - 1], Controls(outs[..|outs| - 1]);
      if out.fc.Some? then before + [out.fc.value] else before
  }

  predicate ErrorFree(outs: seq<Fed>) {
    forall i :: 0 <= i < |outs| ==> outs[i].err.None?
  }

  /** A single Receiver on what one identifier carried. */
  function Alone(opt: Options, hs: seq<Heard>, id: uint32): (RxState, seq<Fed>) {
    Feeds(opt, IDLE, Carried(hs, id))
  }

  lemma AloneSnoc(opt: Options, keep: Keep, hs: seq<Heard>, h: Heard, id: uint32)
    ensures h.id != id ==> Alone(opt, hs + [h], id) == Alone(opt, hs, id)
    ensures h.id == id ==>
              var (s, outs) := Alone(opt, hs, id);
              var (s', out) := FeedStep(opt, s, h.p);
              && Alone(opt, hs + [h], id) == (s', outs + [out])
              && Kept(keep, outs + [out])
                 == (if out.msg.Some? && keep(out.msg.value) then Kept(keep, outs) + [out.msg.value]
                     else Kept(keep, outs))
              && Controls(outs + [out])
                 == (if out.fc.Some? then Controls(outs) + [out.fc.value] else Controls(outs))
              && (ErrorFree(outs + [out]) <==> ErrorFree(outs) && out.err.None?)
  {
    hide FeedStep;
    assert (hs + [h])[..|hs|] == hs;
    if h.id == id {
      FeedsSnoc(opt, IDLE, Carried(hs, id), h.p);
      var (s, outs) := Alone(opt, hs, id);
      var out := FeedStep(opt, s, h.p).1;
      assert (outs + [out])[..|outs|] == outs;
      ErrorFreeSnoc(outs, out);
    }
  }

  lemma ErrorFreeSnoc(outs: seq<Fed>, out: Fed)
    ensures ErrorFree(outs + [out]) <==> ErrorFree(outs) && out.err.None?
  {
    if ErrorFree(outs + [out]) {
      assert (outs + [out])[|outs|] == out;
      forall i | 0 <= i < |outs| ensures outs[i].err.None? {
        assert (outs + [out])[i] == outs[i];
      }
    }
  }

  /** The demultiplexed run, seen by one identifier, is that identifier's own run. */
  ghost predicate Agrees(opt: Options, keep: Keep, hs: seq<Heard>, id: uint32) {
    var s := Run(opt, keep, hs);
    var (rx, outs) := Alone(opt, hs, id);
    && s.At(id) == rx && Share(s.out, id) == Kept(keep, outs) && Share(s.fcs, id) == Controls(outs)
    && ErrorFree(outs)
  }

  /**
   * Demultiplexing independence: while no Feed fails, the state, the messages and the flow
   * controls that the run has for an identifier are those of a single Receiver on that
   * identifier's own frames.
   */
  lemma {:induction false} Independent(opt: Options, keep: Keep, hs: seq<Heard>, id: uint32)
    requires Run(opt, keep, hs).err == None
    ensures Agrees(opt, keep, hs, id)
  {
    if hs != [] {
      hide FeedStep, Feeds, Kept, Controls, Share, Carried, RxValid, Alone, Run;
      var before, h := hs[..|hs| - 1], hs[|hs| - 1];
      assert hs == before + [h];
      RunSnoc(opt, keep, before, h);
      Independent(opt, keep, before, id);
      AloneSnoc(opt, keep, before, h, id);
      var s, fed := Run(opt, keep, before), FeedStep(opt, Run(opt, keep, before).At(h.id), h.p).1;
      if fed.msg.Some? {
        ShareSnoc(s.out, Tagged(h.id, fed.msg.value), id);
      }
      if fed.fc.Some? {
        ShareSnoc(s.fcs, Tagged(h.id, fed.fc.value), id);
      }
    } else {
      assert Alone(opt, hs, id) == (IDLE, []);
    }
  }

  /** A run fails exactly when some identifier's own run does. */
  lemma {:induction false} FailsTogether(opt: Options, keep: Keep, hs: seq<Heard>)
    ensures Run(opt, keep, hs).err == None <==> forall id: uint32 :: ErrorFree(Alone(opt, hs, id).1)
  {
    if hs != [] {
      hide FeedStep, Feeds, Kept, Controls, Share, Carried, RxValid, Alone, Run, ErrorFree;
      var before, h := hs[..|hs| - 1], hs[|hs| - 1];
      assert hs == before + [h];
      RunSnoc(opt, keep, before, h);
      FailsTogether(opt, keep, before);
      forall id: uint32
        ensures ErrorFree(Alone(opt, hs, id).1) ==> ErrorFree(Alone(opt, before, id).1)
        ensures ErrorFree(Alone(opt, before, id).1) && id != h.id ==> ErrorFree(Alone(opt, hs, id).1)
      {
        AloneSnoc(opt, keep, before, h, id);
      }
      if Run(opt, keep, before).err == None {
        Independent(opt, keep, before, h.id);
        AloneSnoc(opt, keep, before, h, h.id);
      }
    } else {
      forall id: uint32 ensures ErrorFree(Alone(opt, hs, id).1) {
        assert Alone(opt, hs, id) == (IDLE, []);
      }
    }
  }

  /**
   * Any two interleavings in which each identifier carries the same frames in the same
   * order either both fail, or give every identifier the same messages and flow controls.
   */
  lemma InterleavingsAgree(opt: Options, keep: Keep, hs: seq<Heard>, gs: seq<Heard>)
    requires forall id: uint32 :: Carried(hs, id) == Carried(gs, id)
    ensures
      var s, t := Run(opt, keep, hs), Run(opt, keep, gs);
      && (s.err == None <==> t.err == None)
      && (s.err == None ==> forall id: uint32 ::
            s.At(id) == t.At(id) && Share(s.out, id) == Share(t.out, id) && Share(s.fcs, id) == Share(t.fcs, id))
  {
    hide Run, Feeds, Carried, Kept, Controls, Share;
    FailsTogether(opt, keep, hs);
    FailsTogether(opt, keep, gs);
    forall id: uint32 ensures Alone(opt, hs, id) == Alone(opt, gs, id) {
    }
    if Run(opt, keep, hs).err == None {
      var s, t := Run(opt, keep, hs), Run(opt, keep, gs);
      forall id: uint32
        ensures s.At(id) == t.At(id) && Share(s.out, id) == Share(t.out, id) && Share(s.fcs, id) == Share(t.fcs, id)
      {
        Independent(opt, keep, hs, id);
        Independent(opt, keep, gs, id);
      }
    }
  }

  /** Messages come out in completion order: what a prefix of the frames gives is a prefix of the whole. */
  lemma {:induction false} CompletionOrder(opt: Options, keep: Keep, hs: seq<Heard>, more: seq<Heard>)
    ensures Run(opt, keep, hs).out <= Run(opt, keep, hs + more).out
  {
    if more == [] {
      assert hs + more == hs;
    } else {
      hide FeedStep;
      CompletionOrder(opt, keep, hs, more[..|more| - 1]);
      assert hs + more == hs + more[..|more| - 1] + [more[|more| - 1]];
      RunSnoc(opt, keep, hs + more[..|more| - 1], more[|more| - 1]);
    }
  }
}
