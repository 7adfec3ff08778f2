/** One endpoint of a CAN bus as isotp/conn.go uses it: a clock, the frames to come, and a log. */
module Endpoints {
  import opened Can

  /**
   * What Receive will meet next: a frame that reaches the endpoint at a time, or a failure
   * of the bus or the context.
   */
  datatype Arrival = Incoming(at: int, frame: Frame) | Failing(at: int)

  /** What happened on the endpoint, in order. */
  datatype Event =
    | Sent(at: int, frame: Frame)
    | Got(at: int, frame: Frame)
    | Expired(at: int)
    | Broken(at: int)

  datatype Received = Delivered(frame: Frame) | DeadlineExceeded | BusFailed

  /** The frames sent according to a log, in order. */
  function SentFrames(log: seq<Event>): seq<Frame> {
    if log == [] then []
    else
      var e, before := log[|log| - 1], SentFrames(log[..|log| - 1]);
      if e.Sent? then before + [e.frame] else before
  }

  /** The time of the last event of a log that begins at time `from`. */
  function TimeOf(from: int, log: seq<Event>): int {
    if log == [] then from else log[|log| - 1].at
  }

  /** The last thing that happened is a failure of the bus or the context. */
  predicate EndsBroken(log: seq<Event>) {
    log != [] && log[|log| - 1].Broken?
  }

  lemma {:induction false} SentFramesAppend(a: seq<Event>, b: seq<Event>)
    ensures SentFrames(a + b) == SentFrames(a) + SentFrames(b)
  {
    if b == [] {
      assert a + b == a;
    } else {
      assert (a + b)[..|a + b| - 1] == a + b[..|b| - 1];
      SentFramesAppend(a, b[..|b| - 1]);
    }
  }

  class Endpoint {
    var now: int
    var inbox: seq<Arrival>
    var log: seq<Event>

    /** Sending takes no time. It may fail. */
    method Send(f: Frame) returns (ok: bool)
      modifies this`log
      ensures log == old(log) + [if ok then Sent(now, f) else Broken(now)]
    {
      if * {
        ok, log := true, log + [Sent(now, f)];
      } else {
        ok, log := false, log + [Broken(now)];
      }
    }

    /** A frame that is already queued is delivered even when the deadline has passed. */
    method Receive(deadline: Option<int>) returns (r: Received)
      modifies this
      ensures old(now) <= now
      ensures deadline.Some? ==> now <= Max(old(now), deadline.value)
      ensures r.Delivered? ==>
                && log == old(log) + [Got(now, r.frame)]
                && |inbox| < |old(inbox)|
      ensures r.DeadlineExceeded? ==>
                && deadline.Some? && now == Max(old(now), deadline.value)
                && log == old(log) + [Expired(now)]
      ensures r.BusFailed? ==> log == old(log) + [Broken(now)]
    {
      if inbox == [] || (deadline.Some? && inbox[0].at > Max(now, deadline.value)) {
        if deadline.Some? {
          now := Max(now, deadline.value);
          log := log + [Expired(now)];
          return DeadlineExceeded;
        }
        log := log + [Broken(now)];
        return BusFailed;
      }
      var next := inbox[0];
      inbox := inbox[1..];
      now := Max(now, next.at);
      match next {
        case Incoming(_, f) =>
          log := log + [Got(now, f)];
          return Delivered(f);
        case Failing(_) =>
          log := log + [Broken(now)];
          return BusFailed;
      }
    }

    /** Sleeping may be cut short by the context. */
    method Sleep(d: nat) returns (ok: bool)
      modifies this
      ensures inbox == old(inbox)
      ensures ok ==> now == old(now) + d && log == old(log)
      ensures !ok ==> old(now) <= now <= old(now) + d && log == old(log) + [Broken(now)]
    {
      if * {
        now := now + d;
        ok := true;
      } else {
        var slept: nat :| slept <= d;
        now := now + slept;
        log := log + [Broken(now)];
        ok := false;
      }
    }
  }
}
