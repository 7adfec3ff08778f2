/** Prompt framing and resynchronization of an ELM327 adapter (elm327/elm327.go). */
module Elm327 {
  import opened Can
  import Seqs

  const PROMPT := '>'

  datatype Error = Cancelled | Broken | WriteFailed

  // ---------------------------------------------------------------- lines

  predicate IsBreak(c: char) {
    c == '\r' || c == '\n'
  }

  predicate IsSpace(c: char) {
    c == ' ' || '\t' <= c <= '\r'
  }

  function TrimLeft(s: string): string {
    if s != [] && IsSpace(s[0]) then TrimLeft(s[1..]) else s
  }

  function TrimRight(s: string): string {
    if s != [] && IsSpace(s[|s| - 1]) then TrimRight(s[..|s| - 1]) else s
  }

  /** The finished lines and the line in progress of some output. */
  function Split(out: string): (seq<string>, string) {
    if out == [] then ([], [])
    else
      var (done, line) := Split(out[..|out| - 1]);
      var c := out[|out| - 1];
      if IsBreak(c) then (done + [line], []) else (done, line + [c])
  }

  /** A line as it counts: trimmed, and neither empty nor the echo of the command. */
  function Kept(cmd: string, line: string): seq<string> {
    var l := TrimRight(TrimLeft(line));
    if l != [] && l != cmd then [l] else []
  }

  function KeptAll(cmd: string, lines: seq<string>): seq<string> {
    if lines == [] then [] else KeptAll(cmd, lines[..|lines| - 1]) + Kept(cmd, lines[|lines| - 1])
  }

  /** The lines of an answer. */
  function LinesOf(cmd: string, out: string): seq<string> {
    var (done, line) := Split(out);
    KeptAll(cmd, done) + Kept(cmd, line)
  }

  // ---------------------------------------------------------------- the stream

  /** Position of the first prompt, or -1. */
  function Find(s: string): (i: int)
    ensures -1 <= i < |s|
    ensures i >= 0 ==> s[i] == PROMPT && PROMPT !in s[..i]
    ensures i < 0 ==> PROMPT !in s
  {
    if s == [] then -1
    else if s[0] == PROMPT then 0
    else
      var i := Find(s[1..]);
      assert s == [s[0]] + s[1..];
      if i < 0 then -1
      else
        assert s[..i + 1] == [s[0]] + s[1..][..i];
        i + 1
  }

  /**
   * The adapter object and its stream: what it has read but not used, whether a command was
   * abandoned, what is still to come, whether reading works, and all that was ever written.
   */
  datatype State = State(buf: string, dirty: bool, stream: string, alive: bool, sent: string)
  {
    /** All that has come from the adapter or is still to come for the commands it was sent. */
    function Pending(): string {
      buf + stream
    }
  }

  /** readPrompt returned `out`. */
  predicate ReadsOut(s: State, s': State, out: string) {
    && PROMPT !in out
    && s.Pending() == out + [PROMPT] + s'.Pending()
    && s'.dirty == s.dirty && s'.alive == s.alive && s'.sent == s.sent && |s'.stream| <= |s.stream|
  }

  /** readPrompt gave up, without having read a prompt: cancelled, or because the stream ended early. */
  predicate GivesUp(s: State, s': State, e: Error) {
    && PROMPT !in s'.buf && s'.dirty == s.dirty && s'.sent == s.sent
    && match e
       case Cancelled => s'.Pending() == s.Pending() && s'.alive == s.alive && |s'.stream| <= |s.stream|
       case Broken => s'.buf <= s.Pending() && s'.stream == [] && !s'.alive
       case WriteFailed => false
  }

  /** drain: the buffer and some of what has arrived is thrown away. */
  predicate Drains(s: State, s': State) {
    && s'.buf == [] && s'.dirty == s.dirty && s'.sent == s.sent && (s'.alive ==> s.alive)
    && (if s'.alive then exists k :: 0 <= k <= |s.stream| && s'.stream == s.stream[k..] else s'.stream == [])
  }

  /** One command: perhaps a resynchronization that may give up, then drain, write, read. */
  datatype Steps = Steps(start: State, resynced: State, gaveUp: bool, drained: State, written: State, end: State)

  /** What goes out for a command. */
  function Line(cmd: string): string {
    cmd + "\r"
  }

  /** The command has been written; the adapter prints its answer after that, and ends it with one prompt. */
  function Written(s: State, cmd: string, answer: string): State {
    var w := s.(sent := s.sent + Line(cmd));
    if s.alive then w.(stream := s.stream + answer + [PROMPT]) else w
  }

  ghost predicate Resyncs(s: State, s': State, gaveUp: bool) {
    if !s.dirty then s' == s && !gaveUp
    else exists t: State ::
           && s' == t.(dirty := false)
           && (if gaveUp then GivesUp(s, t, Cancelled) || GivesUp(s, t, Broken)
               else exists out :: ReadsOut(s, t, out))
  }

  /** The wait for an abandoned command's prompt ended before the prompt came. */
  predicate TimedOut(x: Steps) {
    x.gaveUp && x.resynced.alive
  }

  /** Output of an abandoned command is still to come when the next command is written. */
  predicate Late(x: Steps) {
    x.drained.stream != []
  }

  /** What command does, and what it returns. */
  ghost predicate Commands(cmd: string, answer: string, x: Steps, r: Result<seq<string>, Error>) {
    && Resyncs(x.start, x.resynced, x.gaveUp)
    && Drains(x.resynced, x.drained)
    && match r
       case Ok(lines) =>
         && x.written == Written(x.drained, cmd, answer)
         && exists out :: ReadsOut(x.written, x.end, out) && lines == LinesOf(cmd, out)
       case Err(WriteFailed) => x.written == x.drained == x.end
       case Err(e) =>
         && x.written == Written(x.drained, cmd, answer)
         && exists t: State :: GivesUp(x.written, t, e) && x.end == t.(dirty := true)
  }

  /**
   * In step: nothing is pending, or exactly the rest of an abandoned command's answer with
   * its one prompt. Once the stream is broken there is no prompt any more.
   */
  predicate InStep(s: State) {
    if !s.alive then s.stream == [] && PROMPT !in s.buf
    else if s.dirty then Find(s.Pending()) == |s.Pending()| - 1 >= 0
    else s.Pending() == []
  }

  // ---------------------------------------------------------------- splitting

  lemma {:induction false} FindAt(a: string, b: string)
    requires PROMPT !in a
    ensures Find(a + [PROMPT] + b) == |a|
  {
    var s := a + [PROMPT] + b;
    if a != [] {
      assert s[1..] == a[1..] + [PROMPT] + b;
      FindAt(a[1..], b);
    }
  }

  /** The first prompt splits a text in exactly one way. */
  lemma FirstPrompt(a: string, b: string, c: string, d: string)
    requires PROMPT !in a && PROMPT !in c && a + [PROMPT] + b == c + [PROMPT] + d
    ensures a == c && b == d
  {
    var s := a + [PROMPT] + b;
    FindAt(a, b);
    FindAt(c, d);
    assert a == s[..|a|] && c == s[..|c|];
    assert b == s[|a| + 1..] && d == s[|c| + 1..];
  }

  /** A text with exactly one prompt, at its end. */
  lemma OnePrompt(a: string)
    requires PROMPT !in a
    ensures Find(a + [PROMPT]) == |a| == |a + [PROMPT]| - 1
  {
    FindAt(a, []);
    assert a + [PROMPT] + [] == a + [PROMPT];
  }

  /** However the stream is cut into chunks, readPrompt returns the same text and leaves the same rest. */
  lemma ChunkingIrrelevant(s: State, t: State, a: State, b: State, outA: string, outB: string)
    requires s.Pending() == t.Pending() && ReadsOut(s, a, outA) && ReadsOut(t, b, outB)
    ensures outA == outB && a.Pending() == b.Pending()
  {
    FirstPrompt(outA, a.Pending(), outB, b.Pending());
  }

  lemma OnePromptReads(s: string, out: string, rest: string)
    requires Find(s) == |s| - 1 >= 0 && PROMPT !in out && s == out + [PROMPT] + rest
    ensures rest == [] && out == s[..|s| - 1]
  {
    hide Find;
    FindAt(out, rest);
    assert |s| == |out| + 1 + |rest|;
  }

  // ---------------------------------------------------------------- pairing

  /**
   * Resynchronizing in step: either nothing is left behind, or it timed out, and what is left
   * is the end of the abandoned answer with its one prompt.
   */
  lemma Resynced(s: State, s': State, gaveUp: bool)
    requires InStep(s) && Resyncs(s, s', gaveUp)
    ensures !s'.dirty && s'.sent == s.sent
    ensures !s'.alive ==> s'.stream == [] && PROMPT !in s'.buf
    ensures s'.alive ==> s'.Pending() == [] || (gaveUp && Find(s'.Pending()) == |s'.Pending()| - 1)
    ensures s'.alive && gaveUp ==> PROMPT !in s'.buf
  {
    if s.dirty {
      var t: State :| s' == t.(dirty := false)
                      && (if gaveUp then GivesUp(s, t, Cancelled) || GivesUp(s, t, Broken)
                          else exists out :: ReadsOut(s, t, out));
      assert s'.Pending() == t.Pending();
      if gaveUp {
        if GivesUp(s, t, Cancelled) && !s.alive {
          assert s.stream == [];
        }
      } else {
        var out :| ReadsOut(s, t, out);
        if s.alive {
          OnePromptReads(s.Pending(), out, t.Pending());
        } else {
          BrokenHasNone(s);
          HasPrompt(out, t.Pending());
        }
      }
    }
  }

  /** The end of a text with one prompt has that prompt only. */
  lemma SuffixPrompt(p: string, k: nat) returns (late: string)
    requires Find(p) == |p| - 1 && k < |p|
    ensures PROMPT !in late && p[k..] == late + [PROMPT] && Find(p[k..]) == |p[k..]| - 1
  {
    late := p[..|p| - 1][k..];
    assert p[k..] == late + [PROMPT];
    OnePrompt(late);
  }

  /** After draining, what is still to come is nothing, or ends with the abandoned command's one prompt. */
  lemma DrainedInStep(s: State, s': State) returns (late: string)
    requires Drains(s, s') && (s.alive ==> s.Pending() == [] || Find(s.Pending()) == |s.Pending()| - 1)
    ensures s'.stream != [] ==> s'.alive && PROMPT !in late && s'.stream == late + [PROMPT]
  {
    hide Find;
    late := [];
    if s'.stream != [] {
      var k :| 0 <= k <= |s.stream| && s'.stream == s.stream[k..];
      SuffixOfJoin(s.buf, s.stream, k);
      late := SuffixPrompt(s.Pending(), |s.buf| + k);
    }
  }

  lemma SuffixOfJoin(a: string, b: string, k: nat)
    requires k <= |b|
    ensures (a + b)[|a| + k..] == b[k..]
  {
  }

  lemma BrokenHasNone(s: State)
    requires InStep(s) && !s.alive
    ensures PROMPT !in s.Pending()
  {
    assert s.Pending() == s.buf;
  }

  lemma HasPrompt(out: string, rest: string)
    ensures PROMPT in out + [PROMPT] + rest
  {
    assert (out + [PROMPT] + rest)[|out|] == PROMPT;
  }

  /** What is pending once a command is written: the late output before the answer, if there is any. */
  lemma WrittenPending(s: State, cmd: string, answer: string)
    requires s.buf == []
    ensures Written(s, cmd, answer).Pending() == if s.alive then s.stream + answer + [PROMPT] else s.stream
    ensures s.stream == [] ==> s.stream + answer == answer
  {
  }

  /** Two prompts are one too many to be in step. */
  lemma TwoPrompts(late: string, rest: string)
    requires PROMPT !in late && PROMPT in rest
    ensures Find(late + [PROMPT] + rest) == |late| < |late + [PROMPT] + rest| - 1
  {
    FindAt(late, rest);
  }

  /** A command in step finds nothing still to come, unless its resynchronization timed out. */
  lemma LateTimedOut(cmd: string, answer: string, x: Steps, r: Result<seq<string>, Error>) returns (late: string)
    requires InStep(x.start) && Commands(cmd, answer, x, r)
    ensures Late(x) ==> TimedOut(x) && x.drained.alive
    ensures Late(x) ==> PROMPT !in late && x.drained.stream == late + [PROMPT]
    ensures x.drained.buf == [] && !x.drained.dirty && (!x.drained.alive ==> !Late(x))
  {
    hide Find, LinesOf, ReadsOut, GivesUp;
    Resynced(x.start, x.resynced, x.gaveUp);
    late := DrainedInStep(x.resynced, x.drained);
    if Late(x) {
      assert x.resynced.alive;
      assert x.resynced.Pending() != [];
    }
  }

  /**
   * Pairing, exactly: a command that starts in step stays in step if and only if nothing of
   * an abandoned command was still to come when it was written, or the stream broke since.
   * If it succeeds, it returns the lines of its own answer in the one case, and in the other
   * those of what was still to come.
   */
  lemma PairingExact(cmd: string, answer: string, x: Steps, r: Result<seq<string>, Error>)
    requires InStep(x.start) && PROMPT !in answer && Commands(cmd, answer, x, r)
    ensures InStep(x.end) <==> !Late(x) || !x.end.alive
    ensures r.Ok? ==> r.value == LinesOf(cmd, if Late(x) then x.drained.stream[..|x.drained.stream| - 1] else answer)
    ensures r.Ok? ==> x.end.alive
    ensures Late(x) ==> TimedOut(x)
  {
    hide LinesOf;
    var late := LateTimedOut(cmd, answer, x, r);
    if Late(x) {
      assert late == x.drained.stream[..|x.drained.stream| - 1];
      WrittenLate(cmd, answer, late, x, r);
    } else {
      WrittenInStep(cmd, answer, x, r);
    }
  }

  /** With nothing else pending, what is read is the answer. */
  lemma ReadsAnswer(s: State, s': State, out: string, answer: string)
    requires PROMPT !in answer && ReadsOut(s, s', out)
    requires s.Pending() == if s.alive then answer + [PROMPT] else []
    ensures s'.alive && s'.Pending() == [] && out == answer
  {
    hide Find;
    HasPrompt(out, s'.Pending());
    assert answer + [PROMPT] == answer + [PROMPT] + [];
    FirstPrompt(answer, [], out, s'.Pending());
  }

  lemma WrittenInStep(cmd: string, answer: string, x: Steps, r: Result<seq<string>, Error>)
    requires PROMPT !in answer && Commands(cmd, answer, x, r)
    requires x.drained.buf == x.drained.stream == [] && !x.drained.dirty
    ensures InStep(x.end)
    ensures r.Ok? ==> r.value == LinesOf(cmd, answer) && x.end.alive
  {
    hide LinesOf, Find;
    WrittenPending(x.drained, cmd, answer);
    match r
    case Ok(lines) =>
      var out :| ReadsOut(x.written, x.end, out) && lines == LinesOf(cmd, out);
      ReadsAnswer(x.written, x.end, out, answer);
    case Err(WriteFailed) =>
    case Err(e) =>
      var t: State :| GivesUp(x.written, t, e) && x.end == t.(dirty := true);
      hide InStep, GivesUp;
      AbandonedInStep(answer, x.written, t, e);
  }

  lemma WrittenLate(cmd: string, answer: string, late: string, x: Steps, r: Result<seq<string>, Error>)
    requires PROMPT !in answer && PROMPT !in late && Commands(cmd, answer, x, r)
    requires x.drained.buf == [] && x.drained.stream == late + [PROMPT] && !x.drained.dirty && x.drained.alive
    ensures InStep(x.end) <==> !x.end.alive
    ensures r.Ok? ==> r.value == LinesOf(cmd, late) && x.end.alive
  {
    hide LinesOf, Find;
    WrittenPending(x.drained, cmd, answer);
    var rest := answer + [PROMPT];
    assert x.drained.stream + answer + [PROMPT] == late + [PROMPT] + rest;
    match r
    case Ok(lines) =>
      var out :| ReadsOut(x.written, x.end, out) && lines == LinesOf(cmd, out);
      FirstPrompt(late, rest, out, x.end.Pending());
    case Err(WriteFailed) =>
      assert x.end.Pending() == late + [PROMPT];
    case Err(e) =>
      var t: State :| GivesUp(x.written, t, e) && x.end == t.(dirty := true);
      assert x.end.Pending() == t.Pending();
      assert rest[|answer|] == PROMPT;
      TwoPrompts(late, rest);
  }

  /** A command that is abandoned leaves its own prompt to come, or a broken stream. */
  lemma AbandonedInStep(answer: string, s: State, t: State, e: Error)
    requires PROMPT !in answer && GivesUp(s, t, e) && !s.dirty
    requires if s.alive then s.Pending() == answer + [PROMPT] else s.Pending() == []
    ensures InStep(t.(dirty := true))
  {
    OnePrompt(answer);
    assert t.(dirty := true).Pending() == t.Pending();
    if !t.alive && e == Cancelled {
      assert t.buf + t.stream == [];
    }
  }

  // ---------------------------------------------------------------- runs

  /**
   * A run of commands from one state to another: each command takes the steps xs[i], which
   * begin where those of the one before end, and returns results[i].
   */
  ghost predicate Runs(start: State, cmds: seq<string>, answers: seq<string>, xs: seq<Steps>,
                       results: seq<Result<seq<string>, Error>>, end: State)
    requires |cmds| == |answers| == |xs| == |results|
  {
    if cmds == [] then end == start
    else
      var n := |cmds| - 1;
      && Commands(cmds[n], answers[n], xs[n], results[n]) && xs[n].end == end
      && Runs(start, cmds[..n], answers[..n], xs[..n], results[..n], xs[n].start)
  }

  lemma RunsSnoc(start: State, cmds: seq<string>, answers: seq<string>, xs: seq<Steps>,
                 results: seq<Result<seq<string>, Error>>, cmd: string, answer: string, x: Steps,
                 r: Result<seq<string>, Error>)
    requires |cmds| == |answers| == |xs| == |results|
    requires Runs(start, cmds, answers, xs, results, x.start) && Commands(cmd, answer, x, r)
    ensures Runs(start, cmds + [cmd], answers + [answer], xs + [x], results + [r], x.end)
  {
    hide Commands;
    var n := |cmds|;
    assert (cmds + [cmd])[..n] == cmds && (answers + [answer])[..n] == answers;
    assert (xs + [x])[..n] == xs && (results + [r])[..n] == results;
  }

  /** The adapter object is in step after every command. */
  predicate StaysInStep(xs: seq<Steps>) {
    forall i :: 0 <= i < |xs| ==> InStep(xs[i].end)
  }

  /**
   * No command was written while output of an abandoned one was still to come, but for
   * commands that end in a broken stream.
   */
  predicate NoneLate(xs: seq<Steps>) {
    forall i :: 0 <= i < |xs| ==> !Late(xs[i]) || !xs[i].end.alive
  }

  /** Every command that succeeds returns the lines of its own answer. */
  predicate Paired(cmds: seq<string>, answers: seq<string>, results: seq<Result<seq<string>, Error>>)
    requires |cmds| == |answers| == |results|
  {
    forall i :: 0 <= i < |results| && results[i].Ok? ==> results[i].value == LinesOf(cmds[i], answers[i])
  }

  lemma StepsSnoc(xs: seq<Steps>)
    requires xs != []
    ensures
      var n := |xs| - 1;
      && (StaysInStep(xs) <==> StaysInStep(xs[..n]) && InStep(xs[n].end))
      && (NoneLate(xs) <==> NoneLate(xs[..n]) && (!Late(xs[n]) || !xs[n].end.alive))
  {
    hide InStep, Late;
    assert xs == xs[..|xs| - 1] + [xs[|xs| - 1]];
  }

  lemma PairedSnoc(cmds: seq<string>, answers: seq<string>, results: seq<Result<seq<string>, Error>>)
    requires |cmds| == |answers| == |results| && results != []
    ensures
      var n := |results| - 1;
      Paired(cmds, answers, results)
      <==> Paired(cmds[..n], answers[..n], results[..n])
           && (results[n].Ok? ==> results[n].value == LinesOf(cmds[n], answers[n]))
  {
    hide LinesOf;
    var n := |results| - 1;
    if Paired(cmds, answers, results) {
      forall i | 0 <= i < n && results[..n][i].Ok?
        ensures results[..n][i].value == LinesOf(cmds[..n][i], answers[..n][i])
      {
        assert results[i].Ok?;
      }
    }
    if Paired(cmds[..n], answers[..n], results[..n]) {
      forall i | 0 <= i < n && results[i].Ok? ensures results[i].value == LinesOf(cmds[i], answers[i]) {
        assert results[..n][i].Ok? && cmds[..n][i] == cmds[i] && answers[..n][i] == answers[i];
      }
    }
  }

  /**
   * Pairing over whole runs, on an adapter that prints one prompt per command: the adapter
   * object is in step after every command if and only if no command came too early for the
   * rest of an abandoned one. Then every command that succeeds returns its own answer.
   */
  lemma {:induction false} OwnAnswers(start: State, cmds: seq<string>, answers: seq<string>, xs: seq<Steps>,
                                      results: seq<Result<seq<string>, Error>>, end: State)
    requires |cmds| == |answers| == |xs| == |results| && Runs(start, cmds, answers, xs, results, end)
    requires InStep(start) && forall i :: 0 <= i < |answers| ==> PROMPT !in answers[i]
    ensures StaysInStep(xs) <==> NoneLate(xs)
    ensures NoneLate(xs) ==> InStep(end) && Paired(cmds, answers, results)
    ensures (forall i :: 0 <= i < |xs| ==> !TimedOut(xs[i])) ==> NoneLate(xs)
  {
    hide Commands, InStep, LinesOf, TimedOut, Late, StaysInStep, NoneLate, Paired;
    if cmds == [] {
      NoCommands();
    } else {
      var n := |cmds| - 1;
      OwnAnswers(start, cmds[..n], answers[..n], xs[..n], results[..n], xs[n].start);
      StepsSnoc(xs);
      PairedSnoc(cmds, answers, results);
      if InStep(xs[n].start) {
        PairingExact(cmds[n], answers[n], xs[n], results[n]);
      }
    }
  }

  lemma NoCommands()
    ensures StaysInStep([]) && NoneLate([]) && Paired([], [], [])
  {
  }

  /** What a run writes: each command but those whose writing failed. */
  function AllSent(cmds: seq<string>, results: seq<Result<seq<string>, Error>>): string
    requires |cmds| == |results|
  {
    if cmds == [] then []
    else
      var n := |cmds| - 1;
      AllSent(cmds[..n], results[..n]) + (if results[n] == Err(WriteFailed) then [] else Line(cmds[n]))
  }

  /**
   * Over every run, in step or not, the adapter gets the commands in their order and nothing
   * else: resynchronizing sends nothing, so no command is ever repeated.
   */
  lemma {:induction false} OnlyCommandsSent(start: State, cmds: seq<string>, answers: seq<string>, xs: seq<Steps>,
                                            results: seq<Result<seq<string>, Error>>, end: State)
    requires |cmds| == |answers| == |xs| == |results| && Runs(start, cmds, answers, xs, results, end)
    ensures end.sent == start.sent + AllSent(cmds, results)
  {
    hide Commands, AllSent;
    if cmds != [] {
      var n := |cmds| - 1;
      OnlyCommandsSent(start, cmds[..n], answers[..n], xs[..n], results[..n], xs[n].start);
      CommandSent(cmds[n], answers[n], xs[n], results[n]);
    }
    AllSentLast(start.sent, cmds, results);
  }

  lemma CommandSent(cmd: string, answer: string, x: Steps, r: Result<seq<string>, Error>)
    requires Commands(cmd, answer, x, r)
    ensures x.end.sent == x.start.sent + (if r == Err(WriteFailed) then [] else Line(cmd))
  {
    hide LinesOf, Find;
  }

  lemma AllSentLast(sent: string, cmds: seq<string>, results: seq<Result<seq<string>, Error>>)
    requires |cmds| == |results|
    ensures cmds == [] ==> sent + AllSent(cmds, results) == sent
    ensures cmds != [] ==>
              var n := |cmds| - 1;
              sent + AllSent(cmds, results)
              == sent + AllSent(cmds[..n], results[..n])
                 + (if results[n] == Err(WriteFailed) then [] else Line(cmds[n]))
  {
    hide Line;
    if cmds == [] {
      assert sent + [] == sent;
    } else {
      var n := |cmds| - 1;
      var last := if results[n] == Err(WriteFailed) then [] else Line(cmds[n]);
      Seqs.ConcatAssoc(sent, AllSent(cmds[..n], results[..n]), last);
    }
  }

  // ---------------------------------------------------------------- getting out of step

  function Fresh(): State {
    State([], false, [], true, [])
  }

  /** A command that is cancelled while nothing of its answer has come. */
  function CancelledSteps(s: State, gaveUp: bool, cmd: string, answer: string): Steps {
    var resynced := s.(dirty := false);
    var written := Written(resynced, cmd, answer);
    Steps(s, resynced, gaveUp, resynced, written, written.(dirty := true))
  }

  /** A command can be cancelled at once, even in its resynchronization. */
  lemma CancelAtOnce(s: State, cmd: string, answer: string)
    requires s.buf == [] && s.alive
    ensures Commands(cmd, answer, CancelledSteps(s, s.dirty, cmd, answer), Err(Cancelled))
  {
    var x := CancelledSteps(s, s.dirty, cmd, answer);
    if s.dirty {
      assert GivesUp(s, s, Cancelled);
    }
    assert x.resynced.stream == x.resynced.stream[0..];
    assert GivesUp(x.written, x.written, Cancelled);
  }

  /** A command that is written while `late` and its prompt are still to come, and returns that. */
  function LateSteps(s: State, resynced: State, gaveUp: bool, cmd: string, answer: string): Steps {
    var written := Written(resynced, cmd, answer);
    Steps(s, resynced, gaveUp, resynced, written, written.(stream := answer + [PROMPT]))
  }

  lemma ReturnsLate(s: State, resynced: State, gaveUp: bool, cmd: string, answer: string, late: string)
    requires Resyncs(s, resynced, gaveUp) && PROMPT !in late
    requires resynced.buf == [] && resynced.alive && resynced.stream == late + [PROMPT]
    ensures Commands(cmd, answer, LateSteps(s, resynced, gaveUp, cmd, answer), Ok(LinesOf(cmd, late)))
  {
    hide LinesOf, Resyncs;
    var x := LateSteps(s, resynced, gaveUp, cmd, answer);
    assert resynced.stream == resynced.stream[0..] && Drains(resynced, resynced);
    assert x.written.Pending() == late + [PROMPT] + x.end.Pending();
    assert ReadsOut(x.written, x.end, late);
  }

  /**
   * A slow adapter: on a fresh connection, whatever the commands and answers are, the first
   * command is cancelled, the second one's resynchronization times out before the first
   * answer arrives, and so the second returns the first answer.
   */
  lemma TimeoutMispairs(cmds: seq<string>, answers: seq<string>) returns (xs: seq<Steps>)
    requires |cmds| == |answers| == 2 && forall i :: 0 <= i < 2 ==> PROMPT !in answers[i]
    ensures |xs| == 2 && TimedOut(xs[1]) && InStep(xs[1].start) && !InStep(xs[1].end)
    ensures Runs(Fresh(), cmds, answers, xs, [Err(Cancelled), Ok(LinesOf(cmds[1], answers[0]))], xs[1].end)
  {
    hide LinesOf, Find, InStep, Commands;
    var x := CancelledSteps(Fresh(), false, cmds[0], answers[0]);
    CancelAtOnce(Fresh(), cmds[0], answers[0]);
    assert x.end.stream == answers[0] + [PROMPT];
    var resynced := x.end.(dirty := false);
    assert GivesUp(x.end, x.end, Cancelled);
    var y := LateSteps(x.end, resynced, true, cmds[1], answers[1]);
    ReturnsLate(x.end, resynced, true, cmds[1], answers[1], answers[0]);
    var r: Result<seq<string>, Error> := Ok(LinesOf(cmds[1], answers[0]));
    xs := [x, y];
    RunOfTwo(cmds, answers, x, y, Err(Cancelled), r);
    FreshInStep();
    PairingExact(cmds[0], answers[0], x, Err(Cancelled));
    PairingExact(cmds[1], answers[1], y, r);
  }

  lemma FreshInStep()
    ensures InStep(Fresh())
  {
  }

  lemma RunOfTwo(cmds: seq<string>, answers: seq<string>, x: Steps, y: Steps,
                 r: Result<seq<string>, Error>, q: Result<seq<string>, Error>)
    requires |cmds| == |answers| == 2 && x.start == Fresh() && y.start == x.end
    requires Commands(cmds[0], answers[0], x, r) && Commands(cmds[1], answers[1], y, q)
    ensures Runs(Fresh(), cmds, answers, [x, y], [r, q], y.end)
  {
    hide Commands;
    assert [r] == [] + [r] && [x] == [] + [x];
    RunsSnoc(Fresh(), [], [], [], [], cmds[0], answers[0], x, r);
    RunsSnoc(Fresh(), [cmds[0]], [answers[0]], [x], [r], cmds[1], answers[1], y, q);
    assert cmds == [cmds[0]] + [cmds[1]] && answers == [answers[0]] + [answers[1]];
  }

  /**
   * Even a prompt adapter: the resynchronization also ends with the caller's own context. On
   * a fresh connection two commands are cancelled one after the other; the third one's
   * resynchronization then reads a prompt as it should, and it still returns the second answer.
   */
  lemma TwoCancelsMispair(cmds: seq<string>, answers: seq<string>) returns (xs: seq<Steps>)
    requires |cmds| == |answers| == 3 && forall i :: 0 <= i < 3 ==> PROMPT !in answers[i]
    ensures |xs| == 3 && !TimedOut(xs[2])
    ensures Runs(Fresh(), cmds, answers, xs, [Err(Cancelled), Err(Cancelled), Ok(LinesOf(cmds[2], answers[1]))],
            xs[2].end)
  {
    hide LinesOf, Find, Commands;
    var x := CancelledSteps(Fresh(), false, cmds[0], answers[0]);
    CancelAtOnce(Fresh(), cmds[0], answers[0]);
    var y := CancelledSteps(x.end, true, cmds[1], answers[1]);
    CancelAtOnce(x.end, cmds[1], answers[1]);
    RunOfTwo(cmds[..2], answers[..2], x, y, Err(Cancelled), Err(Cancelled));
    var late := answers[1] + [PROMPT];
    var read := y.end.(stream := late);
    assert y.end.Pending() == answers[0] + [PROMPT] + read.Pending();
    assert ReadsOut(y.end, read, answers[0]);
    var resynced := read.(dirty := false);
    var z := LateSteps(y.end, resynced, false, cmds[2], answers[2]);
    ReturnsLate(y.end, resynced, false, cmds[2], answers[2], answers[1]);
    xs := [x, y, z];
    var es: seq<Result<seq<string>, Error>> := [Err(Cancelled), Err(Cancelled)];
    var r: Result<seq<string>, Error> := Ok(LinesOf(cmds[2], answers[1]));
    RunsSnoc(Fresh(), cmds[..2], answers[..2], [x, y], es, cmds[2], answers[2], z, r);
    assert cmds == cmds[..2] + [cmds[2]] && answers == answers[..2] + [answers[2]];
    assert [x, y] + [z] == xs && es + [r] == [Err(Cancelled), Err(Cancelled), r];
  }

  // ---------------------------------------------------------------- the adapter

  lemma TakeChunk(buf: string, stream: string, n: nat)
    requires n <= |stream|
    ensures (buf + stream[..n]) + stream[n..] == buf + stream
  {
  }

  /** The buffer holds a prompt: its text up to there is read, and the rest is kept. */
  lemma PromptRead(s: State, buf: string, stream: string, i: nat)
    requires buf + stream == s.Pending() && |stream| <= |s.stream|
    requires i < |buf| && buf[i] == PROMPT && PROMPT !in buf[..i]
    ensures ReadsOut(s, State(buf[i + 1..], s.dirty, stream, s.alive, s.sent), buf[..i])
  {
    assert buf + stream == buf[..i] + [PROMPT] + (buf[i + 1..] + stream);
  }

  /** Stopping with what has been read so far. */
  lemma Stopped(s: State, buf: string, stream: string)
    requires buf + stream == s.Pending() && |stream| <= |s.stream| && PROMPT !in buf
    ensures GivesUp(s, State(buf, s.dirty, stream, s.alive, s.sent), Cancelled)
    ensures GivesUp(s, State(buf, s.dirty, [], false, s.sent), Broken)
  {
  }

  class Adapter {
    var buf: string
    var dirty: bool
    // The rest of the stream: what is still to come, and whether reading still works.
    var stream: string
    var alive: bool
    // All that was written to it.
    var sent: string

    function Now(): State
      reads this
    {
      State(buf, dirty, stream, alive, sent)
    }

    constructor ()
      ensures Now() == Fresh()
    {
      buf, dirty, stream, alive, sent := [], false, [], true, [];
    }

    /**
     * readPrompt: for any chunking of the stream, the text up to its first prompt, with the
     * rest kept. Reading may be cancelled or break at any time.
     */
    method ReadPrompt() returns (r: Result<string, Error>)
      modifies this
      ensures r.Ok? ==> ReadsOut(old(Now()), Now(), r.value)
      ensures r.Err? ==> GivesUp(old(Now()), Now(), r.error)
    {
      hide ReadsOut, GivesUp, Find;
      ghost var start := Now();
      while true
        invariant buf + stream == start.Pending() && dirty == start.dirty && alive == start.alive
        invariant sent == start.sent
        invariant |stream| <= |start.stream|
        decreases |stream|
      {
        var i := Find(buf);
        if i >= 0 {
          PromptRead(start, buf, stream, i);
          r := Ok(buf[..i]);
          buf := buf[i + 1..];
          break;
        }
        Stopped(start, buf, stream);
        var arrives: bool, breaks: bool := *, *;
        if arrives && stream != [] {
          var n: nat :| 1 <= n <= |stream|;
          TakeChunk(buf, stream, n);
          buf, stream := buf + stream[..n], stream[n..];
        } else if breaks || !alive {
          alive, stream := false, [];
          r := Err(Broken);
          break;
        } else {
          r := Err(Cancelled);
          break;
        }
      }
    }

    /** resync. */
    method Resync() returns (ghost gaveUp: bool)
      requires dirty
      modifies this
      ensures Resyncs(old(Now()), Now(), gaveUp)
    {
      var r := ReadPrompt();
      ghost var t := Now();
      gaveUp := r.Err?;
      if r.Ok? {
        assert ReadsOut(old(Now()), t, r.value);
      }
      dirty := false;
      assert Now() == t.(dirty := false);
    }

    /** drain: everything that has arrived so far is dropped. */
    method Drain()
      modifies this
      ensures Drains(old(Now()), Now())
    {
      buf := [];
      var arrived: nat :| arrived <= |stream|;
      stream := stream[arrived..];
      assert stream == old(stream)[arrived..];
      var breaks: bool := *;
      if breaks || !alive {
        alive, stream := false, [];
      }
    }

    /** The loop over the lines of an answer. */
    static method Lines(cmd: string, out: string) returns (lines: seq<string>)
      ensures lines == LinesOf(cmd, out)
    {
      hide Split, Kept;
      var (done, last) := Split(out);
      lines := [];
      for i := 0 to |done|
        invariant lines == KeptAll(cmd, done[..i])
      {
        assert done[..i + 1][..i] == done[..i];
        lines := lines + Kept(cmd, done[i]);
      }
      assert done[..|done|] == done;
      lines := lines + Kept(cmd, last);
    }

    /** command; `answer` is what the adapter prints for it. */
    method Command(cmd: string, answer: string) returns (r: Result<seq<string>, Error>, ghost x: Steps)
      modifies this
      ensures Commands(cmd, answer, x, r) && x.start == old(Now()) && x.end == Now()
    {
      hide LinesOf;
      ghost var gaveUp := false;
      if dirty {
        gaveUp := Resync();
      }
      ghost var resynced := Now();
      Drain();
      ghost var drained := Now();
      var fails: bool := *;
      if fails {
        return Err(WriteFailed), Steps(old(Now()), resynced, gaveUp, drained, drained, drained);
      }
      Write(cmd, answer);
      ghost var written := Now();
      var out := ReadPrompt();
      if out.Err? {
        ghost var t := Now();
        dirty := true;
        x := Steps(old(Now()), resynced, gaveUp, drained, written, Now());
        assert GivesUp(x.written, t, out.error) && x.end == t.(dirty := true);
        return Err(out.error), x;
      }
      var lines := Lines(cmd, out.value);
      x := Steps(old(Now()), resynced, gaveUp, drained, written, Now());
      assert ReadsOut(x.written, x.end, out.value);
      return Ok(lines), x;
    }

    /** The command goes out; the adapter prints its answer and a prompt, which will arrive in time. */
    method Write(cmd: string, answer: string)
      modifies this
      ensures Now() == Written(old(Now()), cmd, answer)
    {
      sent := sent + Line(cmd);
      if alive {
        stream := stream + answer + [PROMPT];
      }
    }

    /** A run of commands, one after the other. */
    method Session(cmds: seq<string>, answers: seq<string>)
      returns (results: seq<Result<seq<string>, Error>>, ghost xs: seq<Steps>)
      requires |answers| == |cmds|
      modifies this
      ensures |results| == |xs| == |cmds|
      ensures Runs(old(Now()), cmds, answers, xs, results, Now())
    {
      hide Commands;
      results, xs := [], [];
      for i := 0 to |cmds|
        invariant |results| == |xs| == i
        invariant Runs(old(Now()), cmds[..i], answers[..i], xs, results, Now())
      {
        var r;
        ghost var x;
        r, x := Command(cmds[i], answers[i]);
        RunsSnoc(old(Now()), cmds[..i], answers[..i], xs, results, cmds[i], answers[i], x, r);
        assert cmds[..i + 1] == cmds[..i] + [cmds[i]] && answers[..i + 1] == answers[..i] + [answers[i]];
        results, xs := results + [r], xs + [x];
      }
      assert cmds[..|cmds|] == cmds && answers[..|cmds|] == answers;
    }
  }
}
