/** CAN frames printed as lines by an ELM327 adapter, and their reassembly (elm327/elm327.go, parseCAN). */
module CanLines {
  import opened Can
  import opened IsoTp
  import opened Obd
  import opened Segmentation
  import Answers
  import Codes
  import Demux

  // ---------------------------------------------------------------- hexadecimal

  function Pow16(k: nat): nat {
    if k == 0 then 1 else 16 * Pow16(k - 1)
  }

  /** n as k digits. */
  function Digits(n: nat, k: nat): (s: string)
    ensures |s| == k
  {
    if k == 0 then [] else Digits(n / 16, k - 1) + [Codes.Hex(n % 16)]
  }

  /** The value of a string of hexadecimal digits of either case. */
  function Number(s: string): Option<nat> {
    if s == [] then Some(0)
    else
      var high, low := Number(s[..|s| - 1]), Codes.HexValue(s[|s| - 1]);
      if high.None? || low.None? then None else Some(16 * high.value + low.value)
  }

  function HexBytes(p: seq<byte>): (s: string)
    ensures |s| == 2 * |p|
  {
    if p == [] then []
    else
      var b := p[|p| - 1];
      HexBytes(p[..|p| - 1]) + [Codes.Hex(b / 16), Codes.Hex(b % 16)]
  }

  /** hex.DecodeString. */
  function Bytes(s: string): Option<seq<byte>> {
    if s == [] then Some([])
    else if |s| == 1 then None
    else
      var before, high, low := Bytes(s[..|s| - 2]), Codes.HexValue(s[|s| - 2]), Codes.HexValue(s[|s| - 1]);
      if before.None? || high.None? || low.None? then None else Some(before.value + [16 * high.value + low.value])
  }

  lemma {:induction false} DigitsNumber(n: nat, k: nat)
    requires n < Pow16(k)
    ensures Number(Digits(n, k)) == Some(n)
  {
    if k > 0 {
      DigitsNumber(n / 16, k - 1);
      Codes.DigitText(Codes.Hex(n % 16), n % 16);
      assert Digits(n, k)[..k - 1] == Digits(n / 16, k - 1);
    }
  }

  lemma HexPair(b: byte)
    ensures Codes.HexValue(Codes.Hex(b / 16)) == Some(b / 16) && Codes.HexValue(Codes.Hex(b % 16)) == Some(b % 16)
  {
    Codes.DigitText(Codes.Hex(b / 16), b / 16);
    Codes.DigitText(Codes.Hex(b % 16), b % 16);
  }

  lemma BytesSnoc(s: string, a: char, b: char)
    ensures
      var before, high, low := Bytes(s), Codes.HexValue(a), Codes.HexValue(b);
      Bytes(s + [a, b]) == if before.None? || high.None? || low.None? then None
                           else Some(before.value + [16 * high.value + low.value])
  {
    hide Codes.HexValue;
    var t := s + [a, b];
    assert t[..|t| - 2] == s && t[|t| - 2] == a && t[|t| - 1] == b;
  }

  lemma {:induction false} HexBytesDecode(p: seq<byte>)
    ensures Bytes(HexBytes(p)) == Some(p)
  {
    hide Codes.Hex, Codes.HexValue;
    if p != [] {
      var before, b := p[..|p| - 1], p[|p| - 1];
      HexBytesDecode(before);
      HexPair(b);
      assert p == before + [b];
      hide Bytes;
      BytesSnoc(HexBytes(before), Codes.Hex(b / 16), Codes.Hex(b % 16));
    }
  }

  // ---------------------------------------------------------------- lines

  function IdLen(protocol: Protocol): nat {
    if protocol.Can29? then 8 else 3
  }

  /** A frame as the adapter prints it with headers on and spaces off. */
  function Printed(protocol: Protocol, h: Demux.Heard): string {
    Digits(h.id, IdLen(protocol)) + HexBytes(h.p)
  }

  function PrintedAll(protocol: Protocol, hs: seq<Demux.Heard>): (lines: seq<string>)
    ensures |lines| == |hs|
  {
    if hs == [] then [] else PrintedAll(protocol, hs[..|hs| - 1]) + [Printed(protocol, hs[|hs| - 1])]
  }

  /** What parseCAN reads in a line; None when it is not a frame. */
  function ReadLine(protocol: Protocol, l: string): Option<Demux.Heard> {
    var n := IdLen(protocol);
    if |l| < n + 2 then None
    else
      var id, p := Number(l[..n]), Bytes(l[n..]);
      if id.None? || id.value >= 0x1_0000_0000 || p.None? then None else Some(Demux.Heard(id.value, p.value))
  }

  /** A frame that fits the printed identifier and carries at least one byte. */
  predicate Fits(protocol: Protocol, h: Demux.Heard) {
    h.id < (if protocol.Can29? then 0x1_0000_0000 else 0x1000) && h.p != []
  }

  lemma IdRange(protocol: Protocol)
    ensures Pow16(IdLen(protocol)) == if protocol.Can29? then 0x1_0000_0000 else 0x1000
  {
    assert Pow16(2) == 0x100;
    assert Pow16(3) == 0x1000;
    assert Pow16(4) == 0x1_0000;
    assert Pow16(5) == 0x10_0000;
    assert Pow16(6) == 0x100_0000;
    assert Pow16(7) == 0x1000_0000;
    assert Pow16(8) == 0x1_0000_0000;
  }

  lemma LineRoundTrip(protocol: Protocol, h: Demux.Heard)
    requires Fits(protocol, h)
    ensures ReadLine(protocol, Printed(protocol, h)) == Some(h)
  {
    var n := IdLen(protocol);
    IdRange(protocol);
    hide Pow16, Digits, HexBytes, Number, Bytes;
    DigitsNumber(h.id, n);
    HexBytesDecode(h.p);
    var l := Printed(protocol, h);
    assert l[..n] == Digits(h.id, n) && l[n..] == HexBytes(h.p);
  }

  // ---------------------------------------------------------------- parseCAN

  const DEFAULT := Options(false, 0, false, 0, 0, 0, 0)

  function NotPending(): Demux.Keep {
    (m: seq<byte>) => !Answers.IsPending(m)
  }

  /** After some lines: the receivers and the messages, and whether a line was not a frame. */
  datatype Parsed = Parsed(s: Demux.State, bad: bool)

  function ParseLines(protocol: Protocol, lines: seq<string>): (r: Parsed)
    ensures r.s.Valid()
  {
    if lines == [] then Parsed(Demux.EMPTY, false)
    else
      var before := ParseLines(protocol, lines[..|lines| - 1]);
      var h := ReadLine(protocol, lines[|lines| - 1]);
      if before.bad || before.s.err.Some? then before
      else if h.None? then before.(bad := true)
      else before.(s := Demux.Step(DEFAULT, NotPending(), before.s, h.value))
  }

  datatype Failure = BadLine | EcuFailure(id: uint32, error: Error) | NoResponse

  function ResponsesOf(protocol: Protocol, out: seq<Demux.Tagged>): (rs: seq<Response>)
    ensures |rs| == |out|
  {
    if out == [] then []
    else
      var t := out[|out| - 1];
      ResponsesOf(protocol, out[..|out| - 1]) + [Response(t.id, protocol, t.data)]
  }

  /** The result of parseCAN. */
  function ResultOfLines(protocol: Protocol, lines: seq<string>): Result<seq<Response>, Failure> {
    var r := ParseLines(protocol, lines);
    if r.s.err.Some? then Err(EcuFailure(r.s.err.value.0, r.s.err.value.1))
    else if r.bad then Err(BadLine)
    else if r.s.out == [] then Err(NoResponse)
    else Ok(ResponsesOf(protocol, r.s.out))
  }

  lemma {:induction false} ParseStops(protocol: Protocol, lines: seq<string>, n: nat)
    requires n <= |lines|
    requires ParseLines(protocol, lines[..n]).bad || ParseLines(protocol, lines[..n]).s.err.Some?
    ensures ParseLines(protocol, lines) == ParseLines(protocol, lines[..n])
  {
    if n == |lines| {
      assert lines[..n] == lines;
    } else {
      var before := lines[..|lines| - 1];
      assert before[..n] == lines[..n];
      ParseStops(protocol, before, n);
    }
  }

  /** parseCAN: one receiver per identifier; stops at the first bad line or failing receiver. */
  method ParseCAN(protocol: Protocol, lines: seq<string>) returns (r: Result<seq<Response>, Failure>)
    ensures r == ResultOfLines(protocol, lines)
  {
    hide FeedStep, RxValid, ReadLine, ParseLines, ResponsesOf, Progress, ResultOfLines;
    var receivers: map<uint32, RxState> := map[];
    var out: seq<Response> := [];
    ProgressStart(protocol);
    for i := 0 to |lines|
      invariant Progress(protocol, lines[..i], receivers, out)
    {
      assert lines[..i + 1] == lines[..i] + [lines[i]];
      var h := ReadLine(protocol, lines[i]);
      if h.None? {
        ProgressBad(protocol, lines, i, receivers, out);
        return Err(BadLine);
      }
      var id := h.value.id;
      if id !in receivers {
        ProgressIdle(protocol, lines[..i], receivers, id, out);
        receivers := receivers[id := IDLE];
      }
      ProgressValid(protocol, lines[..i], receivers, id, out);
      var (rx, fed) := FeedStep(DEFAULT, receivers[id], h.value.p);
      ProgressLine(protocol, lines[..i], lines[i], receivers, out, h.value);
      receivers := receivers[id := rx];
      if fed.err.Some? {
        ProgressFails(protocol, lines, i, id, fed.err.value);
        return Err(EcuFailure(id, fed.err.value));
      }
      if fed.msg.Some? && !Answers.IsPending(fed.msg.value) {
        out := out + [Response(id, protocol, fed.msg.value)];
      }
    }
    assert lines[..|lines|] == lines;
    ProgressDone(protocol, lines, receivers, out);
    return if |out| == 0 then Err(NoResponse) else Ok(out);
  }

  /** parseCAN is in its loop: no failure so far, and its variables are those of the run. */
  ghost predicate Progress(protocol: Protocol, lines: seq<string>, receivers: map<uint32, RxState>,
                           out: seq<Response>) {
    var r := ParseLines(protocol, lines);
    && !r.bad && r.s.err == None && out == ResponsesOf(protocol, r.s.out)
    && forall id: uint32 :: r.s.At(id) == if id in receivers then receivers[id] else IDLE
  }

  lemma ProgressStart(protocol: Protocol)
    ensures Progress(protocol, [], map[], [])
  {
  }

  /** A receiver that has heard nothing is as good as none. */
  lemma ProgressIdle(protocol: Protocol, lines: seq<string>, receivers: map<uint32, RxState>, id: uint32,
                     out: seq<Response>)
    requires Progress(protocol, lines, receivers, out) && id !in receivers
    ensures Progress(protocol, lines, receivers[id := IDLE], out)
  {
    hide ParseLines, ResponsesOf;
  }

  lemma ProgressValid(protocol: Protocol, lines: seq<string>, receivers: map<uint32, RxState>, id: uint32,
                      out: seq<Response>)
    requires Progress(protocol, lines, receivers, out) && id in receivers
    ensures RxValid(receivers[id])
  {
    hide ParseLines, ResponsesOf;
    assert ParseLines(protocol, lines).s.At(id) == receivers[id];
  }

  lemma ProgressLine(protocol: Protocol, lines: seq<string>, l: string, receivers: map<uint32, RxState>,
                     out: seq<Response>, h: Demux.Heard)
    requires Progress(protocol, lines, receivers, out) && ReadLine(protocol, l) == Some(h)
    requires h.id in receivers && RxValid(receivers[h.id])
    ensures
      var (rx, fed) := FeedStep(DEFAULT, receivers[h.id], h.p);
      if fed.err.Some? then ParseLines(protocol, lines + [l]).s.err == Some((h.id, fed.err.value))
      else Progress(protocol, lines + [l], receivers[h.id := rx],
                    if fed.msg.Some? && !Answers.IsPending(fed.msg.value)
                    then out + [Response(h.id, protocol, fed.msg.value)] else out)
  {
    hide FeedStep, ReadLine, ResponsesOf;
    assert (lines + [l])[..|lines|] == lines;
    var s := ParseLines(protocol, lines).s;
    var (rx, fed) := FeedStep(DEFAULT, s.At(h.id), h.p);
    if fed.msg.Some? {
      ResponsesSnoc(protocol, s.out, Demux.Tagged(h.id, fed.msg.value));
    }
  }

  lemma ProgressFails(protocol: Protocol, lines: seq<string>, i: nat, id: uint32, e: Error)
    requires i < |lines| && ParseLines(protocol, lines[..i + 1]).s.err == Some((id, e))
    ensures ResultOfLines(protocol, lines) == Err(EcuFailure(id, e))
  {
    hide ParseLines;
    ParseStops(protocol, lines, i + 1);
  }

  lemma ProgressBad(protocol: Protocol, lines: seq<string>, i: nat, receivers: map<uint32, RxState>, out: seq<Response>)
    requires i < |lines| && Progress(protocol, lines[..i], receivers, out) && ReadLine(protocol, lines[i]) == None
    ensures ResultOfLines(protocol, lines) == Err(BadLine)
  {
    hide ReadLine, ResponsesOf;
    assert lines[..i + 1][..i] == lines[..i];
    ParseStops(protocol, lines, i + 1);
  }

  lemma ProgressDone(protocol: Protocol, lines: seq<string>, receivers: map<uint32, RxState>, out: seq<Response>)
    requires Progress(protocol, lines, receivers, out)
    ensures ResultOfLines(protocol, lines) == if out == [] then Err(NoResponse) else Ok(out)
  {
    hide ParseLines;
  }

  lemma ResponsesSnoc(protocol: Protocol, out: seq<Demux.Tagged>, t: Demux.Tagged)
    ensures ResponsesOf(protocol, out + [t]) == ResponsesOf(protocol, out) + [Response(t.id, protocol, t.data)]
  {
    assert (out + [t])[..|out|] == out;
  }

  /** Lines printed from frames are parsed as the demultiplexed run over these frames. */
  lemma {:induction false} PrintedParse(protocol: Protocol, hs: seq<Demux.Heard>)
    requires forall i :: 0 <= i < |hs| ==> Fits(protocol, hs[i])
    ensures ParseLines(protocol, PrintedAll(protocol, hs)) == Parsed(Demux.Run(DEFAULT, NotPending(), hs), false)
  {
    if hs != [] {
      hide FeedStep, ReadLine, Printed;
      var before, h := hs[..|hs| - 1], hs[|hs| - 1];
      PrintedParse(protocol, before);
      LineRoundTrip(protocol, h);
      assert PrintedAll(protocol, hs)[..|hs| - 1] == PrintedAll(protocol, before);
    }
  }

  // ---------------------------------------------------------------- whole conversations

  /** What one ECU sends: messages one after the other, with its transport options. */
  datatype Speech = Speech(opt: Options, msgs: seq<seq<byte>>)
  {
    predicate Valid() {
      forall i :: 0 <= i < |msgs| ==> Sendable(msgs[i])
    }
  }

  const SILENCE := Speech(DEFAULT, [])

  /** The frames of several messages. */
  function WireAll(opt: Options, msgs: seq<seq<byte>>): seq<seq<byte>>
    requires forall i :: 0 <= i < |msgs| ==> Sendable(msgs[i])
  {
    if msgs == [] then [] else Wire(opt, msgs[0]) + WireAll(opt, msgs[1..])
  }

  /** What a receiver makes of them. */
  function ResultsAll(msgs: seq<seq<byte>>): seq<Fed>
    requires forall i :: 0 <= i < |msgs| ==> Sendable(msgs[i])
  {
    if msgs == [] then [] else Results(DEFAULT, msgs[0], 0) + ResultsAll(msgs[1..])
  }

  lemma {:induction false} FeedsAll(opt: Options, msgs: seq<seq<byte>>)
    requires forall i :: 0 <= i < |msgs| ==> Sendable(msgs[i])
    ensures Feeds(DEFAULT, IDLE, WireAll(opt, msgs)) == (IDLE, ResultsAll(msgs))
  {
    hide FeedStep, Results, Wire;
    if msgs != [] {
      FeedsAll(opt, msgs[1..]);
      SegmentsReassemble(DEFAULT, opt, IDLE, msgs[0]);
      FeedsAppend(DEFAULT, IDLE, Wire(opt, msgs[0]), WireAll(opt, msgs[1..]));
    }
  }

  /** The message that the frame with number c of a speech completes. */
  function Completes(msgs: seq<seq<byte>>, c: nat): Option<seq<byte>> {
    if msgs == [] then None
    else
      var n := ConsecutiveCount(|msgs[0]|) + 1;
      if c + 1 < n then None else if c + 1 == n then Some(msgs[0]) else Completes(msgs[1..], c - n)
  }

  lemma {:induction false} ResultAt(msg: seq<byte>, from: nat, c: nat)
    requires Sendable(msg) && from + c <= ConsecutiveCount(|msg|)
    ensures
      var out := Results(DEFAULT, msg, from)[c];
      out.err == None && out.msg == if from + c == ConsecutiveCount(|msg|) then Some(msg) else None
    decreases c
  {
    if c > 0 {
      ResultAt(msg, from + 1, c - 1);
    }
  }

  /** Each frame completes at most one message, and none of them is an error. */
  lemma {:induction false} ResultsAllAt(msgs: seq<seq<byte>>, c: nat)
    requires forall i :: 0 <= i < |msgs| ==> Sendable(msgs[i])
    requires c < |ResultsAll(msgs)|
    ensures ResultsAll(msgs)[c].err == None && ResultsAll(msgs)[c].msg == Completes(msgs, c)
  {
    hide Results;
    var n := ConsecutiveCount(|msgs[0]|) + 1;
    if c < n {
      ResultAt(msgs[0], 0, c);
    } else {
      ResultsAllAt(msgs[1..], c - n);
    }
  }

  /** Every ECU has sent a part of its speech; nobody else has sent anything. */
  ghost predicate Spoken(speeches: map<uint32, Speech>, hs: seq<Demux.Heard>) {
    && (forall id :: id in speeches ==> speeches[id].Valid())
    && forall id: uint32 :: Demux.Carried(hs, id) <= WireOf(speeches, id)
  }

  function SpeechOf(speeches: map<uint32, Speech>, id: uint32): Speech {
    if id in speeches then speeches[id] else SILENCE
  }

  function WireOf(speeches: map<uint32, Speech>, id: uint32): seq<seq<byte>>
    requires id in speeches ==> speeches[id].Valid()
  {
    WireAll(SpeechOf(speeches, id).opt, SpeechOf(speeches, id).msgs)
  }

  /** The messages in the order in which their last frames come, without "response pending". */
  function InOrder(speeches: map<uint32, Speech>, hs: seq<Demux.Heard>): seq<Demux.Tagged> {
    if hs == [] then []
    else
      var before, h := hs[..|hs| - 1], hs[|hs| - 1];
      var m := Completes(SpeechOf(speeches, h.id).msgs, |Demux.Carried(before, h.id)|);
      InOrder(speeches, before) + (if m.Some? && !Answers.IsPending(m.value) then [Demux.Tagged(h.id, m.value)] else [])
  }

  lemma CarriedSnoc(before: seq<Demux.Heard>, h: Demux.Heard, id: uint32)
    ensures Demux.Carried(before + [h], id)
            == if h.id == id then Demux.Carried(before, id) + [h.p] else Demux.Carried(before, id)
  {
    assert (before + [h])[..|before|] == before;
  }

  lemma SpokenBefore(speeches: map<uint32, Speech>, before: seq<Demux.Heard>, h: Demux.Heard)
    requires Spoken(speeches, before + [h])
    ensures Spoken(speeches, before)
    ensures
      var c := |Demux.Carried(before, h.id)|;
      c < |WireOf(speeches, h.id)| && WireOf(speeches, h.id)[c] == h.p
      && WireOf(speeches, h.id)[..c] == Demux.Carried(before, h.id)
  {
    hide WireAll, Demux.Carried;
    forall id: uint32 ensures Demux.Carried(before, id) <= WireOf(speeches, id) {
      CarriedSnoc(before, h, id);
      assert Demux.Carried(before + [h], id) <= WireOf(speeches, id);
    }
    CarriedSnoc(before, h, h.id);
    assert Demux.Carried(before + [h], h.id) <= WireOf(speeches, h.id);
  }

  /** The receiver's result for the next frame of a speech. */
  lemma NextResult(opt: Options, msgs: seq<seq<byte>>, c: nat)
    requires forall i :: 0 <= i < |msgs| ==> Sendable(msgs[i])
    requires c < |WireAll(opt, msgs)|
    ensures
      var ws := WireAll(opt, msgs);
      var out := FeedStep(DEFAULT, Feeds(DEFAULT, IDLE, ws[..c]).0, ws[c]).1;
      out.err == None && out.msg == Completes(msgs, c)
  {
    hide FeedStep, WireAll, ResultsAll;
    var ws := WireAll(opt, msgs);
    FeedsAll(opt, msgs);
    assert ws == ws[..c] + ([ws[c]] + ws[c + 1..]);
    FeedsAppend(DEFAULT, IDLE, ws[..c], [ws[c]] + ws[c + 1..]);
    var s1 := Feeds(DEFAULT, IDLE, ws[..c]).0;
    var (s2, out) := FeedStep(DEFAULT, s1, ws[c]);
    FeedsCons(DEFAULT, s1, ws[c], ws[c + 1..], s2, out);
    assert ResultsAll(msgs)[c] == out;
    ResultsAllAt(msgs, c);
  }

  /** The demultiplexed run over any interleaving of speeches gives their messages in completion order. */
  lemma {:induction false} RunInOrder(speeches: map<uint32, Speech>, hs: seq<Demux.Heard>)
    requires Spoken(speeches, hs)
    ensures
      var s := Demux.Run(DEFAULT, NotPending(), hs);
      s.err == None && s.out == InOrder(speeches, hs)
  {
    hide FeedStep, Feeds, WireAll, Completes, Demux.Carried, Spoken, Demux.Agrees;
    if hs != [] {
      var before, h := hs[..|hs| - 1], hs[|hs| - 1];
      assert hs == before + [h];
      SpokenBefore(speeches, before, h);
      RunInOrder(speeches, before);
      RunHolds(speeches, before, h);
    }
  }

  lemma RunHolds(speeches: map<uint32, Speech>, before: seq<Demux.Heard>, h: Demux.Heard)
    requires Spoken(speeches, before + [h]) && Demux.Run(DEFAULT, NotPending(), before).err == None
    ensures
      var out := FeedStep(DEFAULT, Demux.Run(DEFAULT, NotPending(), before).At(h.id), h.p).1;
      out.err == None && out.msg == Completes(SpeechOf(speeches, h.id).msgs, |Demux.Carried(before, h.id)|)
  {
    SpokenBefore(speeches, before, h);
    Demux.Independent(DEFAULT, NotPending(), before, h.id);
    var speech := SpeechOf(speeches, h.id);
    NextResult(speech.opt, speech.msgs, |Demux.Carried(before, h.id)|);
  }

  lemma {:induction false} CarriedMember(hs: seq<Demux.Heard>, i: nat)
    requires i < |hs|
    ensures hs[i].p in Demux.Carried(hs, hs[i].id)
  {
    if i < |hs| - 1 {
      CarriedMember(hs[..|hs| - 1], i);
    }
  }

  lemma {:induction false} WireAllNonempty(opt: Options, msgs: seq<seq<byte>>)
    requires forall i :: 0 <= i < |msgs| ==> Sendable(msgs[i])
    ensures forall p :: p in WireAll(opt, msgs) ==> p != []
  {
    hide Padded, Segment;
    if msgs != [] {
      WireAllNonempty(opt, msgs[1..]);
      WireNonempty(opt, msgs[0], 0, ConsecutiveCount(|msgs[0]|) + 1);
    }
  }

  lemma {:induction false} WireNonempty(opt: Options, msg: seq<byte>, from: nat, upTo: nat)
    requires Sendable(msg) && from <= upTo <= ConsecutiveCount(|msg|) + 1
    ensures forall p :: p in WireRange(opt, msg, from, upTo) ==> p != []
    decreases upTo - from
  {
    if from < upTo {
      WireNonempty(opt, msg, from + 1, upTo);
    }
  }

  /**
   * CAN round trip: for any number of ECUs and messages and any interleaving of their
   * frames, printing the frames and parsing the lines gives exactly the messages, in the
   * order in which they are completed, without those that only ask for more time.
   */
  lemma PrintParse(protocol: Protocol, speeches: map<uint32, Speech>, hs: seq<Demux.Heard>)
    requires Spoken(speeches, hs)
    requires forall id :: id in speeches ==> id < (if protocol.Can29? then 0x1_0000_0000 else 0x1000)
    ensures
      var ms := InOrder(speeches, hs);
      ResultOfLines(protocol, PrintedAll(protocol, hs))
      == if ms == [] then Err(NoResponse) else Ok(ResponsesOf(protocol, ms))
  {
    hide WireAll, Demux.Carried, ParseLines, InOrder;
    forall i | 0 <= i < |hs| ensures Fits(protocol, hs[i]) {
      CarriedMember(hs, i);
      PrefixMember(Demux.Carried(hs, hs[i].id), WireOf(speeches, hs[i].id), hs[i].p);
      var speech := SpeechOf(speeches, hs[i].id);
      WireAllNonempty(speech.opt, speech.msgs);
      SilentNothing();
    }
    PrintedParse(protocol, hs);
    RunInOrder(speeches, hs);
  }

  lemma PrefixMember<T>(a: seq<T>, b: seq<T>, x: T)
    requires a <= b && x in a
    ensures x in b
  {
  }

  lemma SilentNothing()
    ensures WireAll(DEFAULT, []) == []
  {
  }

  // ---------------------------------------------------------------- the older protocols

  /** A message as it is on the wire: header, data and checksum. */
  datatype Framed = Framed(header: seq<byte>, data: seq<byte>, checksum: byte)
  {
    function Bytes(): seq<byte> {
      header + data + [checksum]
    }

    /** The sender, from the third header byte. */
    function Source(): byte {
      if |header| > 2 then header[2] else 0
    }

    /** KWP2000 has a fourth header byte, the length, when the length bits of the first byte are zero. */
    predicate Valid(kwp: bool) {
      |header| == (if kwp && header != [] && header[0] % 0x40 == 0 then 4 else 3) && data != []
    }
  }

  function HeaderLen(kwp: bool, b: seq<byte>): nat {
    if kwp && |b| > 0 && b[0] % 0x40 == 0 then 4 else 3
  }

  function ReadOlder(kwp: bool, l: string): Option<Response> {
    var b := Bytes(l);
    if b.None? || |b.value| < HeaderLen(kwp, b.value) + 2 then None
    else Some(Response(b.value[2], Older, b.value[HeaderLen(kwp, b.value)..|b.value| - 1]))
  }

  /** The responses in the order of the lines; None when a line is not a message. */
  function ReadAllOlder(kwp: bool, lines: seq<string>): Option<seq<Response>> {
    if lines == [] then Some([])
    else
      var before, r := ReadAllOlder(kwp, lines[..|lines| - 1]), ReadOlder(kwp, lines[|lines| - 1]);
      if before.None? || r.None? then None else Some(before.value + [r.value])
  }

  lemma {:induction false} OlderStops(kwp: bool, lines: seq<string>, n: nat)
    requires n <= |lines| && ReadAllOlder(kwp, lines[..n]).None?
    ensures ReadAllOlder(kwp, lines).None?
  {
    if n == |lines| {
      assert lines[..n] == lines;
    } else {
      assert lines[..|lines| - 1][..n] == lines[..n];
      OlderStops(kwp, lines[..|lines| - 1], n);
    }
  }

  /** parse, for protocols other than CAN. */
  method ParseOlder(kwp: bool, lines: seq<string>) returns (r: Result<seq<Response>, Failure>)
    ensures r == if ReadAllOlder(kwp, lines).None? then Err(BadLine) else Ok(ReadAllOlder(kwp, lines).value)
  {
    hide Bytes;
    var out: seq<Response> := [];
    for i := 0 to |lines|
      invariant ReadAllOlder(kwp, lines[..i]) == Some(out)
    {
      assert lines[..i + 1][..i] == lines[..i];
      var b := Bytes(lines[i]);
      if b.None? {
        OlderStops(kwp, lines, i + 1);
        return Err(BadLine);
      }
      var header := 3;
      if kwp && |b.value| > 0 && b.value[0] % 0x40 == 0 {
        header := 4;
      }
      if |b.value| < header + 2 {
        OlderStops(kwp, lines, i + 1);
        return Err(BadLine);
      }
      out := out + [Response(b.value[2], Older, b.value[header..|b.value| - 1])];
    }
    assert lines[..|lines|] == lines;
    return Ok(out);
  }

  function PrintedOlder(ms: seq<Framed>): (lines: seq<string>)
    ensures |lines| == |ms|
  {
    if ms == [] then [] else PrintedOlder(ms[..|ms| - 1]) + [HexBytes(ms[|ms| - 1].Bytes())]
  }

  function ContentsOlder(ms: seq<Framed>): seq<Response> {
    if ms == [] then []
    else
      var m := ms[|ms| - 1];
      ContentsOlder(ms[..|ms| - 1]) + [Response(m.Source(), Older, m.data)]
  }

  lemma FramedRead(kwp: bool, m: Framed)
    requires m.Valid(kwp)
    ensures ReadOlder(kwp, HexBytes(m.Bytes())) == Some(Response(m.Source(), Older, m.data))
  {
    hide Bytes, HexBytes;
    var b := m.Bytes();
    HexBytesDecode(b);
    assert b[0] == m.header[0] && b[2] == m.header[2];
    assert b[|m.header|..|b| - 1] == m.data;
  }

  /** Printing messages of an older protocol and parsing the lines gives each sender and its data, in order. */
  lemma {:induction false} OlderRoundTrip(kwp: bool, ms: seq<Framed>)
    requires forall i :: 0 <= i < |ms| ==> ms[i].Valid(kwp)
    ensures ReadAllOlder(kwp, PrintedOlder(ms)) == Some(ContentsOlder(ms))
  {
    if ms != [] {
      hide ReadOlder, HexBytes;
      OlderRoundTrip(kwp, ms[..|ms| - 1]);
      FramedRead(kwp, ms[|ms| - 1]);
      assert PrintedOlder(ms)[..|ms| - 1] == PrintedOlder(ms[..|ms| - 1]);
    }
  }
}
