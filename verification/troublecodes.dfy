/** Trouble codes over whole runs of a client against a vehicle (client.go, dtc.go, ecusim/ecusim.go). */
module TroubleCodes {
  import opened Can
  import opened Simulator
  import opened Sorting
  import opened Obd
  import opened Vehicles
  import Codes

  /** The services that report codes. */
  predicate Reports(sid: byte) {
    sid == 0x03 || sid == 0x07 || sid == 0x0A
  }

  function ListOf(e: State, sid: byte): seq<uint16>
    requires Reports(sid)
  {
    if sid == 0x03 then e.stored else if sid == 0x07 then e.pending else e.permanent
  }

  /** The most codes whose report fits an ISO-TP message of 4095 bytes. */
  const MAX_REPORTED := 2046

  /**
   * The codes of one ECU that reach the client: the count byte wraps at 256, and a report
   * longer than ISO-TP carries is never sent.
   */
  function Reported(codes: seq<uint16>): seq<uint16> {
    if |codes| > MAX_REPORTED then [] else Codes.NonZero(codes[..|codes| % 0x100])
  }

  /**
   * A report reaches the client in full, code by code, if and only if there is nothing to
   * report, or it fits a message and every code past the wrapped count byte is 0000.
   */
  lemma ReportedInFull(codes: seq<uint16>)
    ensures Reported(codes) == Codes.NonZero(codes)
            <==> Codes.ZeroFrom(codes, 0)
                 || (|codes| <= MAX_REPORTED && Codes.ZeroFrom(codes, |codes| % 0x100))
  {
    hide Codes.NonZero, Codes.ZeroFrom;
    Codes.OnlyZeros(codes, |codes| % 0x100);
    Codes.ZeroTail(codes, |codes| % 0x100);
  }

  /** With at most 255 codes, all of them that are not 0000. */
  lemma AllReported(codes: seq<uint16>)
    requires |codes| <= 255
    ensures forall d :: d in Reported(codes) <==> d in codes && d != 0
  {
    assert codes[..|codes| % 0x100] == codes;
    Codes.NonZeroMembers(codes);
  }

  /** Some ECU's report of service sid carries code d. */
  predicate InReports(ecus: seq<State>, sid: byte, d: uint16)
    requires Reports(sid)
  {
    exists i :: 0 <= i < |ecus| && d in Reported(ListOf(ecus[i], sid))
  }

  function CodeKey(): uint16 -> int {
    (d: uint16) => d
  }

  /** A reading of the codes: strictly ascending, and exactly those that are reported. */
  ghost predicate IsReading(ecus: seq<State>, sid: byte, out: seq<uint16>)
    requires Reports(sid)
  {
    Strict(CodeKey(), out) && forall d: uint16 :: d in out <==> InReports(ecus, sid, d)
  }

  /** Some ECU lists d. */
  predicate Listed(ecus: seq<State>, sid: byte, d: uint16)
    requires Reports(sid)
  {
    exists i :: 0 <= i < |ecus| && d in ListOf(ecus[i], sid)
  }

  /** The report of this list shows d: it fits a message, and d stands before the wrapped count ends. */
  predicate Shows(codes: seq<uint16>, d: uint16) {
    |codes| <= MAX_REPORTED && d in codes[..|codes| % 0x100]
  }

  /** Some ECU's report shows d. */
  predicate Shown(ecus: seq<State>, sid: byte, d: uint16)
    requires Reports(sid)
  {
    exists i :: 0 <= i < |ecus| && Shows(ListOf(ecus[i], sid), d)
  }

  lemma ShowsReported(codes: seq<uint16>, d: uint16)
    ensures d in Reported(codes) <==> d != 0 && Shows(codes, d)
    ensures Shows(codes, d) ==> d in codes
    ensures |codes| <= 255 && d in codes ==> Shows(codes, d)
  {
    hide Codes.NonZero;
    Codes.NonZeroMembers(codes[..|codes| % 0x100]);
    assert |codes| <= 255 ==> codes[..|codes| % 0x100] == codes;
  }

  /** One code is read as it should be if and only if it is 0000, or nobody lists it, or somebody shows it. */
  lemma ReadExactly(ecus: seq<State>, sid: byte, d: uint16)
    requires Reports(sid)
    ensures InReports(ecus, sid, d) <==> d != 0 && Shown(ecus, sid, d)
    ensures Shown(ecus, sid, d) ==> Listed(ecus, sid, d)
    ensures (forall i :: 0 <= i < |ecus| ==> |ListOf(ecus[i], sid)| <= 255) && Listed(ecus, sid, d) ==>
              Shown(ecus, sid, d)
  {
    hide Reported, Shows, ListOf;
    forall i | 0 <= i < |ecus|
      ensures d in Reported(ListOf(ecus[i], sid)) <==> d != 0 && Shows(ListOf(ecus[i], sid), d)
      ensures Shows(ListOf(ecus[i], sid), d) ==> d in ListOf(ecus[i], sid)
      ensures |ListOf(ecus[i], sid)| <= 255 && d in ListOf(ecus[i], sid) ==> Shows(ListOf(ecus[i], sid), d)
    {
      ShowsReported(ListOf(ecus[i], sid), d);
    }
  }

  /**
   * A client's reading has exactly the non-zero codes that the ECUs list if and only if each
   * of them is shown by some ECU's report; so always with at most 255 codes in each list.
   */
  lemma ReadingComplete(ecus: seq<State>, sid: byte, out: seq<uint16>)
    requires Reports(sid) && IsReading(ecus, sid, out)
    ensures (forall d: uint16 :: d in out <==> d != 0 && Listed(ecus, sid, d))
            <==> forall d: uint16 :: d != 0 && Listed(ecus, sid, d) ==> Shown(ecus, sid, d)
    ensures (forall i :: 0 <= i < |ecus| ==> |ListOf(ecus[i], sid)| <= 255) ==>
              forall d: uint16 :: d in out <==> d != 0 && Listed(ecus, sid, d)
  {
    hide Strict, InReports, Shown, Listed, ListOf;
    forall d: uint16
      ensures InReports(ecus, sid, d) <==> d != 0 && Shown(ecus, sid, d)
      ensures Shown(ecus, sid, d) ==> Listed(ecus, sid, d)
      ensures (forall i :: 0 <= i < |ecus| ==> |ListOf(ecus[i], sid)| <= 255) && Listed(ecus, sid, d) ==>
                Shown(ecus, sid, d)
    {
      ReadExactly(ecus, sid, d);
    }
  }

  /** Readings are unique, so clients cannot disagree. */
  lemma ReadingUnique(ecus: seq<State>, sid: byte, a: seq<uint16>, b: seq<uint16>)
    requires Reports(sid) && IsReading(ecus, sid, a) && IsReading(ecus, sid, b)
    ensures a == b
  {
    hide InReports;
    StrictUnique(CodeKey(), a, b);
  }

  /** What merging the lists of some responses has come to: every code once. */
  ghost predicate Merged(rs: seq<Response>, out: seq<uint16>) {
    && DistinctKeys(CodeKey(), out)
    && (forall i :: 0 <= i < |rs| ==> Codes.ParseList(rs[i].data, true).Listing?)
    && forall d: uint16 :: d in out <==> Carries(rs, d)
  }

  predicate Carries(rs: seq<Response>, d: uint16) {
    exists i :: 0 <= i < |rs| && Codes.ParseList(rs[i].data, true).Listing?
      && d in Codes.ParseList(rs[i].data, true).codes
  }

  lemma CarriesSnoc(rs: seq<Response>, r: Response, d: uint16)
    ensures Carries(rs + [r], d) <==>
            Carries(rs, d) || (Codes.ParseList(r.data, true).Listing? && d in Codes.ParseList(r.data, true).codes)
  {
    hide Codes.ParseList;
    if Carries(rs, d) {
      var i :| 0 <= i < |rs| && Codes.ParseList(rs[i].data, true).Listing?
        && d in Codes.ParseList(rs[i].data, true).codes;
      assert (rs + [r])[i] == rs[i];
    }
    if Codes.ParseList(r.data, true).Listing? && d in Codes.ParseList(r.data, true).codes {
      assert (rs + [r])[|rs|] == r;
    }
  }

  /** One ECU's report, as the client reads it. */
  lemma ReplyCarries(e: State, protocol: Protocol, sid: byte)
    requires Reports(sid)
    ensures
      var rs, codes := Reply(e, protocol, [sid]), ListOf(e, sid);
      && (|codes| > MAX_REPORTED ==> rs == [] && Reported(codes) == [])
      && (|codes| <= MAX_REPORTED ==>
            rs == [Response(e.Response(), protocol, Codes.Report(sid, codes))]
            && Codes.ParseList(rs[0].data, true) == Codes.Listing(Reported(codes))
            && IsPositive(sid, rs[0]))
  {
    hide Codes.ParseList, Codes.NonZero;
    Codes.ReportParses(sid, ListOf(e, sid));
  }

  lemma NothingCarried(sid: byte)
    requires Reports(sid)
    ensures forall d: uint16 :: !Carries([], d) && !InReports([], sid, d)
  {
  }

  /** All the reports of a vehicle are positive, well-formed, and carry exactly what the ECUs report. */
  lemma {:induction false} RepliesCarry(ecus: seq<State>, protocol: Protocol, sid: byte)
    requires Reports(sid)
    ensures
      var rs := Replies(ecus, protocol, [sid]);
      && (forall r :: r in rs ==> IsPositive(sid, r) && Codes.ParseList(r.data, true).Listing?)
      && (forall d: uint16 :: Carries(rs, d) <==> InReports(ecus, sid, d))
      && (rs == [] <==> forall i :: 0 <= i < |ecus| ==> |ListOf(ecus[i], sid)| > MAX_REPORTED)
  {
    hide Reply, Codes.ParseList, IsPositive, Reported, ListOf, Carries, InReports;
    if ecus == [] {
      NothingCarried(sid);
    } else {
      var before, e := ecus[..|ecus| - 1], ecus[|ecus| - 1];
      RepliesCarry(before, protocol, sid);
      ReplyCarries(e, protocol, sid);
      assert ecus == before + [e];
      forall d: uint16 ensures Carries(Replies(ecus, protocol, [sid]), d) <==> InReports(ecus, sid, d) {
        InReportsSnoc(before, e, sid, d);
        if Reply(e, protocol, [sid]) != [] {
          CarriesSnoc(Replies(before, protocol, [sid]), Reply(e, protocol, [sid])[0], d);
        } else {
          assert Replies(ecus, protocol, [sid]) == Replies(before, protocol, [sid]);
        }
      }
    }
  }

  lemma InReportsSnoc(before: seq<State>, e: State, sid: byte, d: uint16)
    requires Reports(sid)
    ensures InReports(before + [e], sid, d) <==> InReports(before, sid, d) || d in Reported(ListOf(e, sid))
  {
    hide Reported, ListOf;
    if InReports(before, sid, d) {
      var i :| 0 <= i < |before| && d in Reported(ListOf(before[i], sid));
      assert (before + [e])[i] == before[i];
    }
    assert (before + [e])[|before|] == e;
  }

  lemma MergedNothing()
    ensures Merged([], [])
  {
  }

  /** Codes joined to a list, each once. */
  ghost predicate MergedWith(before: seq<uint16>, codes: seq<uint16>, out: seq<uint16>) {
    && (DistinctKeys(CodeKey(), before) ==> DistinctKeys(CodeKey(), out))
    && forall d: uint16 :: d in out <==> d in before || d in codes
  }

  lemma MergeNone(before: seq<uint16>)
    ensures MergedWith(before, [], before)
  {
  }

  lemma MergeOne(before: seq<uint16>, codes: seq<uint16>, n: nat, out: seq<uint16>)
    requires n < |codes| && MergedWith(before, codes[..n], out)
    ensures MergedWith(before, codes[..n + 1], if codes[n] in out then out else out + [codes[n]])
  {
    assert codes[..n + 1] == codes[..n] + [codes[n]];
    if codes[n] !in out {
      forall i | 0 <= i < |out| ensures out[i] != codes[n] {
        assert out[i] in out;
      }
    }
  }

  lemma MergedSnoc(rs: seq<Response>, r: Response, before: seq<uint16>, out: seq<uint16>)
    requires Merged(rs, before) && Codes.ParseList(r.data, true).Listing?
    requires MergedWith(before, Codes.ParseList(r.data, true).codes, out)
    ensures Merged(rs + [r], out)
  {
    hide Codes.ParseList, Carries;
    forall d: uint16 ensures d in out <==> Carries(rs + [r], d) {
      CarriesSnoc(rs, r, d);
    }
  }

  /** Reading codes changes no ECU. */
  lemma ReadsOnly(ecus: seq<State>, sid: byte)
    requires Reports(sid)
    ensures Served(ecus, [sid]) == ecus
  {
  }

  lemma MergedSorted(ecus: seq<State>, protocol: Protocol, sid: byte, out: seq<uint16>)
    requires Reports(sid) && Merged(Replies(ecus, protocol, [sid]), out)
    ensures IsReading(ecus, sid, SortBy(CodeKey(), out))
  {
    RepliesCarry(ecus, protocol, sid);
    hide Carries, InReports, Replies;
    SortStrict(CodeKey(), out);
    forall d: uint16 ensures d in SortBy(CodeKey(), out) <==> InReports(ecus, sid, d) {
      SortMember(CodeKey(), out, d);
    }
  }

  // ---------------------------------------------------------------- runs

  datatype Op = Read(sid: byte) | Clear

  /** The ECUs after some operations. */
  function EcusAfter(ecus: seq<State>, ops: seq<Op>): (r: seq<State>)
    ensures |r| == |ecus|
  {
    if ops == [] then ecus
    else
      var before := EcusAfter(ecus, ops[..|ops| - 1]);
      if ops[|ops| - 1] == Clear then Served(before, [0x04]) else before
  }

  /**
   * Over a whole run: the stored and the pending codes are what they were until the first
   * clear and empty from then on; the permanent codes, and everything else, never change.
   */
  lemma {:induction false} RunEffect(ecus: seq<State>, ops: seq<Op>, i: nat)
    requires i < |ecus|
    ensures
      var cleared := Clear in ops;
      EcusAfter(ecus, ops)[i]
      == ecus[i].(stored := if cleared then [] else ecus[i].stored, pending := if cleared then [] else ecus[i].pending)
  {
    if ops != [] {
      var last := |ops| - 1;
      RunEffect(ecus, ops[..last], i);
      assert ops == ops[..last] + [ops[last]];
    }
  }

  lemma {:induction false} AfterValid(ecus: seq<State>, ops: seq<Op>)
    requires ValidEcus(ecus)
    ensures ValidEcus(EcusAfter(ecus, ops))
  {
    if ops != [] {
      AfterValid(ecus, ops[..|ops| - 1]);
      ServedValid(EcusAfter(ecus, ops[..|ops| - 1]), [0x04]);
    }
  }

  /** A clear is acknowledged by every ECU. */
  lemma {:induction false} ClearReplies(ecus: seq<State>, protocol: Protocol)
    ensures forall r :: r in Replies(ecus, protocol, [0x04]) ==> IsPositive(0x04, r)
    ensures |Replies(ecus, protocol, [0x04])| == |ecus|
  {
    if ecus != [] {
      ClearReplies(ecus[..|ecus| - 1], protocol);
    }
  }

  /** With at most 255 codes in each list, somebody always reports. */
  lemma SomeReply(ecus: seq<State>, ops: seq<Op>, protocol: Protocol, sid: byte)
    requires Reports(sid) && ecus != []
    requires forall i :: 0 <= i < |ecus| ==>
               |ecus[i].stored| <= 255 && |ecus[i].pending| <= 255 && |ecus[i].permanent| <= 255
    ensures Replies(EcusAfter(ecus, ops), protocol, [sid]) != []
  {
    var now := EcusAfter(ecus, ops);
    RunEffect(ecus, ops, |ecus| - 1);
    ReplyCarries(now[|now| - 1], protocol, sid);
  }
}
