/** Reading the vehicle identification number (client.go, VIN). */
module VinRecords {
  import opened Can
  import opened Answers
  import opened Sorting
  import opened Simulator
  import opened Obd
  import opened Vehicles

  const VIN_REQUEST: seq<byte> := [0x09, 0x02]

  /** The messages of one ECU that carry data after their sequence byte. */
  function Records(ecu: uint32, pos: seq<Response>): (out: seq<Response>)
    ensures forall i :: 0 <= i < |out| ==> |out[i].data| > 3
  {
    if pos == [] then []
    else
      var r, before := pos[|pos| - 1], Records(ecu, pos[..|pos| - 1]);
      if r.ecu == ecu && |r.data| > 3 then before + [r] else before
  }

  /** The sequence byte. */
  function SequenceKey(): Response -> int {
    (r: Response) => if |r.data| > 2 then r.data[2] as int else -1
  }

  function Contents(msgs: seq<Response>): seq<byte> {
    if msgs == [] then []
    else
      var m := msgs[|msgs| - 1];
      Contents(msgs[..|msgs| - 1]) + (if |m.data| > 3 then m.data[3..] else [])
  }

  function Printable(raw: seq<byte>): seq<byte> {
    if raw == [] then []
    else
      var b, before := raw[|raw| - 1], Printable(raw[..|raw| - 1]);
      if 0x20 < b < 0x7F then before + [b] else before
  }

  /** The bytes that the number is taken from: one message on CAN, otherwise all messages in sequence. */
  function Raw(pos: seq<Response>): seq<byte>
    requires pos != []
  {
    var first := pos[0];
    if first.protocol.IsCan() || first.protocol == Unknown then (if |first.data| >= 2 then first.data[2..] else [])
    else Contents(SortBy(SequenceKey(), Records(first.ecu, pos)))
  }

  /** The number, from the responses that Request returned. */
  function Number(rs: seq<Response>): Result<seq<byte>, Failure> {
    var pos := Positive(0x09, rs);
    if pos.Err? then Err(pos.error)
    else if pos.value == [] then Err(NoResponse)
    else if Printable(Raw(pos.value)) == [] then Err(EmptyVin(pos.value[0].ecu))
    else Ok(Printable(Raw(pos.value)))
  }

  /** slices.SortFunc: sorted, but elements with the same key may come in any order. */
  method SortBySequence(msgs: seq<Response>) returns (out: seq<Response>)
    ensures Ordered(SequenceKey(), out) && multiset(out) == multiset(msgs)
  {
    out := SortBy(SequenceKey(), msgs);
    SortOrdered(SequenceKey(), msgs);
    SortMultiset(SequenceKey(), msgs);
  }

  /** The first ECU answers in one message, or its messages have different sequence bytes. */
  predicate DistinctSequence(pos: seq<Response>) {
    pos == [] || pos[0].protocol.IsCan() || pos[0].protocol == Unknown
    || DistinctKeys(SequenceKey(), Records(pos[0].ecu, pos))
  }

  /** The rest of VIN, after Request. */
  method Decode(rs: seq<Response>) returns (r: Result<seq<byte>, Failure>)
    requires forall i :: 0 <= i < |rs| ==> IsAnswer(VIN_REQUEST, rs[i].data)
    ensures DistinctSequence(Positives(0x09, rs)) ==> r == Number(rs)
  {
    hide SortBy, IsAnswer;
    var pos := KeepPositive(0x09, rs);
    if pos.Err? {
      return Err(pos.error);
    }
    var first := pos.value[0];
    var raw: seq<byte> := [];
    PositiveLong(rs);
    if first.protocol.IsCan() || first.protocol == Unknown {
      raw := first.data[2..];
    } else {
      var msgs: seq<Response> := [];
      for i := 0 to |pos.value|
        invariant msgs == Records(first.ecu, pos.value[..i])
      {
        var p := pos.value[i];
        assert pos.value[..i + 1][..i] == pos.value[..i];
        if p.ecu == first.ecu && |p.data| > 3 {
          msgs := msgs + [p];
        }
      }
      assert pos.value[..|pos.value|] == pos.value;
      var sorted := SortBySequence(msgs);
      SameMembers(sorted, msgs);
      for i := 0 to |sorted|
        invariant raw == Contents(sorted[..i])
      {
        assert sorted[..i + 1][..i] == sorted[..i];
        assert sorted[i] in sorted && sorted[i] in msgs;
        raw := raw + sorted[i].data[3..];
      }
      assert sorted[..|sorted|] == sorted;
      if DistinctSequence(pos.value) {
        SortedUnique(SequenceKey(), msgs, sorted);
      }
    }
    var vin: seq<byte> := [];
    for i := 0 to |raw|
      invariant vin == Printable(raw[..i])
    {
      assert raw[..i + 1][..i] == raw[..i];
      if raw[i] > 0x20 && raw[i] < 0x7F {
        vin := vin + [raw[i]];
      }
    }
    assert raw[..|raw|] == raw;
    if |vin| == 0 {
      return Err(EmptyVin(first.ecu));
    }
    return Ok(vin);
  }

  lemma {:induction false} PositiveLong(rs: seq<Response>)
    requires forall i :: 0 <= i < |rs| ==> IsAnswer(VIN_REQUEST, rs[i].data)
    ensures forall i :: 0 <= i < |Positives(0x09, rs)| ==> |Positives(0x09, rs)[i].data| >= 2
  {
    if rs != [] {
      PositiveLong(rs[..|rs| - 1]);
    }
  }

  // ---------------------------------------------------------------- order of arrival

  lemma {:induction false} CountAnswering(req: seq<byte>, rs: seq<Response>, x: Response)
    ensures multiset(Answering(req, rs))[x] == if IsAnswer(req, x.data) then multiset(rs)[x] else 0
  {
    hide IsAnswer;
    if rs != [] {
      CountAnswering(req, rs[..|rs| - 1], x);
      assert rs == rs[..|rs| - 1] + [rs[|rs| - 1]];
    }
  }

  lemma {:induction false} CountPositives(sid: byte, rs: seq<Response>, x: Response)
    ensures multiset(Positives(sid, rs))[x] == if IsPositive(sid, x) then multiset(rs)[x] else 0
  {
    hide IsPositive;
    if rs != [] {
      CountPositives(sid, rs[..|rs| - 1], x);
      assert rs == rs[..|rs| - 1] + [rs[|rs| - 1]];
    }
  }

  lemma {:induction false} CountRecords(ecu: uint32, rs: seq<Response>, x: Response)
    ensures multiset(Records(ecu, rs))[x] == if x.ecu == ecu && |x.data| > 3 then multiset(rs)[x] else 0
  {
    if rs != [] {
      CountRecords(ecu, rs[..|rs| - 1], x);
      assert rs == rs[..|rs| - 1] + [rs[|rs| - 1]];
    }
  }

  lemma {:induction false} PositivesOrdered(sid: byte, rs: seq<Response>)
    requires Ordered(EcuOf(), rs)
    ensures Ordered(EcuOf(), Positives(sid, rs))
    ensures forall r :: r in Positives(sid, rs) ==> r in rs
  {
    hide IsPositive;
    if rs != [] {
      var last := |rs| - 1;
      PositivesOrdered(sid, rs[..last]);
      forall r | r in Positives(sid, rs[..last]) ensures r.ecu <= rs[last].ecu {
        assert r in rs[..last];
      }
    }
  }

  /** The positive responses, ordered by ECU, that Request and positive leave of what arrived. */
  function Kept(rs: seq<Response>): seq<Response> {
    Positives(0x09, SortBy(EcuOf(), Answering(VIN_REQUEST, rs)))
  }

  /** Another order of arrival leaves the same responses, and the same ECU in front. */
  lemma KeptSame(rs: seq<Response>, ts: seq<Response>)
    requires multiset(rs) == multiset(ts)
    ensures multiset(Kept(rs)) == multiset(Kept(ts))
    ensures Kept(rs) == [] <==> Kept(ts) == []
    ensures Kept(rs) != [] ==> Kept(rs)[0].ecu == Kept(ts)[0].ecu
  {
    var a, b := Answering(VIN_REQUEST, rs), Answering(VIN_REQUEST, ts);
    SortMultiset(EcuOf(), a);
    SortMultiset(EcuOf(), b);
    SortOrdered(EcuOf(), a);
    SortOrdered(EcuOf(), b);
    PositivesOrdered(0x09, SortBy(EcuOf(), a));
    PositivesOrdered(0x09, SortBy(EcuOf(), b));
    hide IsAnswer, IsPositive, SortBy;
    forall x: Response ensures multiset(Kept(rs))[x] == multiset(Kept(ts))[x] {
      CountAnswering(VIN_REQUEST, rs, x);
      CountAnswering(VIN_REQUEST, ts, x);
      CountPositives(0x09, SortBy(EcuOf(), a), x);
      CountPositives(0x09, SortBy(EcuOf(), b), x);
    }
    hide Answering, Positives, Kept;
    FirstSame(Kept(rs), Kept(ts));
  }

  lemma FirstSame(a: seq<Response>, b: seq<Response>)
    requires forall x: Response :: multiset(a)[x] == multiset(b)[x]
    ensures multiset(a) == multiset(b)
    ensures a == [] <==> b == []
    ensures Ordered(EcuOf(), a) && Ordered(EcuOf(), b) && a != [] ==> a[0].ecu == b[0].ecu
  {
    SizesAgree(a, b);
    SameMembers(a, b);
    if a != [] && Ordered(EcuOf(), a) && Ordered(EcuOf(), b) {
      assert a[0] in b && b[0] in a;
    }
  }

  /** On one of the older protocols. */
  predicate OnOlder(rs: seq<Response>) {
    forall r :: r in rs ==> r.protocol == Older
  }

  lemma KeptOlder(rs: seq<Response>)
    requires OnOlder(rs)
    ensures OnOlder(Kept(rs))
  {
    var a := Answering(VIN_REQUEST, rs);
    SortMultiset(EcuOf(), a);
    hide IsAnswer, IsPositive, SortBy;
    forall x: Response | x in Kept(rs) ensures x.protocol == Older {
      CountAnswering(VIN_REQUEST, rs, x);
      CountPositives(0x09, SortBy(EcuOf(), a), x);
      assert x in multiset(Kept(rs));
      assert x in multiset(rs);
    }
  }

  lemma RecordsSame(ecu: uint32, a: seq<Response>, b: seq<Response>)
    requires multiset(a) == multiset(b) && DistinctKeys(SequenceKey(), Records(ecu, a))
    ensures SortBy(SequenceKey(), Records(ecu, a)) == SortBy(SequenceKey(), Records(ecu, b))
  {
    var ra, rb := Records(ecu, a), Records(ecu, b);
    forall x: Response ensures multiset(ra)[x] == multiset(rb)[x] {
      CountRecords(ecu, a, x);
      CountRecords(ecu, b, x);
    }
    hide Records;
    assert multiset(ra) == multiset(rb);
    SortStrict(SequenceKey(), ra);
    SortMultiset(SequenceKey(), ra);
    DistinctArrangement(SequenceKey(), rb, SortBy(SequenceKey(), ra));
    SameMembers(rb, SortBy(SequenceKey(), ra));
    SortUnique(SequenceKey(), rb, SortBy(SequenceKey(), ra));
  }

  /**
   * On the older protocols the number does not depend on the order of arrival: for every
   * permutation of the messages, provided the first ECU's have different sequence bytes,
   * reading succeeds or fails alike, and gives the same characters.
   */
  lemma ArrivalIndependent(rs: seq<Response>, ts: seq<Response>)
    requires multiset(rs) == multiset(ts) && OnOlder(rs) && DistinctSequence(Kept(rs))
    ensures
      var a, b := Collected(VIN_REQUEST, rs), Collected(VIN_REQUEST, ts);
      && (a.Ok? <==> b.Ok?)
      && (a.Ok? ==> (Number(a.value).Ok? <==> Number(b.value).Ok?))
      && (a.Ok? && Number(a.value).Ok? ==>
            Number(a.value) == Number(b.value)
            && Number(a.value).value == Printable(Contents(SortBy(SequenceKey(), Records(Kept(rs)[0].ecu, Kept(rs))))))
  {
    KeptSame(rs, ts);
    KeptOlder(rs);
    SameMembers(rs, ts);
    KeptOlder(ts);
    if Kept(rs) != [] {
      assert Kept(rs)[0] in Kept(rs) && Kept(ts)[0] in Kept(ts);
      RecordsSame(Kept(rs)[0].ecu, Kept(rs), Kept(ts));
    }
    AnsweringSame(rs, ts);
    hide Answering, SortBy, Positives, Contents, Printable, Records;
  }

  lemma AnsweringSame(rs: seq<Response>, ts: seq<Response>)
    requires multiset(rs) == multiset(ts)
    ensures Answering(VIN_REQUEST, rs) == [] <==> Answering(VIN_REQUEST, ts) == []
  {
    hide IsAnswer;
    var a, b := Answering(VIN_REQUEST, rs), Answering(VIN_REQUEST, ts);
    forall x: Response ensures multiset(a)[x] == multiset(b)[x] {
      CountAnswering(VIN_REQUEST, rs, x);
      CountAnswering(VIN_REQUEST, ts, x);
    }
    hide Answering;
    SizesAgree(a, b);
  }

  // ---------------------------------------------------------------- the older protocols

  /** One of an ECU's messages: four bytes of the number after a sequence number. */
  function OlderMessage(ecu: uint32, raw: seq<byte>): Response
    requires |raw| % 4 == 0 && 0 < |raw| / 4 < 0x100
  {
    Response(ecu, Older, [0x49, 0x02, |raw| / 4] + raw[|raw| - 4..])
  }

  /** How an ECU on the older protocols sends a number. */
  function OlderMessages(ecu: uint32, raw: seq<byte>): seq<Response>
    requires |raw| % 4 == 0 && |raw| / 4 < 0x100
  {
    if raw == [] then []
    else
      var n := |raw| - 4;
      OlderMessages(ecu, raw[..n]) + [OlderMessage(ecu, raw)]
  }

  predicate IsRecord(ecu: uint32, r: Response) {
    r.ecu == ecu && r.protocol == Older && |r.data| > 3 && IsAnswer(VIN_REQUEST, r.data) && IsPositive(0x09, r)
  }

  lemma MessageShape(ecu: uint32, raw: seq<byte>)
    requires |raw| % 4 == 0 && 0 < |raw| / 4 < 0x100
    ensures
      var m := OlderMessage(ecu, raw);
      && IsRecord(ecu, m) && SequenceKey()(m) == |raw| / 4
      && |m.data| > 3 && m.data[3..] == raw[|raw| - 4..]
  {
  }

  lemma ContentsSnoc(msgs: seq<Response>, m: Response)
    requires |m.data| > 3
    ensures Contents(msgs + [m]) == Contents(msgs) + m.data[3..]
  {
    assert (msgs + [m])[..|msgs|] == msgs;
  }

  lemma {:induction false} OlderShape(ecu: uint32, raw: seq<byte>)
    requires |raw| % 4 == 0 && |raw| / 4 < 0x100
    ensures
      var msgs := OlderMessages(ecu, raw);
      && |msgs| == |raw| / 4 && Strict(SequenceKey(), msgs) && Contents(msgs) == raw
      && forall i :: 0 <= i < |msgs| ==> IsRecord(ecu, msgs[i]) && SequenceKey()(msgs[i]) <= |raw| / 4
  {
    hide IsRecord, SequenceKey, Contents;
    if raw == [] {
      NoMessages();
    } else {
      var n := |raw| - 4;
      OlderShape(ecu, raw[..n]);
      var before, last := OlderMessages(ecu, raw[..n]), OlderMessage(ecu, raw);
      MessageShape(ecu, raw);
      ContentsSnoc(before, last);
      assert raw == raw[..n] + raw[n..];
      hide OlderMessage;
      StrictAppend(SequenceKey(), before, [last]);
    }
  }

  lemma NoMessages()
    ensures Strict(SequenceKey(), []) && Contents([]) == []
  {
  }

  /** What is kept of the messages of one ECU among others. */
  lemma RecordsKept(ecu: uint32, msgs: seq<Response>, others: seq<Response>, rs: seq<Response>)
    requires multiset(rs) == multiset(msgs + others)
    requires forall i :: 0 <= i < |msgs| ==> IsRecord(ecu, msgs[i])
    requires forall r :: r in others ==> r.ecu != ecu
    ensures multiset(Records(ecu, Kept(rs))) == multiset(msgs)
  {
    SortMultiset(EcuOf(), Answering(VIN_REQUEST, rs));
    hide IsAnswer, IsPositive, SortBy;
    forall x: Response ensures multiset(Records(ecu, Kept(rs)))[x] == multiset(msgs)[x] {
      CountAnswering(VIN_REQUEST, rs, x);
      CountPositives(0x09, SortBy(EcuOf(), Answering(VIN_REQUEST, rs)), x);
      CountRecords(ecu, Kept(rs), x);
      assert multiset(rs)[x] == multiset(msgs)[x] + multiset(others)[x];
      assert x in multiset(others) <==> x in others;
      assert x in multiset(msgs) <==> x in msgs;
    }
  }

  /** The ECU with the lowest identifier is in front. */
  lemma FirstKept(ecu: uint32, rs: seq<Response>)
    requires OnOlder(rs) && (forall r :: r in rs ==> r.ecu >= ecu) && Records(ecu, Kept(rs)) != []
    ensures Kept(rs) != [] && Kept(rs)[0].ecu == ecu && Kept(rs)[0].protocol == Older
  {
    KeptOlder(rs);
    var a := Answering(VIN_REQUEST, rs);
    SortOrdered(EcuOf(), a);
    SortMultiset(EcuOf(), a);
    PositivesOrdered(0x09, SortBy(EcuOf(), a));
    hide IsAnswer, IsPositive, SortBy;
    var k := Kept(rs);
    var r := Records(ecu, k)[0];
    CountRecords(ecu, k, r);
    assert r in multiset(Records(ecu, k));
    assert r in k && k[0] in k;
    CountAnswering(VIN_REQUEST, rs, k[0]);
    assert k[0] in SortBy(EcuOf(), a);
    assert k[0] in multiset(SortBy(EcuOf(), a));
    assert k[0] in multiset(rs);
  }

  /**
   * On the older protocols too the number is what the first ECU sends, whatever the order in
   * which its messages arrive, and whatever the other ECUs answer in between.
   */
  lemma OlderNumber(ecu: uint32, raw: seq<byte>, others: seq<Response>, rs: seq<Response>)
    requires |raw| % 4 == 0 && 0 < |raw| / 4 < 0x100 && OnOlder(others) && forall r :: r in others ==> r.ecu > ecu
    requires multiset(rs) == multiset(OlderMessages(ecu, raw) + others)
    ensures
      var r := Collected(VIN_REQUEST, rs);
      r.Ok? && Number(r.value) == if Printable(raw) == [] then Err(EmptyVin(ecu)) else Ok(Printable(raw))
  {
    hide OlderMessages, IsRecord, IsAnswer, IsPositive, SortBy, Contents, Printable, Records, Kept, SequenceKey, Number;
    var msgs := OlderMessages(ecu, raw);
    OlderShape(ecu, raw);
    RecordsKept(ecu, msgs, others, rs);
    RecordsSorted(Records(ecu, Kept(rs)), msgs);
    AmongOthers(ecu, msgs, others, rs);
    FirstKept(ecu, rs);
    KeptNumber(rs);
  }

  lemma RecordsSorted(records: seq<Response>, msgs: seq<Response>)
    requires multiset(records) == multiset(msgs) && Strict(SequenceKey(), msgs)
    ensures SortBy(SequenceKey(), records) == msgs && |records| == |msgs|
  {
    hide SortBy, SequenceKey;
    SizesAgree(records, msgs);
    DistinctArrangement(SequenceKey(), records, msgs);
    SameMembers(records, msgs);
    SortUnique(SequenceKey(), records, msgs);
  }

  lemma AmongOthers(ecu: uint32, msgs: seq<Response>, others: seq<Response>, rs: seq<Response>)
    requires multiset(rs) == multiset(msgs + others) && OnOlder(others)
    requires (forall i :: 0 <= i < |msgs| ==> IsRecord(ecu, msgs[i])) && forall r :: r in others ==> r.ecu > ecu
    ensures OnOlder(rs) && forall r :: r in rs ==> r.ecu >= ecu
  {
    SameMembers(rs, msgs + others);
  }

  lemma KeptNumber(rs: seq<Response>)
    requires Kept(rs) != []
    ensures
      var r := Collected(VIN_REQUEST, rs);
      r.Ok? && Number(r.value) == if Printable(Raw(Kept(rs))) == [] then Err(EmptyVin(Kept(rs)[0].ecu))
                                  else Ok(Printable(Raw(Kept(rs))))
  {
    hide IsAnswer, Printable, Raw;
  }

  // ---------------------------------------------------------------- simulated ECUs

  lemma VinSilent(ecus: seq<State>)
    ensures Served(ecus, VIN_REQUEST) == ecus
  {
  }

  /** An ECU that has a number which ISO-TP can carry. */
  predicate HasVin(e: State) {
    1 <= |e.vin| <= 4092
  }

  /** The first ECU with a number, by identifier. */
  function FirstWithVin(ecus: seq<State>): Option<State> {
    if ecus == [] then None
    else
      var before := FirstWithVin(ecus[..|ecus| - 1]);
      if before.Some? then before else if HasVin(ecus[|ecus| - 1]) then Some(ecus[|ecus| - 1]) else None
  }

  function VinMessage(e: State): seq<byte> {
    [0x49, 0x02, 0x01] + e.vin
  }

  lemma VinReply(e: State, protocol: Protocol)
    ensures Reply(e, protocol, VIN_REQUEST)
            == if HasVin(e) then [Response(e.Response(), protocol, VinMessage(e))] else []
    ensures HasVin(e) ==> IsPositive(0x09, Response(e.Response(), protocol, VinMessage(e)))
  {
  }

  lemma {:induction false} VinReplies(ecus: seq<State>, protocol: Protocol)
    ensures
      var rs, first := Replies(ecus, protocol, VIN_REQUEST), FirstWithVin(ecus);
      && (forall r :: r in rs ==> IsPositive(0x09, r))
      && (rs == [] <==> first == None)
      && (rs != [] ==> rs[0] == Response(first.value.Response(), protocol, VinMessage(first.value)))
  {
    hide Reply, IsPositive, HasVin, VinMessage;
    if ecus != [] {
      VinReplies(ecus[..|ecus| - 1], protocol);
      VinReply(ecus[|ecus| - 1], protocol);
    }
  }

  lemma {:induction false} PrintableCons(b: byte, raw: seq<byte>)
    requires !(0x20 < b < 0x7F)
    ensures Printable([b] + raw) == Printable(raw)
  {
    if raw == [] {
      assert [b] + raw == [b] && [b][..0] == [];
    } else {
      assert ([b] + raw)[..|raw|] == [b] + raw[..|raw| - 1];
      PrintableCons(b, raw[..|raw| - 1]);
    }
  }

  lemma NumberOnCan(rs: seq<Response>, vin: seq<byte>)
    requires rs != [] && Positives(0x09, rs) == rs
    requires rs[0].protocol.IsCan() && rs[0].data == [0x49, 0x02, 0x01] + vin
    ensures Number(rs) == if Printable(vin) == [] then Err(EmptyVin(rs[0].ecu)) else Ok(Printable(vin))
  {
    hide Positives, Printable, Records, Contents, SortBy;
    assert rs[0].data[2..] == [0x01] + vin;
    PrintableCons(0x01, vin);
  }

  /** Over CAN, the number is the printable part of what the first ECU with a number is configured with. */
  lemma VehicleNumber(ecus: seq<State>, protocol: Protocol)
    requires protocol.IsCan() && FirstWithVin(ecus).Some?
    ensures
      var e := FirstWithVin(ecus).value;
      Number(Replies(ecus, protocol, VIN_REQUEST))
      == if Printable(e.vin) == [] then Err(EmptyVin(e.Response())) else Ok(Printable(e.vin))
  {
    var rs, e := Replies(ecus, protocol, VIN_REQUEST), FirstWithVin(ecus).value;
    VinReplies(ecus, protocol);
    hide Replies, FirstWithVin, Positives, IsPositive, Printable, Number;
    AllPositive(0x09, rs);
    NumberOnCan(rs, e.vin);
  }
}
