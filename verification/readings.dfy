/** Service 01: what one request reads, and why combining PIDs changes nothing (client.go, pid.go). */
module CurrentData {
  import opened Can
  import opened Pids
  import opened Simulator
  import opened Sorting
  import opened Obd
  import opened Vehicles
  import Segmentation
  import Seqs

  /** The readings kept so far, and which ECU and PID they are of. */
  datatype Kept = Kept(out: seq<Reading>, seen: set<(uint32, byte)>)

  /** The readings of one response: only of PIDs asked for, and the first of each ECU and PID. */
  function KeepReadings(k: Kept, ps: seq<byte>, rds: seq<Reading>): Kept {
    if rds == [] then k
    else
      var rd, before := rds[|rds| - 1], KeepReadings(k, ps, rds[..|rds| - 1]);
      if rd.pid in ps && (rd.ecu, rd.pid) !in before.seen then
        Kept(before.out + [rd], before.seen + {(rd.ecu, rd.pid)})
      else before
  }

  /** The readings of all responses; those that do not parse are skipped, and noted. */
  function KeepResponses(ps: seq<byte>, pos: seq<Response>): (Kept, bool) {
    if pos == [] then (Kept([], {}), false)
    else
      var r, before := pos[|pos| - 1], KeepResponses(ps, pos[..|pos| - 1]);
      if r.data == [] then before
      else
        var parsed := Parse(r.ecu, r.data[1..], |ps| == 1);
        if parsed.ok then (KeepReadings(before.0, ps, parsed.readings), before.1) else (before.0, true)
  }

  /** What service01 makes of the responses to its request. */
  function ReadingsOf(ps: seq<byte>, rs: seq<Response>): Result<seq<Reading>, Failure> {
    var pos := Positive(0x01, rs);
    if pos.Err? then Err(pos.error)
    else
      var (k, bad) := KeepResponses(ps, pos.value);
      if k.out != [] then Ok(k.out) else Err(if bad then BadReading else NoResponse)
  }

  /** All readings of the responses that parse, in order. */
  function Flat(ps: seq<byte>, pos: seq<Response>): seq<Reading> {
    if pos == [] then []
    else
      var r, before := pos[|pos| - 1], Flat(ps, pos[..|pos| - 1]);
      if r.data == [] then before
      else
        var parsed := Parse(r.ecu, r.data[1..], |ps| == 1);
        if parsed.ok then before + parsed.readings else before
  }

  lemma {:induction false} KeepAppend(k: Kept, ps: seq<byte>, a: seq<Reading>, b: seq<Reading>)
    ensures KeepReadings(k, ps, a + b) == KeepReadings(KeepReadings(k, ps, a), ps, b)
  {
    if b == [] {
      assert a + b == a;
    } else {
      assert (a + b)[..|a + b| - 1] == a + b[..|b| - 1];
      KeepAppend(k, ps, a, b[..|b| - 1]);
    }
  }

  lemma {:induction false} KeepFlat(ps: seq<byte>, pos: seq<Response>)
    ensures KeepResponses(ps, pos).0 == KeepReadings(Kept([], {}), ps, Flat(ps, pos))
  {
    if pos != [] {
      hide Parse, KeepReadings;
      var r, before := pos[|pos| - 1], pos[..|pos| - 1];
      KeepFlat(ps, before);
      if r.data != [] {
        KeepAppend(Kept([], {}), ps, Flat(ps, before), Parse(r.ecu, r.data[1..], |ps| == 1).readings);
      }
    }
  }

  /** Reading number i is the first of its ECU and PID, and was asked for. */
  predicate IsFirst(ps: seq<byte>, rds: seq<Reading>, i: nat)
    requires i < |rds|
  {
    rds[i].pid in ps && forall j :: 0 <= j < i ==> (rds[j].ecu, rds[j].pid) != (rds[i].ecu, rds[i].pid)
  }

  /** What is kept, from any responses whatever: the first reading of each ECU and PID asked for, and nothing else. */
  lemma {:induction false} KeepsFirst(ps: seq<byte>, rds: seq<Reading>, r: Reading)
    ensures
      var k := KeepReadings(Kept([], {}), ps, rds);
      && (r in k.out <==> FirstIn(ps, rds, r))
      && ((r.ecu, r.pid) in k.seen <==> r.pid in ps && KeyIn(rds, r))
  {
    if rds == [] {
    } else {
      var before, rd := rds[..|rds| - 1], rds[|rds| - 1];
      assert rds == before + [rd];
      KeepsFirst(ps, before, r);
      KeepsFirst(ps, before, rd);
      hide KeepReadings, Keys, FirstIn, KeyIn;
      KeepSnoc(Kept([], {}), ps, before, rd);
      FirstSnoc(ps, before, rd, r);
    }
  }

  /** Some reading of the list is r, and the first of its ECU and PID. */
  predicate FirstIn(ps: seq<byte>, rds: seq<Reading>, r: Reading) {
    exists i :: 0 <= i < |rds| && rds[i] == r && IsFirst(ps, rds, i)
  }

  predicate KeyIn(rds: seq<Reading>, r: Reading) {
    exists i :: 0 <= i < |rds| && (rds[i].ecu, rds[i].pid) == (r.ecu, r.pid)
  }

  lemma FirstSnoc(ps: seq<byte>, before: seq<Reading>, rd: Reading, r: Reading)
    ensures FirstIn(ps, before + [rd], r) <==> FirstIn(ps, before, r) || (r == rd && rd.pid in ps && !KeyIn(before, rd))
    ensures KeyIn(before + [rd], r) <==> KeyIn(before, r) || (rd.ecu, rd.pid) == (r.ecu, r.pid)
  {
    var rds, n := before + [rd], |before|;
    assert rds[n] == rd;
    forall i | 0 <= i < n ensures rds[i] == before[i] && (IsFirst(ps, rds, i) <==> IsFirst(ps, before, i)) {
      assert forall j :: 0 <= j < i ==> rds[j] == before[j];
    }
    if FirstIn(ps, before, r) {
      var i :| 0 <= i < n && before[i] == r && IsFirst(ps, before, i);
      assert rds[i] == r;
    }
    if KeyIn(before, r) {
      var i :| 0 <= i < n && (before[i].ecu, before[i].pid) == (r.ecu, r.pid);
      assert rds[i] == before[i];
    }
    if rd.pid in ps && !KeyIn(before, rd) {
      assert IsFirst(ps, rds, n) by {
        assert forall j :: 0 <= j < n ==> rds[j] == before[j];
      }
    }
  }

  /**
   * With other testers on the bus: whatever responses arrive, each reading returned was asked
   * for and is the first one that its ECU gave for its PID in a response that parses.
   */
  lemma FirstAnswers(ps: seq<byte>, rs: seq<Response>, r: Reading)
    requires ReadingsOf(ps, rs).Ok?
    ensures r in ReadingsOf(ps, rs).value <==> FirstIn(ps, Flat(ps, Positives(0x01, rs)), r)
  {
    hide KeepReadings, KeepResponses, FirstIn, Flat, Positives;
    KeepFlat(ps, Positives(0x01, rs));
    KeepsFirst(ps, Flat(ps, Positives(0x01, rs)), r);
  }

  /** What the ECUs hold for a list of PIDs: by ECU, then in the order of the list. */
  function Batch(ecus: seq<State>, ps: seq<byte>): seq<Reading> {
    if ecus == [] then [] else Batch(ecus[..|ecus| - 1], ps) + Own(ecus[|ecus| - 1], ps)
  }

  /** What one ECU gets across; an answer beyond 4095 bytes is lost. */
  function Own(e: State, ps: seq<byte>): seq<Reading> {
    var held := Held(e.pids, e.Response(), ps);
    if Segmentation.Sendable([0x41] + Encode(held)) then held else []
  }

  predicate Distinct(ps: seq<byte>) {
    forall i, j :: 0 <= i < j < |ps| ==> ps[i] != ps[j]
  }

  /** The data of each known PID has the size of the PID table. */
  predicate WellSized(e: State) {
    forall p :: p in e.pids && p % 0x20 != 0 && Size(p).Some? ==> |e.pids[p]| == Size(p).value
  }

  /** All ECUs have table-sized data. */
  predicate AllSized(ecus: seq<State>) {
    forall i :: 0 <= i < |ecus| ==> WellSized(ecus[i])
  }

  /** A request whose answer ECU e gives can be read: a single PID, or up to six of known and table-sized data. */
  predicate Readable(e: State, ps: seq<byte>) {
    |ps| == 1 || (AllKnown(ps) && |ps| <= 6 && WellSized(e))
  }

  predicate AllReadable(ecus: seq<State>, ps: seq<byte>) {
    forall i :: 0 <= i < |ecus| ==> Readable(ecus[i], ps)
  }

  predicate AllKnown(ps: seq<byte>) {
    forall i :: 0 <= i < |ps| ==> Size(ps[i]).Some?
  }

  predicate DistinctPids(rds: seq<Reading>) {
    forall i, j :: 0 <= i < j < |rds| ==> rds[i].pid != rds[j].pid
  }

  /** The keys of a list of readings. */
  function Keys(rds: seq<Reading>): set<(uint32, byte)> {
    set r | r in rds :: (r.ecu, r.pid)
  }

  /** The list without repeats. */
  function Unique(ps: seq<byte>): seq<byte> {
    if ps == [] then []
    else
      var p, before := ps[|ps| - 1], ps[..|ps| - 1];
      if p in before then Unique(before) else Unique(before) + [p]
  }

  lemma {:induction false} UniqueIs(ps: seq<byte>)
    ensures Distinct(Unique(ps)) && |Unique(ps)| <= |ps|
    ensures forall p :: p in Unique(ps) <==> p in ps
    ensures Distinct(ps) ==> Unique(ps) == ps
  {
    if ps != [] {
      var p, before := ps[|ps| - 1], ps[..|ps| - 1];
      UniqueIs(before);
      assert ps == before + [p];
    }
  }

  /** Of an ECU's readings, each PID is kept once. */
  lemma {:induction false} KeepHeld(k: Kept, all: seq<byte>, pids: map<byte, seq<byte>>, ecu: uint32, ps: seq<byte>)
    requires forall p :: p in ps ==> p in all
    requires forall p: byte :: (ecu, p) !in k.seen
    ensures
      KeepReadings(k, all, Held(pids, ecu, ps))
      == Kept(k.out + Held(pids, ecu, Unique(ps)), k.seen + Keys(Held(pids, ecu, ps)))
  {
    hide PidDataOf;
    if ps == [] {
      assert k.out + [] == k.out && Keys([]) == {};
    } else {
      var p, before := ps[|ps| - 1], ps[..|ps| - 1];
      assert ps == before + [p];
      KeepHeld(k, all, pids, ecu, before);
      UniqueLast(pids, ecu, before, p);
      hide Held, Unique, KeepReadings, Keys;
      var d := PidDataOf(pids, p);
      if d.Some? {
        KeepSnoc(k, all, Held(pids, ecu, before), Reading(p, ecu, d.value));
        KeyHeld(pids, ecu, before, p);
        if p !in before {
          Seqs.ConcatAssoc(k.out, Held(pids, ecu, Unique(before)), [Reading(p, ecu, d.value)]);
        }
        JoinKeys(k.seen, Keys(Held(pids, ecu, before)), (ecu, p));
      }
    }
  }

  lemma JoinKeys<K>(a: set<K>, b: set<K>, k: K)
    ensures a + b + {k} == a + (b + {k})
    ensures k in b ==> a + b + {k} == a + b && b + {k} == b
  {
  }

  lemma UniqueLast(pids: map<byte, seq<byte>>, ecu: uint32, before: seq<byte>, p: byte)
    ensures
      var d := PidDataOf(pids, p);
      && Held(pids, ecu, before + [p])
         == (if d.Some? then Held(pids, ecu, before) + [Reading(p, ecu, d.value)] else Held(pids, ecu, before))
      && Held(pids, ecu, Unique(before + [p]))
         == (if d.Some? && p !in before then Held(pids, ecu, Unique(before)) + [Reading(p, ecu, d.value)]
             else Held(pids, ecu, Unique(before)))
  {
    hide PidDataOf;
    assert (before + [p])[..|before|] == before;
    assert (Unique(before) + [p])[..|Unique(before)|] == Unique(before);
  }

  lemma KeepSnoc(k: Kept, all: seq<byte>, rds: seq<Reading>, rd: Reading)
    ensures
      var before := KeepReadings(k, all, rds);
      && KeepReadings(k, all, rds + [rd])
         == (if rd.pid in all && (rd.ecu, rd.pid) !in before.seen then
               Kept(before.out + [rd], before.seen + {(rd.ecu, rd.pid)})
             else before)
      && Keys(rds + [rd]) == Keys(rds) + {(rd.ecu, rd.pid)}
  {
    assert (rds + [rd])[..|rds|] == rds;
    assert forall r :: r in rds + [rd] <==> r in rds || r == rd;
  }

  /** An ECU's key for a PID is among its keys exactly when the PID was asked for and is held. */
  lemma KeyHeld(pids: map<byte, seq<byte>>, ecu: uint32, ps: seq<byte>, p: byte)
    requires PidDataOf(pids, p).Some?
    ensures (ecu, p) in Keys(Held(pids, ecu, ps)) <==> p in ps
  {
    hide PidDataOf;
    HeldMembers(pids, ecu, ps);
    if p in ps {
      assert Reading(p, ecu, PidDataOf(pids, p).value) in Held(pids, ecu, ps);
    }
  }

  lemma {:induction false} HeldDistinct(pids: map<byte, seq<byte>>, ecu: uint32, ps: seq<byte>)
    requires Distinct(ps)
    ensures DistinctPids(Held(pids, ecu, ps))
  {
    hide PidDataOf;
    if ps != [] {
      var last := |ps| - 1;
      HeldDistinct(pids, ecu, ps[..last]);
      HeldMembers(pids, ecu, ps[..last]);
      var before := Held(pids, ecu, ps[..last]);
      forall i | 0 <= i < |before| ensures before[i].pid != ps[last] {
        assert before[i] in before && before[i].pid in ps[..last];
      }
    }
  }

  lemma DataSized(e: State, p: byte)
    requires WellSized(e) && Size(p).Some? && PidDataOf(e.pids, p).Some?
    ensures |PidDataOf(e.pids, p).value| == Size(p).value
  {
    hide AnyAbove;
  }

  lemma {:induction false} HeldLength(pids: map<byte, seq<byte>>, ecu: uint32, ps: seq<byte>)
    ensures |Held(pids, ecu, ps)| <= |ps|
  {
    hide PidDataOf;
    if ps != [] {
      HeldLength(pids, ecu, ps[..|ps| - 1]);
    }
  }

  /** What an ECU holds of PIDs of known size has the sizes of the table. */
  lemma HeldSized(e: State, ps: seq<byte>)
    requires WellSized(e) && AllKnown(ps)
    ensures
      var held := Held(e.pids, e.Response(), ps);
      forall i :: 0 <= i < |held| ==> Size(held[i].pid).Some? && |held[i].data| == Size(held[i].pid).value
  {
    hide PidDataOf, Size;
    var held := Held(e.pids, e.Response(), ps);
    HeldMembers(e.pids, e.Response(), ps);
    hide Held;
    forall i | 0 <= i < |held| ensures Size(held[i].pid).Some? && |held[i].data| == Size(held[i].pid).value {
      assert held[i] in held;
      DataSized(e, held[i].pid);
    }
  }

  lemma EncodeOne(r: Reading)
    ensures Encode([r]) == [r.pid] + r.data
  {
    assert [r][1..] == [];
    assert [r.pid] + r.data + [] == [r.pid] + r.data;
  }

  /** What an ECU sends for PIDs of known sizes, or for a single PID, is parsed back as it was. */
  lemma OwnParses(e: State, ps: seq<byte>)
    requires Readable(e, ps)
    ensures
      var held := Held(e.pids, e.Response(), ps);
      held != [] ==> Parse(e.Response(), Encode(held), |ps| == 1) == Parsed(held, true)
  {
    hide PidDataOf, Size, Encode, Parse, Held;
    var id := e.Response();
    var held := Held(e.pids, id, ps);
    HeldMembers(e.pids, id, ps);
    HeldLength(e.pids, id, ps);
    if held != [] {
      assert held[0] in held;
      if |ps| == 1 {
        assert held == [held[0]];
        EncodeOne(held[0]);
        ParseSingle(id, held[0].pid, held[0].data);
      } else {
        HeldSized(e, ps);
        assert forall i :: 0 <= i < |held| ==> held[i] in held;
        ParseEncode(held, id);
      }
    }
  }

  /** The request for a list of PIDs. */
  function Request01(ps: seq<byte>): seq<byte> {
    [0x01] + ps
  }

  /** What one ECU answers to it, as a list of readings. */
  lemma ReplyHolds(e: State, protocol: Protocol, ps: seq<byte>)
    ensures
      var rs := Reply(e, protocol, Request01(ps));
      && (Own(e, ps) == [] ==> rs == [])
      && (Own(e, ps) != [] ==> rs == [Response(e.Response(), protocol, [0x41] + Encode(Own(e, ps)))])
  {
    hide Held, Encode;
    assert Request01(ps)[1..] == ps;
  }

  lemma OwnMembers(e: State, ps: seq<byte>)
    requires Distinct(ps)
    ensures DistinctPids(Own(e, ps))
    ensures forall r :: r in Own(e, ps) ==> r.pid in ps && r.ecu == e.Response()
  {
    hide Held, Encode;
    HeldMembers(e.pids, e.Response(), ps);
    HeldDistinct(e.pids, e.Response(), ps);
  }

  lemma {:induction false} BatchEcus(ecus: seq<State>, ps: seq<byte>, r: Reading)
    requires Distinct(ps) && r in Batch(ecus, ps)
    ensures exists i :: 0 <= i < |ecus| && r.ecu == ecus[i].Response()
  {
    hide Own, Distinct;
    var last := |ecus| - 1;
    OwnMembers(ecus[last], ps);
    if r in Batch(ecus[..last], ps) {
      BatchEcus(ecus[..last], ps, r);
      var i :| 0 <= i < |ecus[..last]| && r.ecu == ecus[..last][i].Response();
      assert r.ecu == ecus[i].Response();
    }
  }

  /** What reading a list of responses has come to. */
  ghost predicate Reads(ps: seq<byte>, rs: seq<Response>, out: seq<Reading>) {
    && (forall r :: r in rs ==> IsPositive(0x01, r))
    && (rs == [] <==> out == [])
    && KeepResponses(ps, rs) == (Kept(out, Keys(out)), false)
  }

  lemma ReadsNothing(ps: seq<byte>)
    ensures Reads(ps, [], [])
  {
    assert Keys([]) == {};
  }

  lemma ReadsSnoc(ps: seq<byte>, rs: seq<Response>, out: seq<Reading>, r: Response, own: seq<Reading>)
    requires Reads(ps, rs, out) && IsPositive(0x01, r) && own != []
    requires
      var parsed := Parse(r.ecu, r.data[1..], |ps| == 1);
      && parsed.ok
      && KeepReadings(Kept(out, Keys(out)), ps, parsed.readings) == Kept(out + own, Keys(out + own))
    ensures Reads(ps, rs + [r], out + own)
  {
    hide Parse, KeepReadings;
    assert (rs + [r])[..|rs|] == rs;
  }

  lemma {:induction false} EncodeLength(rds: seq<Reading>)
    requires forall i :: 0 <= i < |rds| ==> |rds[i].data| <= 4
    ensures |Encode(rds)| <= 5 * |rds|
  {
    if rds != [] {
      EncodeLength(rds[1..]);
    }
  }

  lemma SizeBound(p: byte)
    ensures Size(p).Some? ==> 1 <= Size(p).value <= 4
  {
  }

  /** Up to six PIDs of known size never fill a message, so nothing is lost. */
  lemma BatchFits(e: State, ps: seq<byte>)
    requires WellSized(e) && AllKnown(ps) && |ps| <= 6
    ensures Own(e, ps) == Held(e.pids, e.Response(), ps)
  {
    hide Size, PidDataOf;
    var held := Held(e.pids, e.Response(), ps);
    HeldMembers(e.pids, e.Response(), ps);
    HeldLength(e.pids, e.Response(), ps);
    forall i | 0 <= i < |held| ensures |held[i].data| <= 4 {
      assert held[i] in held;
      DataSized(e, held[i].pid);
      SizeBound(held[i].pid);
    }
    EncodeLength(held);
  }

  /** Reading the answers of the vehicle to one request gives exactly what the ECUs hold, each PID once. */
  lemma {:induction false} BatchRead(ecus: seq<State>, protocol: Protocol, ps: seq<byte>)
    requires ValidEcus(ecus) && AllReadable(ecus, ps)
    ensures Reads(ps, Replies(ecus, protocol, Request01(ps)), Batch(ecus, Unique(ps)))
  {
    hide Reply, Own, WellSized, Readable, Parse, KeepReadings, Reads, Encode, Unique;
    if ecus == [] {
      ReadsNothing(ps);
    } else {
      var before, e := ecus[..|ecus| - 1], ecus[|ecus| - 1];
      BatchRead(before, protocol, ps);
      ReplyHolds(e, protocol, ps);
      OwnUnique(e, ps);
      if Own(e, ps) != [] {
        BatchReadOne(before, e, protocol, ps);
        ReadsSnoc(ps, Replies(before, protocol, Request01(ps)), Batch(before, Unique(ps)),
                  Response(e.Response(), protocol, [0x41] + Encode(Own(e, ps))), Own(e, Unique(ps)));
      } else {
        assert Batch(ecus, Unique(ps)) == Batch(before, Unique(ps));
        assert Replies(ecus, protocol, Request01(ps)) == Replies(before, protocol, Request01(ps));
      }
    }
  }

  /** What one ECU gets across is what it holds, with or without repeats. */
  lemma OwnUnique(e: State, ps: seq<byte>)
    requires Readable(e, ps)
    ensures Own(e, ps) == [] <==> Own(e, Unique(ps)) == []
    ensures Own(e, ps) != [] ==>
              Own(e, ps) == Held(e.pids, e.Response(), ps)
                && Own(e, Unique(ps)) == Held(e.pids, e.Response(), Unique(ps))
  {
    hide Held, Encode, Unique, WellSized, Size;
    UniqueIs(ps);
    if |ps| != 1 {
      var us, id := Unique(ps), e.Response();
      forall i | 0 <= i < |us| ensures Size(us[i]).Some? {
        assert us[i] in us;
      }
      BatchFits(e, ps);
      BatchFits(e, us);
      HeldMembers(e.pids, id, ps);
      HeldMembers(e.pids, id, us);
      if Held(e.pids, id, ps) != [] {
        assert Held(e.pids, id, ps)[0] in Held(e.pids, id, us);
      }
      if Held(e.pids, id, us) != [] {
        assert Held(e.pids, id, us)[0] in Held(e.pids, id, ps);
      }
    } else {
      assert Distinct(ps);
    }
  }

  lemma BatchReadOne(before: seq<State>, e: State, protocol: Protocol, ps: seq<byte>)
    requires forall i :: 0 <= i < |before| ==> before[i].Response() < e.Response()
    requires Readable(e, ps) && Own(e, ps) != []
    ensures
      var out, own := Batch(before, Unique(ps)), Own(e, Unique(ps));
      var parsed := Parse(e.Response(), ([0x41] + Encode(Own(e, ps)))[1..], |ps| == 1);
      parsed.ok && KeepReadings(Kept(out, Keys(out)), ps, parsed.readings) == Kept(out + own, Keys(out + own))
  {
    var id, out, own := e.Response(), Batch(before, Unique(ps)), Own(e, Unique(ps));
    assert ([0x41] + Encode(Own(e, ps)))[1..] == Encode(Own(e, ps));
    OwnParses(e, ps);
    OwnUnique(e, ps);
    UniqueIs(ps);
    hide Own, Held, WellSized, Readable, Parse, KeepReadings, Batch, Encode, Unique;
    FreshKeys(before, e, Unique(ps));
    hide Keys;
    KeepHeld(Kept(out, Keys(out)), ps, e.pids, id, ps);
    HeldMembers(e.pids, id, ps);
    HeldMembers(e.pids, id, Unique(ps));
    SameKeys(Held(e.pids, id, ps), own);
    AppendKeys(out, own);
  }

  lemma FreshKeys(before: seq<State>, e: State, ps: seq<byte>)
    requires forall i :: 0 <= i < |before| ==> before[i].Response() < e.Response()
    requires Distinct(ps)
    ensures forall p: byte :: (e.Response(), p) !in Keys(Batch(before, ps))
  {
    hide Batch, Distinct;
    forall b | b in Batch(before, ps) ensures b.ecu != e.Response() {
      BatchEcus(before, ps, b);
    }
  }

  lemma AppendKeys(a: seq<Reading>, b: seq<Reading>)
    ensures Keys(a) + Keys(b) == Keys(a + b)
  {
    assert forall r :: r in a + b <==> r in a || r in b;
  }

  lemma SameKeys(a: seq<Reading>, b: seq<Reading>)
    requires forall r :: r in a <==> r in b
    ensures Keys(a) == Keys(b)
  {
  }

  /**
   * One service 01 request, for a single PID or for up to six of known size, reads exactly
   * what the ECUs hold, each PID once, in whatever order the answers arrive.
   */
  lemma Service01Reads(ecus: seq<State>, protocol: Protocol, ps: seq<byte>, rs: seq<Response>)
    requires ValidEcus(ecus) && AllReadable(ecus, ps)
    requires multiset(rs) == multiset(Replies(ecus, protocol, Request01(ps)))
    ensures
      var r, held := Collected(Request01(ps), rs), Batch(ecus, Unique(ps));
      && (r.Err? <==> held == []) && (r.Err? ==> r == Err(NoResponse))
      && (r.Ok? ==> ReadingsOf(ps, r.value) == Ok(held))
  {
    var all := Replies(ecus, protocol, Request01(ps));
    ArrivalOrderIrrelevant(ecus, protocol, Request01(ps), rs);
    BatchRead(ecus, protocol, ps);
    hide Collected, Replies, Batch, KeepResponses, IsPositive;
    if all != [] {
      AllPositive(0x01, all);
    }
  }

  /** Service 01 changes no ECU. */
  lemma Service01Silent(ecus: seq<State>, ps: seq<byte>)
    ensures Served(ecus, Request01(ps)) == ecus
  {
  }

  // ---------------------------------------------------------------- queries

  /** One request per PID: the columns, in the order of the PIDs. */
  function Canonical(ecus: seq<State>, pids: seq<byte>): seq<Reading> {
    if pids == [] then [] else Canonical(ecus, pids[..|pids| - 1]) + Batch(ecus, [pids[|pids| - 1]])
  }

  /** slices.Index: the first position, or -1. */
  function Index(ps: seq<byte>, p: byte): (i: int)
    ensures p in ps <==> i >= 0
    ensures i < |ps| && (i >= 0 ==> ps[i] == p)
  {
    if ps == [] then -1
    else if ps[0] == p then 0
    else
      var i := Index(ps[1..], p);
      assert ps == [ps[0]] + ps[1..];
      if i < 0 then -1 else i + 1
  }

  const ECUS := 0x1_0000_0000

  /** The order of the result: by position in the request, then by ECU. */
  function QueryKey(pids: seq<byte>): Reading -> int {
    (r: Reading) => Index(pids, r.pid) * ECUS + r.ecu
  }

  lemma KeyInjective(pids: seq<byte>, a: Reading, b: Reading)
    requires a.pid in pids && b.pid in pids && QueryKey(pids)(a) == QueryKey(pids)(b)
    ensures a.pid == b.pid && a.ecu == b.ecu
  {
  }

  lemma IndexDistinct(ps: seq<byte>, i: nat)
    requires Distinct(ps) && i < |ps|
    ensures Index(ps, ps[i]) == i
  {
  }

  /** Combining PIDs in one request changes nothing in what an ECU tells about each. */
  lemma OwnAlone(e: State, ps: seq<byte>, r: Reading)
    requires WellSized(e) && |ps| <= 6 && (|ps| == 1 || AllKnown(ps))
    ensures r in Own(e, ps) <==> r.pid in ps && r in Own(e, [r.pid])
  {
    hide PidDataOf, Encode, Size;
    HeldMembers(e.pids, e.Response(), ps);
    HeldMembers(e.pids, e.Response(), [r.pid]);
    if |ps| == 1 {
      assert r.pid in ps ==> ps == [r.pid];
    } else {
      BatchFits(e, ps);
      if r.pid in ps {
        BatchFits(e, [r.pid]);
      }
    }
  }

  lemma {:induction false} BatchAlone(ecus: seq<State>, ps: seq<byte>, r: Reading)
    requires |ps| <= 6 && (|ps| == 1 || AllKnown(ps))
    requires AllSized(ecus)
    ensures r in Batch(ecus, ps) <==> r.pid in ps && r in Batch(ecus, [r.pid])
  {
    hide Own, WellSized, AllKnown;
    if ecus != [] {
      BatchAlone(ecus[..|ecus| - 1], ps, r);
      OwnAlone(ecus[|ecus| - 1], ps, r);
    }
  }

  lemma {:induction false} BatchPids(ecus: seq<State>, ps: seq<byte>)
    requires Distinct(ps)
    ensures forall r :: r in Batch(ecus, ps) ==> r.pid in ps
  {
    hide Own, Distinct;
    if ecus != [] {
      BatchPids(ecus[..|ecus| - 1], ps);
      OwnMembers(ecus[|ecus| - 1], ps);
    }
  }

  /** No ECU and PID occurs twice in what one request reads. */
  lemma {:induction false} BatchDistinct(ecus: seq<State>, ps: seq<byte>, pids: seq<byte>)
    requires ValidEcus(ecus) && Distinct(ps) && forall p :: p in ps ==> p in pids
    ensures DistinctKeys(QueryKey(pids), Batch(ecus, ps))
  {
    hide Own, Distinct, QueryKey;
    if ecus != [] {
      var before, e := ecus[..|ecus| - 1], ecus[|ecus| - 1];
      BatchDistinct(before, ps, pids);
      OwnMembers(e, ps);
      BatchPids(before, ps);
      var a, b := Batch(before, ps), Own(e, ps);
      forall i, j | 0 <= i < |a| && 0 <= j < |b| ensures QueryKey(pids)(a[i]) != QueryKey(pids)(b[j]) {
        assert a[i] in a && b[j] in b;
        BatchEcus(before, ps, a[i]);
        if QueryKey(pids)(a[i]) == QueryKey(pids)(b[j]) {
          KeyInjective(pids, a[i], b[j]);
        }
      }
      forall i, j | 0 <= i < j < |b| ensures QueryKey(pids)(b[i]) != QueryKey(pids)(b[j]) {
        assert b[i] in b && b[j] in b;
        if QueryKey(pids)(b[i]) == QueryKey(pids)(b[j]) {
          KeyInjective(pids, b[i], b[j]);
        }
      }
      DistinctAppend(QueryKey(pids), a, b);
    }
  }

  lemma OneReading(e: State, p: byte)
    ensures |Own(e, [p])| <= 1
  {
    HeldLength(e.pids, e.Response(), [p]);
  }

  /** A column is ordered by ECU. */
  lemma {:induction false} ColumnStrict(ecus: seq<State>, pids: seq<byte>, p: byte)
    requires ValidEcus(ecus)
    ensures Strict(QueryKey(pids), Batch(ecus, [p]))
    ensures forall r :: r in Batch(ecus, [p]) ==> r.pid == p
  {
    hide Own;
    if ecus != [] {
      var before, e := ecus[..|ecus| - 1], ecus[|ecus| - 1];
      ColumnStrict(before, pids, p);
      OwnMembers(e, [p]);
      var a, b := Batch(before, [p]), Own(e, [p]);
      forall i | 0 <= i < |b| ensures b[i].pid == p && b[i].ecu == e.Response() {
        assert b[i] in b;
      }
      OneReading(e, p);
      forall i, j | 0 <= i < |a| && 0 <= j < |b| ensures QueryKey(pids)(a[i]) < QueryKey(pids)(b[j]) {
        assert a[i] in a;
        BatchEcus(before, [p], a[i]);
      }
      StrictAppend(QueryKey(pids), a, b);
    }
  }

  lemma {:induction false} CanonicalMembers(ecus: seq<State>, pids: seq<byte>, r: Reading)
    requires ValidEcus(ecus)
    ensures r in Canonical(ecus, pids) <==> r.pid in pids && r in Batch(ecus, [r.pid])
  {
    hide Batch;
    if pids != [] {
      var last := |pids| - 1;
      CanonicalMembers(ecus, pids[..last], r);
      ColumnStrict(ecus, pids, pids[last]);
      assert pids == pids[..last] + [pids[last]];
    }
  }

  /** The canonical result is strictly ordered by position in the request and ECU. */
  lemma {:induction false} CanonicalStrict(ecus: seq<State>, pids: seq<byte>, n: nat)
    requires ValidEcus(ecus) && Distinct(pids) && n <= |pids|
    ensures Strict(QueryKey(pids), Canonical(ecus, pids[..n]))
    ensures forall r :: r in Canonical(ecus, pids[..n]) ==> QueryKey(pids)(r) < n * ECUS
  {
    hide Batch;
    if n > 0 {
      assert pids[..n][..n - 1] == pids[..n - 1];
      CanonicalStrict(ecus, pids, n - 1);
      ColumnStrict(ecus, pids, pids[n - 1]);
      IndexDistinct(pids, n - 1);
      var a, b := Canonical(ecus, pids[..n - 1]), Batch(ecus, [pids[n - 1]]);
      forall i, j | 0 <= i < |a| && 0 <= j < |b| ensures QueryKey(pids)(a[i]) < QueryKey(pids)(b[j]) {
        assert a[i] in a && b[j] in b;
      }
      StrictAppend(QueryKey(pids), a, b);
    }
  }

  /** What Query has gathered after the first n PIDs, in whatever order. */
  ghost predicate Gathered(ecus: seq<State>, pids: seq<byte>, n: nat, out: seq<Reading>)
    requires n <= |pids|
  {
    && DistinctKeys(QueryKey(pids), out)
    && forall r :: r in out <==> r.pid in pids[..n] && r in Batch(ecus, [r.pid])
  }

  /** A batch of PIDs, combined or single, adds exactly its own columns. */
  lemma GatherBatch(ecus: seq<State>, pids: seq<byte>, n: nat, k: nat, out: seq<Reading>)
    requires ValidEcus(ecus) && AllSized(ecus) && Distinct(pids) && n + k <= |pids| && 1 <= k <= 6
    requires Gathered(ecus, pids, n, out) && (k == 1 || AllKnown(pids[n..n + k]))
    ensures Gathered(ecus, pids, n + k, out + Batch(ecus, pids[n..n + k]))
  {
    hide Batch, WellSized, AllKnown, QueryKey;
    var ps := pids[n..n + k];
    var b := Batch(ecus, ps);
    assert pids[..n + k] == pids[..n] + ps;
    assert Distinct(ps);
    BatchDistinct(ecus, ps, pids);
    forall r ensures r in out + b <==> r.pid in pids[..n + k] && r in Batch(ecus, [r.pid]) {
      BatchAlone(ecus, ps, r);
    }
    Apart(pids, n, ps);
    forall i, j | 0 <= i < |out| && 0 <= j < |b| ensures QueryKey(pids)(out[i]) != QueryKey(pids)(b[j]) {
      assert out[i] in out && b[j] in b;
      BatchAlone(ecus, ps, b[j]);
      if QueryKey(pids)(out[i]) == QueryKey(pids)(b[j]) {
        KeyInjective(pids, out[i], b[j]);
      }
    }
    DistinctAppend(QueryKey(pids), out, b);
  }

  lemma Apart(pids: seq<byte>, n: nat, ps: seq<byte>)
    requires Distinct(pids) && n + |ps| <= |pids| && ps == pids[n..n + |ps|]
    ensures forall p :: !(p in pids[..n] && p in ps)
  {
  }

  /** Once all PIDs are through, sorting gives the canonical result. */
  lemma GatherDone(ecus: seq<State>, pids: seq<byte>, out: seq<Reading>)
    requires ValidEcus(ecus) && Distinct(pids) && Gathered(ecus, pids, |pids|, out)
    ensures SortBy(QueryKey(pids), out) == Canonical(ecus, pids)
    ensures out == [] <==> Canonical(ecus, pids) == []
  {
    assert pids[..|pids|] == pids;
    CanonicalStrict(ecus, pids, |pids|);
    hide Batch, Canonical, QueryKey;
    forall r ensures r in out <==> r in Canonical(ecus, pids) {
      CanonicalMembers(ecus, pids, r);
    }
    SortUnique(QueryKey(pids), out, Canonical(ecus, pids));
    if out != [] {
      assert out[0] in out;
    }
    if Canonical(ecus, pids) != [] {
      assert Canonical(ecus, pids)[0] in Canonical(ecus, pids);
    }
  }

  lemma SizedReadable(ecus: seq<State>, ps: seq<byte>)
    requires |ps| == 1 || (AllKnown(ps) && |ps| <= 6 && AllSized(ecus))
    ensures AllReadable(ecus, ps)
  {
  }

  lemma GatherNothing(ecus: seq<State>, pids: seq<byte>)
    ensures Gathered(ecus, pids, 0, [])
  {
  }

  /**
   * One PID at a time gives the same: a single request reads one column of the canonical
   * result, and the canonical result is those columns one after the other.
   */
  lemma {:induction false} OneAtATime(ecus: seq<State>, protocol: Protocol, pids: seq<byte>, i: nat, rs: seq<Response>)
    requires ValidEcus(ecus) && i < |pids|
    requires multiset(rs) == multiset(Replies(ecus, protocol, Request01([pids[i]])))
    ensures
      var r := Collected(Request01([pids[i]]), rs);
      && Canonical(ecus, pids[..i + 1]) == Canonical(ecus, pids[..i])
         + (if r.Ok? && ReadingsOf([pids[i]], r.value).Ok? then ReadingsOf([pids[i]], r.value).value else [])
  {
    hide Collected, Replies, Batch, ReadingsOf, WellSized;
    SizedReadable(ecus, [pids[i]]);
    Service01Reads(ecus, protocol, [pids[i]], rs);
    UniqueIs([pids[i]]);
    hide Unique;
    assert pids[..i + 1][..i] == pids[..i];
  }

  // ---------------------------------------------------------------- repeats

  /** No ECU holds a PID that occurs again in the list. */
  predicate RepeatsEmpty(ecus: seq<State>, ps: seq<byte>) {
    forall i :: 0 <= i < |ps| && ps[i] in ps[..i] ==> Batch(ecus, [ps[i]]) == []
  }

  lemma {:induction false} RepeatsCounted(ecus: seq<State>, ps: seq<byte>)
    ensures |Canonical(ecus, Unique(ps))| <= |Canonical(ecus, ps)|
    ensures |Canonical(ecus, Unique(ps))| == |Canonical(ecus, ps)| <==> RepeatsEmpty(ecus, ps)
    ensures RepeatsEmpty(ecus, ps) ==> Canonical(ecus, Unique(ps)) == Canonical(ecus, ps)
  {
    hide Batch, Canonical, RepeatsEmpty;
    if ps == [] {
      NoRepeats(ecus);
    } else {
      var p, before := ps[|ps| - 1], ps[..|ps| - 1];
      RepeatsCounted(ecus, before);
      CanonicalSnoc(ecus, before, p);
      CanonicalSnoc(ecus, Unique(before), p);
      RepeatsSnoc(ecus, before, p);
      assert ps == before + [p];
      assert Canonical(ecus, before) + [] == Canonical(ecus, before);
    }
  }

  lemma NoRepeats(ecus: seq<State>)
    ensures RepeatsEmpty(ecus, [])
  {
  }

  lemma CanonicalSnoc(ecus: seq<State>, ps: seq<byte>, p: byte)
    ensures Canonical(ecus, ps + [p]) == Canonical(ecus, ps) + Batch(ecus, [p])
  {
    assert (ps + [p])[..|ps|] == ps;
  }

  lemma RepeatsSnoc(ecus: seq<State>, before: seq<byte>, p: byte)
    ensures RepeatsEmpty(ecus, before + [p]) <==> RepeatsEmpty(ecus, before) && (p in before ==> Batch(ecus, [p]) == [])
  {
    hide Batch;
    var ps := before + [p];
    assert ps[..|before|] == before && ps[|before|] == p;
    forall i | 0 <= i < |before| ensures ps[..i] == before[..i] && ps[i] == before[i] {
    }
    if RepeatsEmpty(ecus, ps) {
      forall i | 0 <= i < |before| && before[i] in before[..i] ensures Batch(ecus, [before[i]]) == [] {
        assert ps[i] in ps[..i];
      }
    }
  }

  /**
   * Repeated PIDs are where the two forms part. A combined request reads each PID once; it
   * gives what one request per PID of the list gives if and only if no ECU holds a PID that
   * is repeated.
   */
  lemma RepeatsMerge(ecus: seq<State>, ps: seq<byte>)
    requires ValidEcus(ecus) && AllSized(ecus) && AllKnown(ps) && |ps| <= 6
    ensures |Batch(ecus, Unique(ps))| <= |Canonical(ecus, ps)|
    ensures |Batch(ecus, Unique(ps))| == |Canonical(ecus, ps)| <==> RepeatsEmpty(ecus, ps)
    ensures RepeatsEmpty(ecus, ps) ==> multiset(Batch(ecus, Unique(ps))) == multiset(Canonical(ecus, ps))
  {
    UniqueIs(ps);
    assert forall i :: 0 <= i < |Unique(ps)| ==> Unique(ps)[i] in Unique(ps);
    RepeatsCounted(ecus, ps);
    hide Unique, Batch, Canonical, WellSized, AllSized, SortBy, QueryKey, RepeatsEmpty, Distinct, Size;
    CombinedIsCanonical(ecus, Unique(ps));
  }

  /** Distinct PIDs of known size, all in one request. */
  lemma CombinedIsCanonical(ecus: seq<State>, us: seq<byte>)
    requires ValidEcus(ecus) && AllSized(ecus) && Distinct(us) && AllKnown(us) && |us| <= 6
    ensures SortBy(QueryKey(us), Batch(ecus, us)) == Canonical(ecus, us)
    ensures |Batch(ecus, us)| == |Canonical(ecus, us)| && multiset(Batch(ecus, us)) == multiset(Canonical(ecus, us))
  {
    hide Batch, Canonical, WellSized, AllSized, SortBy, QueryKey, Distinct, AllKnown, Gathered;
    GatherNothing(ecus, us);
    if us != [] {
      assert us[0..0 + |us|] == us;
      GatherBatch(ecus, us, 0, |us|, []);
      assert [] + Batch(ecus, us) == Batch(ecus, us);
    } else {
      NothingAsked(ecus);
    }
    GatherDone(ecus, us, Batch(ecus, us));
    SortMultiset(QueryKey(us), Batch(ecus, us));
    SizesAgree(SortBy(QueryKey(us), Batch(ecus, us)), Batch(ecus, us));
  }

  lemma {:induction false} NothingAsked(ecus: seq<State>)
    ensures Batch(ecus, []) == []
  {
    if ecus != [] {
      NothingAsked(ecus[..|ecus| - 1]);
    }
  }
}
