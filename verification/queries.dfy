/** Query as a whole: how the PIDs are cut into requests, and what that does to the result (client.go). */
module Queries {
  import opened Can
  import opened Pids
  import opened Simulator
  import opened Sorting
  import opened Vehicles
  import opened CurrentData

  const MAX_PIDS_PER_REQUEST := 6

  // ---------------------------------------------------------------- batches

  /** How many of the first n PIDs are of known size, counted from the front. */
  function LeadingKnown(pids: seq<byte>, n: nat): (k: nat)
    ensures k <= n && k <= |pids| && AllKnown(pids[..k])
    ensures k < n && k < |pids| ==> Size(pids[k]).None?
  {
    if n == 0 || pids == [] || Size(pids[0]).None? then 0
    else
      var k := LeadingKnown(pids[1..], n - 1);
      assert pids[..k + 1] == [pids[0]] + pids[1..][..k];
      k + 1
  }

  /** batchSize as a function; `can` tells whether PIDs may be combined. */
  function BatchLen(can: bool, pids: seq<byte>): (n: nat)
    requires pids != []
    ensures 1 <= n <= |pids| && n <= MAX_PIDS_PER_REQUEST && (n == 1 || AllKnown(pids[..n]))
  {
    if can then Max(LeadingKnown(pids, MAX_PIDS_PER_REQUEST), 1) else 1
  }

  /**
   * The requests that Query makes of a vehicle. PIDs are combined once the protocol is
   * known, which it is after the first request that is answered.
   */
  function Batches(ecus: seq<State>, combines: bool, known: bool, pids: seq<byte>): seq<seq<byte>>
    decreases |pids|
  {
    if pids == [] then []
    else
      var b := pids[..BatchLen(known && combines, pids)];
      [b] + Batches(ecus, combines, known || Batch(ecus, Unique(b)) != [], pids[|b|..])
  }

  /** What the requests read, one after the other. */
  function Gathering(ecus: seq<State>, batches: seq<seq<byte>>): seq<Reading> {
    if batches == [] then [] else Batch(ecus, Unique(batches[0])) + Gathering(ecus, batches[1..])
  }

  /** The result of Query over a reliable vehicle, for any PIDs whatever. */
  function QueryResult(ecus: seq<State>, combines: bool, known: bool, pids: seq<byte>): Result<seq<Reading>, Failure> {
    var out := Gathering(ecus, Batches(ecus, combines, known, pids));
    if out == [] && pids != [] then Err(NoResponse) else Ok(SortBy(QueryKey(pids), out))
  }

  /** The next request of Query. */
  lemma NextBatch(ecus: seq<State>, combines: bool, known: bool, left: seq<byte>, out: seq<Reading>)
    requires left != []
    ensures
      var b := left[..BatchLen(known && combines, left)];
      var held := Batch(ecus, Unique(b));
      && (|b| == 1 || (AllKnown(b) && |b| <= 6))
      && out + Gathering(ecus, Batches(ecus, combines, known, left))
         == (if held == [] then out else out + held)
            + Gathering(ecus, Batches(ecus, combines, known || held != [], left[|b|..]))
  {
    hide Batch, Unique, AllKnown;
    var b := left[..BatchLen(known && combines, left)];
    var held := Batch(ecus, Unique(b));
    var rest := Batches(ecus, combines, known || held != [], left[|b|..]);
    assert ([b] + rest)[1..] == rest;
    assert out + (held + Gathering(ecus, rest)) == out + held + Gathering(ecus, rest);
    assert held == [] ==> out + held == out;
  }

  /** All the PIDs of some requests. */
  function Joined(batches: seq<seq<byte>>): seq<byte> {
    if batches == [] then [] else batches[0] + Joined(batches[1..])
  }

  /** Each request is for a single PID, or for up to six of known size. */
  predicate Proper(batches: seq<seq<byte>>) {
    forall i :: 0 <= i < |batches| ==>
        |batches[i]| == 1 || (AllKnown(batches[i]) && |batches[i]| <= MAX_PIDS_PER_REQUEST)
  }

  lemma NoRequests()
    ensures Joined([]) == [] && Proper([])
  {
  }

  lemma PartitionCons(b: seq<byte>, rest: seq<seq<byte>>)
    requires |b| == 1 || (AllKnown(b) && |b| <= MAX_PIDS_PER_REQUEST)
    ensures Joined([b] + rest) == b + Joined(rest) && (Proper(rest) ==> Proper([b] + rest))
    ensures |b| == 1 && (forall c :: c in rest ==> |c| == 1) ==> forall c :: c in [b] + rest ==> |c| == 1
  {
    hide AllKnown;
    assert ([b] + rest)[1..] == rest;
  }

  /** The requests are a partition of the PIDs into proper ones. */
  lemma {:induction false} BatchesPartition(ecus: seq<State>, combines: bool, known: bool, pids: seq<byte>)
    ensures Joined(Batches(ecus, combines, known, pids)) == pids && Proper(Batches(ecus, combines, known, pids))
    ensures !combines ==> forall b :: b in Batches(ecus, combines, known, pids) ==> |b| == 1
    decreases |pids|
  {
    hide Batch, Unique, AllKnown, Joined, Proper;
    if pids == [] {
      NoRequests();
    } else {
      var n := BatchLen(known && combines, pids);
      var b := pids[..n];
      assert !combines ==> n == 1;
      hide BatchLen;
      var known' := known || Batch(ecus, Unique(b)) != [];
      BatchesPartition(ecus, combines, known', pids[n..]);
      assert pids == b + pids[n..];
      PartitionCons(b, Batches(ecus, combines, known', pids[n..]));
    }
  }

  // ---------------------------------------------------------------- against one PID at a time

  lemma {:induction false} CanonicalAppend(ecus: seq<State>, ps: seq<byte>, qs: seq<byte>)
    ensures Canonical(ecus, ps + qs) == Canonical(ecus, ps) + Canonical(ecus, qs)
  {
    hide Batch;
    if qs == [] {
      assert ps + qs == ps;
    } else {
      var before, q := qs[..|qs| - 1], qs[|qs| - 1];
      CanonicalAppend(ecus, ps, before);
      assert ps + qs == ps + before + [q];
      CanonicalSnoc(ecus, ps + before, q);
    }
  }

  /** No held PID is repeated inside one request. */
  predicate NoneMerged(ecus: seq<State>, batches: seq<seq<byte>>) {
    forall i :: 0 <= i < |batches| ==> RepeatsEmpty(ecus, batches[i])
  }

  /** A single PID cannot be repeated. */
  lemma SingleRequest(ecus: seq<State>, b: seq<byte>)
    requires |b| == 1
    ensures RepeatsEmpty(ecus, b) && Batch(ecus, Unique(b)) == Canonical(ecus, b)
  {
    UniqueIs(b);
    hide Batch, Unique;
    CanonicalSnoc(ecus, [], b[0]);
    assert [] + [b[0]] == b;
  }

  /** One request against one request per PID. */
  lemma OneRequest(ecus: seq<State>, b: seq<byte>)
    requires ValidEcus(ecus) && AllSized(ecus) && (|b| == 1 || (AllKnown(b) && |b| <= MAX_PIDS_PER_REQUEST))
    ensures |Batch(ecus, Unique(b))| <= |Canonical(ecus, b)|
    ensures |Batch(ecus, Unique(b))| == |Canonical(ecus, b)| <==> RepeatsEmpty(ecus, b)
    ensures RepeatsEmpty(ecus, b) ==> multiset(Batch(ecus, Unique(b))) == multiset(Canonical(ecus, b))
  {
    hide Batch, Unique, Canonical, RepeatsEmpty, AllSized, AllKnown;
    if |b| == 1 {
      SingleRequest(ecus, b);
    } else {
      RepeatsMerge(ecus, b);
    }
  }

  lemma {:induction false} GatheringCounted(ecus: seq<State>, batches: seq<seq<byte>>)
    requires ValidEcus(ecus) && AllSized(ecus) && Proper(batches)
    ensures
      var out, one := Gathering(ecus, batches), Canonical(ecus, Joined(batches));
      && |out| <= |one|
      && (|out| == |one| <==> NoneMerged(ecus, batches))
      && (NoneMerged(ecus, batches) ==> multiset(out) == multiset(one))
  {
    hide Batch, Unique, Canonical, RepeatsEmpty, AllSized, AllKnown;
    if batches == [] {
      NothingGathered(ecus);
    } else {
      var rest := batches[1..];
      GatheringCounted(ecus, rest);
      OneRequest(ecus, batches[0]);
      CanonicalAppend(ecus, batches[0], Joined(rest));
      NoneMergedCons(ecus, batches);
    }
  }

  lemma NothingGathered(ecus: seq<State>)
    ensures Canonical(ecus, []) == []
  {
  }

  lemma NoneMergedCons(ecus: seq<State>, batches: seq<seq<byte>>)
    requires batches != []
    ensures NoneMerged(ecus, batches) <==> RepeatsEmpty(ecus, batches[0]) && NoneMerged(ecus, batches[1..])
  {
    hide RepeatsEmpty;
    if RepeatsEmpty(ecus, batches[0]) && NoneMerged(ecus, batches[1..]) {
      forall i | 0 <= i < |batches| ensures RepeatsEmpty(ecus, batches[i]) {
        assert i > 0 ==> batches[i] == batches[1..][i - 1];
      }
    }
  }

  /** Readings of the canonical result with the same key are the same. */
  lemma SameKeySameReading(ecus: seq<State>, pids: seq<byte>, x: Reading, y: Reading)
    requires ValidEcus(ecus) && x in Canonical(ecus, pids) && y in Canonical(ecus, pids)
    requires QueryKey(pids)(x) == QueryKey(pids)(y)
    ensures x == y
  {
    hide Batch, Canonical;
    CanonicalMembers(ecus, pids, x);
    CanonicalMembers(ecus, pids, y);
    KeyInjective(pids, x, y);
    ColumnStrict(ecus, pids, x.pid);
    SameKeySame(QueryKey(pids), Batch(ecus, [x.pid]), x, y);
  }

  /** Without combining, Query gathers the canonical result. */
  lemma {:induction false} SinglesCanonical(ecus: seq<State>, batches: seq<seq<byte>>)
    requires forall b :: b in batches ==> |b| == 1
    ensures Gathering(ecus, batches) == Canonical(ecus, Joined(batches))
  {
    hide Batch, Unique, Canonical;
    if batches == [] {
      NothingGathered(ecus);
    } else {
      assert forall b :: b in batches[1..] ==> b in batches;
      SinglesCanonical(ecus, batches[1..]);
      SingleRequest(ecus, batches[0]);
      CanonicalAppend(ecus, batches[0], Joined(batches[1..]));
    }
  }

  /**
   * Combining against one PID at a time, for any PIDs, repeated or not: Query with combined
   * requests never gives more readings than Query with single ones, and gives the same
   * result if and only if no PID that an ECU holds is repeated inside one request.
   */
  lemma CombiningExact(ecus: seq<State>, known: bool, pids: seq<byte>)
    requires ValidEcus(ecus) && AllSized(ecus)
    ensures
      var combined, single := QueryResult(ecus, true, known, pids), QueryResult(ecus, false, known, pids);
      && (combined == single <==> NoneMerged(ecus, Batches(ecus, true, known, pids)))
      && (combined.Ok? && single.Ok? ==> |combined.value| <= |single.value|)
      && (combined.Ok? <==> single.Ok?)
  {
    var batches, singles := Batches(ecus, true, known, pids), Batches(ecus, false, known, pids);
    BatchesPartition(ecus, true, known, pids);
    BatchesPartition(ecus, false, known, pids);
    GatheringCounted(ecus, batches);
    SinglesCanonical(ecus, singles);
    SomethingEither(ecus, batches);
    hide Batches, Gathering, Canonical, NoneMerged, QueryKey, AllSized, SortBy, Proper;
    SortedLength(pids, Gathering(ecus, batches));
    SortedLength(pids, Canonical(ecus, pids));
    if NoneMerged(ecus, batches) {
      SortCanonical(ecus, pids, Gathering(ecus, batches));
    }
  }

  lemma SortedLength(pids: seq<byte>, out: seq<Reading>)
    ensures |SortBy(QueryKey(pids), out)| == |out|
  {
    SortMultiset(QueryKey(pids), out);
    hide SortBy;
    SizesAgree(SortBy(QueryKey(pids), out), out);
  }

  lemma SortCanonical(ecus: seq<State>, pids: seq<byte>, out: seq<Reading>)
    requires ValidEcus(ecus) && multiset(out) == multiset(Canonical(ecus, pids))
    ensures SortBy(QueryKey(pids), out) == SortBy(QueryKey(pids), Canonical(ecus, pids))
  {
    hide Canonical, QueryKey, SortBy;
    var one := Canonical(ecus, pids);
    forall x, y | x in multiset(one) && y in multiset(one) && QueryKey(pids)(x) == QueryKey(pids)(y) ensures x == y {
      SameKeySameReading(ecus, pids, x, y);
    }
    SortArranged(QueryKey(pids), one, out);
  }

  /** Combining never loses all readings. */
  lemma SomethingEither(ecus: seq<State>, batches: seq<seq<byte>>)
    requires ValidEcus(ecus) && AllSized(ecus) && Proper(batches)
    ensures Gathering(ecus, batches) == [] <==> Canonical(ecus, Joined(batches)) == []
  {
    hide Gathering, Canonical, AllSized, Batch, Joined, Proper;
    forall r: Reading ensures r in Gathering(ecus, batches) <==> r in Canonical(ecus, Joined(batches)) {
      GatheringMembers(ecus, batches, r);
      CanonicalMembers(ecus, Joined(batches), r);
    }
    BothEmpty(Gathering(ecus, batches), Canonical(ecus, Joined(batches)));
  }

  lemma BothEmpty<T>(a: seq<T>, b: seq<T>)
    requires forall x :: x in a <==> x in b
    ensures a == [] <==> b == []
  {
    assert a != [] ==> a[0] in a;
    assert b != [] ==> b[0] in b;
  }

  // ---------------------------------------------------------------- one reading per PID and ECU

  /** At most one reading per PID and ECU. */
  predicate OneEach(rds: seq<Reading>) {
    forall i, j :: 0 <= i < j < |rds| ==> (rds[i].pid, rds[i].ecu) != (rds[j].pid, rds[j].ecu)
  }

  /** No PID that an ECU holds is asked for in two requests. */
  predicate AskedOnce(ecus: seq<State>, batches: seq<seq<byte>>) {
    forall i, j, p :: 0 <= i < j < |batches| && p in batches[i] && p in batches[j] ==> Batch(ecus, [p]) == []
  }

  function PidAndEcu(): Reading -> int {
    (r: Reading) => r.pid * ECUS + r.ecu
  }

  lemma OneEachKeys(rds: seq<Reading>)
    ensures OneEach(rds) <==> DistinctKeys(PidAndEcu(), rds)
  {
  }

  /** A request reads each PID once from each ECU. */
  lemma RequestOneEach(ecus: seq<State>, b: seq<byte>)
    requires ValidEcus(ecus)
    ensures OneEach(Batch(ecus, Unique(b)))
  {
    UniqueIs(b);
    hide Batch, Unique, Distinct;
    BatchDistinct(ecus, Unique(b), b);
  }

  /** What a request reads, PID by PID. */
  lemma RequestMembers(ecus: seq<State>, b: seq<byte>, r: Reading)
    requires AllSized(ecus) && (|b| == 1 || (AllKnown(b) && |b| <= MAX_PIDS_PER_REQUEST))
    ensures r in Batch(ecus, Unique(b)) <==> r.pid in b && r in Batch(ecus, [r.pid])
  {
    hide Batch, Unique, AllSized, Distinct;
    UniqueIs(b);
    assert forall i :: 0 <= i < |Unique(b)| ==> Unique(b)[i] in Unique(b);
    BatchAlone(ecus, Unique(b), r);
  }

  /** What all requests read: everything held of the PIDs asked for. */
  lemma {:induction false} GatheringMembers(ecus: seq<State>, batches: seq<seq<byte>>, r: Reading)
    requires AllSized(ecus) && Proper(batches)
    ensures r in Gathering(ecus, batches) <==> r.pid in Joined(batches) && r in Batch(ecus, [r.pid])
  {
    hide Batch, Unique, AllSized, AllKnown;
    if batches != [] {
      GatheringMembers(ecus, batches[1..], r);
      RequestMembers(ecus, batches[0], r);
    }
  }

  lemma {:induction false} JoinedMembers(batches: seq<seq<byte>>, p: byte)
    ensures p in Joined(batches) <==> exists i :: 0 <= i < |batches| && p in batches[i]
  {
    if batches != [] {
      JoinedMembers(batches[1..], p);
      if p in Joined(batches[1..]) {
        var i :| 0 <= i < |batches[1..]| && p in batches[1..][i];
        assert p in batches[i + 1];
      }
      if i :| 0 <= i < |batches| && p in batches[i] {
        assert i > 0 ==> batches[i] == batches[1..][i - 1];
      }
    }
  }

  lemma AskedOnceCons(ecus: seq<State>, batches: seq<seq<byte>>)
    requires batches != []
    ensures AskedOnce(ecus, batches)
            <==> AskedOnce(ecus, batches[1..])
                 && forall p :: p in batches[0] && p in Joined(batches[1..]) ==> Batch(ecus, [p]) == []
  {
    hide Batch, Joined;
    var rest := batches[1..];
    forall p ensures p in Joined(rest) <==> exists i :: 0 <= i < |rest| && p in rest[i] {
      JoinedMembers(rest, p);
    }
    assert forall i :: 0 <= i < |rest| ==> rest[i] == batches[i + 1];
    if AskedOnce(ecus, rest) && forall p :: p in batches[0] && p in Joined(rest) ==> Batch(ecus, [p]) == [] {
      forall i, j, p | 0 <= i < j < |batches| && p in batches[i] && p in batches[j] ensures Batch(ecus, [p]) == [] {
        assert p in rest[j - 1];
        assert i > 0 ==> p in rest[i - 1];
      }
    }
  }

  lemma OneEachAppend(a: seq<Reading>, b: seq<Reading>)
    requires OneEach(a)
    ensures OneEach(a + b)
            <==> OneEach(b) && forall x, y :: x in a && y in b ==> (x.pid, x.ecu) != (y.pid, y.ecu)
  {
    var c := a + b;
    if OneEach(c) {
      forall i, j | 0 <= i < j < |b| ensures (b[i].pid, b[i].ecu) != (b[j].pid, b[j].ecu) {
        assert c[|a| + i] == b[i] && c[|a| + j] == b[j];
      }
      forall x, y | x in a && y in b ensures (x.pid, x.ecu) != (y.pid, y.ecu) {
        var i :| 0 <= i < |a| && a[i] == x;
        var j :| 0 <= j < |b| && b[j] == y;
        assert c[i] == x && c[|a| + j] == y;
      }
    }
    if OneEach(b) && forall x, y :: x in a && y in b ==> (x.pid, x.ecu) != (y.pid, y.ecu) {
      forall i, j | 0 <= i < j < |c| ensures (c[i].pid, c[i].ecu) != (c[j].pid, c[j].ecu) {
        assert i < |a| ==> c[i] == a[i] && c[i] in a;
        assert j >= |a| ==> c[j] == b[j - |a|] && c[j] in b;
      }
    }
  }

  /** A request and the rest read something twice exactly if they share a PID that is held. */
  lemma ReadAgain(ecus: seq<State>, b: seq<byte>, rest: seq<seq<byte>>)
    requires ValidEcus(ecus) && AllSized(ecus) && Proper(rest)
    requires |b| == 1 || (AllKnown(b) && |b| <= MAX_PIDS_PER_REQUEST)
    ensures (forall x, y :: x in Batch(ecus, Unique(b)) && y in Gathering(ecus, rest) ==>
               (x.pid, x.ecu) != (y.pid, y.ecu))
            <==> forall p :: p in b && p in Joined(rest) ==> Batch(ecus, [p]) == []
  {
    hide Batch, Unique, AllSized, Gathering, Joined, AllKnown;
    forall r: Reading
      ensures r in Batch(ecus, Unique(b)) <==> r.pid in b && r in Batch(ecus, [r.pid])
      ensures r in Gathering(ecus, rest) <==> r.pid in Joined(rest) && r in Batch(ecus, [r.pid])
    {
      RequestMembers(ecus, b, r);
      GatheringMembers(ecus, rest, r);
    }
    if p :| p in b && p in Joined(rest) && Batch(ecus, [p]) != [] {
      ColumnStrict(ecus, b, p);
      var x := Batch(ecus, [p])[0];
      assert x in Batch(ecus, [p]) && x.pid == p;
      assert x in Batch(ecus, Unique(b)) && x in Gathering(ecus, rest);
    }
  }

  lemma {:induction false} GatheringOneEach(ecus: seq<State>, batches: seq<seq<byte>>)
    requires ValidEcus(ecus) && AllSized(ecus) && Proper(batches)
    ensures OneEach(Gathering(ecus, batches)) <==> AskedOnce(ecus, batches)
  {
    hide Batch, Unique, AllSized, AllKnown, AskedOnce, OneEach, Joined;
    if batches == [] {
      NothingTwice(ecus);
    } else {
      var b, rest := batches[0], batches[1..];
      GatheringOneEach(ecus, rest);
      RequestOneEach(ecus, b);
      OneEachAppend(Batch(ecus, Unique(b)), Gathering(ecus, rest));
      ReadAgain(ecus, b, rest);
      AskedOnceCons(ecus, batches);
    }
  }

  lemma NothingTwice(ecus: seq<State>)
    ensures OneEach([]) && AskedOnce(ecus, [])
  {
  }

  /** Sorting changes nothing in how often a PID is read. */
  lemma SortedOneEach(pids: seq<byte>, out: seq<Reading>)
    ensures OneEach(SortBy(QueryKey(pids), out)) <==> OneEach(out)
  {
    var sorted := SortBy(QueryKey(pids), out);
    SortMultiset(QueryKey(pids), out);
    hide SortBy, QueryKey, OneEach, PidAndEcu;
    OneEachKeys(out);
    OneEachKeys(sorted);
    if OneEach(out) {
      DistinctArranged(PidAndEcu(), out, sorted);
    }
    if OneEach(sorted) {
      DistinctArranged(PidAndEcu(), sorted, out);
    }
  }

  /**
   * The promise of Query, exactly: for any PIDs and any way of combining them, its result has
   * at most one reading per PID and ECU if and only if no PID that an ECU holds is asked for
   * in two of its requests.
   */
  lemma OneReadingExact(ecus: seq<State>, combines: bool, known: bool, pids: seq<byte>)
    requires ValidEcus(ecus) && AllSized(ecus)
    ensures
      var r := QueryResult(ecus, combines, known, pids);
      r.Ok? ==> (OneEach(r.value) <==> AskedOnce(ecus, Batches(ecus, combines, known, pids)))
  {
    var batches := Batches(ecus, combines, known, pids);
    BatchesPartition(ecus, combines, known, pids);
    GatheringOneEach(ecus, batches);
    hide Batches, Gathering, OneEach, AskedOnce, AllSized, Proper, SortBy, QueryKey;
    SortedOneEach(pids, Gathering(ecus, batches));
  }

  /** How many requests ask for a PID. */
  function Requests(batches: seq<seq<byte>>, p: byte): nat {
    if batches == [] then 0 else (if p in batches[0] then 1 else 0) + Requests(batches[1..], p)
  }

  lemma OneEachOnce(rds: seq<Reading>, r: Reading)
    requires OneEach(rds)
    ensures multiset(rds)[r] == if r in rds then 1 else 0
  {
    OneEachKeys(rds);
    SortStrict(PidAndEcu(), rds);
    SortMultiset(PidAndEcu(), rds);
    hide SortBy, OneEach, PidAndEcu;
    AtMostOnce(PidAndEcu(), SortBy(PidAndEcu(), rds), r);
    assert r in rds <==> r in multiset(rds);
  }

  lemma {:induction false} GatheringCounts(ecus: seq<State>, batches: seq<seq<byte>>, r: Reading)
    requires ValidEcus(ecus) && AllSized(ecus) && Proper(batches)
    ensures multiset(Gathering(ecus, batches))[r]
            == if r in Batch(ecus, [r.pid]) then Requests(batches, r.pid) else 0
  {
    hide Batch, Unique, AllSized, AllKnown, OneEach;
    if batches != [] {
      GatheringCounts(ecus, batches[1..], r);
      RequestOneEach(ecus, batches[0]);
      OneEachOnce(Batch(ecus, Unique(batches[0])), r);
      RequestMembers(ecus, batches[0], r);
    }
  }

  /** How often: a reading that an ECU holds is in the result once for every request that asks for its PID. */
  lemma ReadPerRequest(ecus: seq<State>, combines: bool, known: bool, pids: seq<byte>, r: Reading)
    requires ValidEcus(ecus) && AllSized(ecus) && QueryResult(ecus, combines, known, pids).Ok?
    ensures multiset(QueryResult(ecus, combines, known, pids).value)[r]
            == if r in Batch(ecus, [r.pid]) then Requests(Batches(ecus, combines, known, pids), r.pid) else 0
  {
    var batches := Batches(ecus, combines, known, pids);
    BatchesPartition(ecus, combines, known, pids);
    GatheringCounts(ecus, batches, r);
    hide Batches, Gathering, Requests, AllSized, Proper, SortBy, QueryKey, Batch;
    SortMultiset(QueryKey(pids), Gathering(ecus, batches));
  }

  /** So without combining, a PID that is given twice is read twice from every ECU that holds it. */
  lemma GivenTwice(ecus: seq<State>, known: bool, p: byte, r: Reading)
    requires ValidEcus(ecus) && AllSized(ecus) && r in Batch(ecus, [p])
    ensures
      var q := QueryResult(ecus, false, known, [p, p]);
      q.Ok? && multiset(q.value)[r] == 2 && !OneEach(q.value)
  {
    hide Batch, Unique, AllSized, SortBy, QueryKey;
    ColumnStrict(ecus, [p], p);
    assert r.pid == p;
    SingleRequest(ecus, [p]);
    assert [p, p][1..] == [p] && [p, p][..1] == [p] == [p][..1] && [p][1..] == [];
    var known' := known || Batch(ecus, Unique([p])) != [];
    var batches := Batches(ecus, false, known, [p, p]);
    assert Batches(ecus, false, known', [p]) == [[p]];
    assert batches == [[p], [p]] && batches[1..] == [[p]];
    assert Requests([[p]], p) == 1 && Requests(batches, p) == 2;
    ReadPerRequest(ecus, false, known, [p, p], r);
    OneReadingExact(ecus, false, known, [p, p]);
  }

  // ---------------------------------------------------------------- distinct PIDs

  lemma {:induction false} DistinctGathered(ecus: seq<State>, pids: seq<byte>, n: nat, out: seq<Reading>,
                                            batches: seq<seq<byte>>)
    requires ValidEcus(ecus) && AllSized(ecus) && Distinct(pids) && Proper(batches)
    requires n <= |pids| && Joined(batches) == pids[n..] && Gathered(ecus, pids, n, out)
    requires forall i :: 0 <= i < |batches| ==> batches[i] != []
    ensures Gathered(ecus, pids, |pids|, out + Gathering(ecus, batches))
    decreases |batches|
  {
    hide Gathered, Batch, Unique, AllSized, AllKnown;
    if batches == [] {
      assert out + [] == out && n == |pids|;
    } else {
      var b, rest := batches[0], batches[1..];
      assert b == pids[n..n + |b|] && Joined(rest) == pids[n + |b|..];
      UniqueIs(b);
      GatherBatch(ecus, pids, n, |b|, out);
      DistinctGathered(ecus, pids, n + |b|, out + Batch(ecus, b), rest);
      assert out + (Batch(ecus, b) + Gathering(ecus, rest)) == out + Batch(ecus, b) + Gathering(ecus, rest);
    }
  }

  lemma {:induction false} BatchesNonempty(ecus: seq<State>, combines: bool, known: bool, pids: seq<byte>)
    ensures forall i :: 0 <= i < |Batches(ecus, combines, known, pids)| ==>
              Batches(ecus, combines, known, pids)[i] != []
    decreases |pids|
  {
    hide Batch, Unique;
    if pids != [] {
      var b := pids[..BatchLen(known && combines, pids)];
      BatchesNonempty(ecus, combines, known || Batch(ecus, Unique(b)) != [], pids[|b|..]);
    }
  }

  /** For distinct PIDs, the result is the canonical one, however they are combined. */
  lemma DistinctQuery(ecus: seq<State>, combines: bool, known: bool, pids: seq<byte>)
    requires ValidEcus(ecus) && AllSized(ecus) && Distinct(pids)
    ensures QueryResult(ecus, combines, known, pids)
            == if Canonical(ecus, pids) == [] && pids != [] then Err(NoResponse) else Ok(Canonical(ecus, pids))
  {
    var batches := Batches(ecus, combines, known, pids);
    BatchesPartition(ecus, combines, known, pids);
    BatchesNonempty(ecus, combines, known, pids);
    GatherNothing(ecus, pids);
    assert pids[0..] == pids;
    DistinctGathered(ecus, pids, 0, [], batches);
    hide Gathered, Batches, Gathering, Canonical, SortBy, QueryKey, AllSized;
    assert [] + Gathering(ecus, batches) == Gathering(ecus, batches);
    GatherDone(ecus, pids, Gathering(ecus, batches));
  }
}
