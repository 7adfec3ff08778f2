/** The client of the diagnostic services (client.go). */
module Clients {
  import opened Can
  import opened Answers
  import opened Pids
  import opened Sorting
  import opened Obd
  import opened Vehicles
  import opened CurrentData
  import opened Queries
  import opened TroubleCodes
  import Codes
  import Discovery
  import VinRecords

  class Client {
    const t: Vehicle
    var proto: Protocol

    constructor (t: Vehicle)
      ensures this.t == t && proto == Unknown
    {
      this.t, proto := t, Unknown;
    }

    /** Request. `arrived` is what the transport returned. */
    method Request(req: seq<byte>) returns (r: Result<seq<Response>, Failure>, ghost arrived: seq<Response>)
      requires t.Valid()
      modifies this, t
      ensures t.Valid()
      ensures r == Err(BadRequest) <==> !(1 <= |req| <= 7)
      ensures r == Err(BusFailure) ==> !t.reliable && (t.ecus == old(t.ecus) || t.ecus == Served(old(t.ecus), req))
      ensures r == Err(BadRequest) ==> t.ecus == old(t.ecus)
      ensures r != Err(BadRequest) && r != Err(BusFailure) ==>
                && t.ecus == Served(old(t.ecus), req)
                && multiset(arrived) == multiset(Replies(old(t.ecus), t.protocol, req)) && r == Collected(req, arrived)
      ensures proto == if r.Ok? then t.protocol else old(proto)
    {
      hide Replies, IsAnswer, SortBy, Served;
      arrived := [];
      var got := t.RoundTrip(req);
      if got.Err? {
        return Err(got.error), [];
      }
      arrived := got.value;
      var kept := [];
      for i := 0 to |got.value|
        invariant kept == Answering(req, got.value[..i])
      {
        assert got.value[..i + 1][..i] == got.value[..i];
        if IsAnswer(req, got.value[i].data) {
          kept := kept + [got.value[i]];
        }
      }
      assert got.value[..|got.value|] == got.value;
      HeadProtocol(old(t.ecus), t.protocol, req, got.value);
      if |kept| == 0 {
        return Err(NoResponse), arrived;
      }
      var sorted := SortBy(EcuOf(), kept);
      if sorted[0].protocol != Unknown {
        proto := sorted[0].protocol;
      }
      return Ok(sorted), arrived;
    }

    /** service01: the readings of one request. */
    method Service01(ps: seq<byte>) returns (r: Result<seq<Reading>, Failure>)
      requires t.Valid() && |ps| <= 6
      modifies this, t
      ensures t.Valid() && t.ecus == old(t.ecus)
      ensures proto == old(proto) || proto == t.protocol
      ensures r == Err(BusFailure) ==> !t.reliable
      ensures r != Err(BadRequest)
      ensures r != Err(BusFailure) && AllReadable(t.ecus, ps) ==>
                && r == (if Batch(t.ecus, Unique(ps)) == [] then Err(NoResponse) else Ok(Batch(t.ecus, Unique(ps))))
                && proto == (if r.Ok? then t.protocol else old(proto))
    {
      hide Replies, IsAnswer, SortBy, Served, Batch, Collected, Unique, AllReadable;
      var req := [0x01];
      for i := 0 to |ps|
        invariant req == Request01(ps[..i])
      {
        req := req + [ps[i]];
      }
      assert ps[..|ps|] == ps;
      Service01Silent(t.ecus, ps);
      ghost var ecus := t.ecus;
      var rs;
      ghost var arrived;
      rs, arrived := Request(req);
      if rs != Err(BusFailure) && AllReadable(ecus, ps) {
        Service01Reads(ecus, t.protocol, ps, arrived);
      }
      if rs.Err? {
        return Err(rs.error);
      }
      r := Extract(ps, rs.value);
    }

    /** The rest of service01: the first reading of each PID from each ECU. */
    method Extract(ps: seq<byte>, rs: seq<Response>) returns (r: Result<seq<Reading>, Failure>)
      ensures r == ReadingsOf(ps, rs)
    {
      hide Parse;
      var pos := KeepPositive(0x01, rs);
      if pos.Err? {
        return Err(pos.error);
      }
      var seen: set<(uint32, byte)> := {};
      var out: seq<Reading> := [];
      var bad := false;
      for i := 0 to |pos.value|
        invariant KeepResponses(ps, pos.value[..i]) == (Kept(out, seen), bad)
      {
        var resp := pos.value[i];
        assert pos.value[..i + 1][..i] == pos.value[..i];
        if |resp.data| > 0 {
          var parsed := ParseReadings(resp.ecu, resp.data[1..], |ps| == 1);
          if !parsed.ok {
            bad := true;
            continue;
          }
          ghost var before := Kept(out, seen);
          for j := 0 to |parsed.readings|
            invariant KeepReadings(before, ps, parsed.readings[..j]) == Kept(out, seen)
          {
            var rd := parsed.readings[j];
            assert parsed.readings[..j + 1][..j] == parsed.readings[..j];
            if rd.pid in ps && (rd.ecu, rd.pid) !in seen {
              seen := seen + {(rd.ecu, rd.pid)};
              out := out + [rd];
            }
          }
          assert parsed.readings[..|parsed.readings|] == parsed.readings;
        }
      }
      assert pos.value[..|pos.value|] == pos.value;
      if |out| == 0 {
        return Err(if bad then BadReading else NoResponse);
      }
      return Ok(out);
    }

    /**
     * batchSize: as many leading PIDs of known size as one request may carry, if the vehicle
     * and the transport can combine them; otherwise one, whatever it is.
     */
    method BatchSize(pids: seq<byte>) returns (n: nat)
      requires pids != []
      ensures n == BatchLen(proto.IsCan() && t.combines, pids)
    {
      hide Size;
      if !proto.IsCan() || !t.combines {
        return 1;
      }
      n := 0;
      while n < |pids| && n < MAX_PIDS_PER_REQUEST
        invariant n <= |pids| && n <= MAX_PIDS_PER_REQUEST
        invariant LeadingKnown(pids, MAX_PIDS_PER_REQUEST) == n + LeadingKnown(pids[n..], MAX_PIDS_PER_REQUEST - n)
      {
        assert pids[n..][1..] == pids[n + 1..];
        if Size(pids[n]).None? {
          break;
        }
        n := n + 1;
      }
      n := Max(n, 1);
    }

    /**
     * Query. Over a reliable vehicle with table-sized data, the result for any PIDs is the
     * function `QueryResult`, and for distinct ones what one request per PID gives, however
     * the PIDs are combined.
     */
    method Query(pids: seq<byte>) returns (r: Result<seq<Reading>, Failure>)
      requires t.Valid()
      modifies this, t
      ensures t.Valid() && t.ecus == old(t.ecus)
      ensures r != Err(BadRequest)
      ensures t.reliable && AllSized(t.ecus) ==> r == QueryResult(t.ecus, t.combines, old(proto).IsCan(), pids)
      ensures t.reliable && AllSized(t.ecus) && Distinct(pids) ==>
                r == if Canonical(t.ecus, pids) == [] && pids != [] then Err(NoResponse)
                     else Ok(Canonical(t.ecus, pids))
    {
      hide Batch, Canonical, SortBy, AllSized, AllKnown, Unique, BatchLen, Distinct;
      var out: seq<Reading> := [];
      var answered := false;
      var left := pids;
      ghost var ecus, combines, exact := t.ecus, t.combines, t.reliable && AllSized(t.ecus);
      ghost var all := Gathering(ecus, Batches(ecus, combines, proto.IsCan(), pids));
      assert [] + all == all;
      while left != []
        invariant t.Valid() && t.ecus == ecus
        invariant exact ==>
                    && all == out + Gathering(ecus, Batches(ecus, combines, proto.IsCan(), left))
                    && (answered <==> out != [])
        decreases |left|
      {
        var n := BatchSize(left);
        var batch := left[..n];
        ghost var known := proto.IsCan();
        if exact {
          SizedReadable(ecus, batch);
          NextBatch(ecus, combines, known, left, out);
        }
        var rs := Service01(batch);
        left := left[n..];
        if rs == Err(NoResponse) {
          continue;
        }
        if rs.Err? {
          return Err(rs.error);
        }
        answered := true;
        out := out + rs.value;
      }
      assert out + [] == out;
      if exact && Distinct(pids) {
        DistinctQuery(ecus, combines, old(proto).IsCan(), pids);
      }
      if !answered && |pids| > 0 {
        return Err(NoResponse);
      }
      return Ok(SortBy(QueryKey(pids), out));
    }

    /** One step of SupportedPIDs: adds the PIDs that the bitmaps list, and looks at the bit for the next one. */
    method Collect(base: byte, rs: seq<Reading>, out0: seq<byte>) returns (out: seq<byte>, more: bool)
      ensures Distinct(out0) ==> Distinct(out)
      ensures forall p: byte :: p in out <==> p in out0 || Discovery.ListedBy(rs, base, p)
      ensures more <==> Discovery.ListedBy(rs, base, Plus(base, 0x20))
    {
      hide Supported, Plus;
      out, more := out0, false;
      for i := 0 to |rs|
        invariant Distinct(out0) ==> Distinct(out)
        invariant forall p: byte :: p in out <==> p in out0 || Discovery.ListedBy(rs[..i], base, p)
        invariant more <==> Discovery.ListedBy(rs[..i], base, Plus(base, 0x20))
      {
        var listed := SupportedFromBitmap(base, rs[i].data);
        ghost var before := out;
        for j := 0 to |listed|
          invariant Distinct(out0) ==> Distinct(out)
          invariant forall p: byte :: p in out <==> p in before || p in listed[..j]
        {
          assert listed[..j + 1] == listed[..j] + [listed[j]];
          if listed[j] !in out {
            out := out + [listed[j]];
          }
        }
        assert listed[..|listed|] == listed;
        var again := SupportedFromBitmap(base, rs[i].data);
        more := more || Plus(base, 0x20) in again;
        Discovery.ListedSnoc(rs, base, i);
      }
      assert rs[..|rs|] == rs;
    }

    /**
     * SupportedPIDs. Over a reliable vehicle, for any PID maps, the result is exactly the
     * union of what the ECUs have, with the bitmaps below the highest.
     */
    method SupportedPids() returns (r: Result<seq<byte>, Failure>)
      requires t.Valid()
      modifies this, t
      ensures t.Valid() && t.ecus == old(t.ecus)
      ensures t.reliable ==> (r.Err? <==> t.ecus == []) && (r.Err? ==> r == Err(NoResponse))
      ensures t.reliable && r.Ok? ==> Discovery.IsResult(t.ecus, r.value)
    {
      hide Batch, Supported, SortBy, Discovery.IsSupported, Discovery.Beyond, Discovery.Found, Discovery.IsResult,
           Unique;
      var out: seq<byte> := [];
      var base: byte := 0;
      ghost var ecus := t.ecus;
      Discovery.Start(ecus);
      while true
        invariant t.Valid() && t.ecus == ecus && base % 0x20 == 0 && base <= 0xE0
        invariant t.reliable ==> Discovery.Found(ecus, out, base)
        invariant t.reliable && base > 0 ==> ecus != [] && Discovery.Beyond(ecus, base)
        decreases 0xE0 - base
      {
        Discovery.Answered(ecus, base);
        UniqueIs([base]);
        var rs := Service01([base]);
        if rs.Err? {
          if base == 0 {
            return Err(rs.error);
          }
          break;
        }
        var next, more := Collect(base, rs.value, out);
        if t.reliable {
          Discovery.FoundDistinct(ecus, out, base);
          Discovery.Link(ecus, base, out, next, more);
        }
        out := next;
        if !more || base == 0xE0 {
          if t.reliable {
            Discovery.ChainEnds(ecus, base, out);
            Discovery.Sorted(ecus, out);
          }
          break;
        }
        base := base + 0x20;
      }
      return Ok(SortBy(Discovery.ByteKey(), out));
    }

    /** dtcs: the codes that all ECUs report for a service, sorted and without duplicates. */
    method Dtcs(sid: byte) returns (r: Result<seq<uint16>, Failure>)
      requires t.Valid() && Reports(sid)
      modifies this, t
      ensures t.Valid() && t.ecus == old(t.ecus)
      ensures r == Err(BusFailure) ==> !t.reliable
      ensures r != Err(BusFailure) ==>
                if Replies(t.ecus, t.protocol, [sid]) == [] then r == Err(NoResponse)
                else r.Ok? && IsReading(t.ecus, sid, r.value)
    {
      hide Replies, IsReading, SortBy, Merged, Collected, Served, Codes.ParseList;
      ghost var ecus := t.ecus;
      ReadsOnly(ecus, sid);
      var rs;
      ghost var arrived;
      rs, arrived := Request([sid]);
      if rs == Err(BusFailure) {
        return Err(BusFailure);
      }
      ArrivalOrderIrrelevant(ecus, t.protocol, [sid], arrived);
      RepliesCarry(ecus, t.protocol, sid);
      if rs.Err? {
        return Err(rs.error);
      }
      AllPositive(sid, rs.value);
      var pos := KeepPositive(sid, rs.value);
      var merged := MergeLists(pos.value);
      match merged {
        case Ok(out) =>
          MergedSorted(ecus, t.protocol, sid, out);
          return Ok(SortBy(CodeKey(), out));
        case Err(failure) =>
          return Err(failure);
      }
    }

    /** The codes of all responses, each once, unless one of them is malformed. */
    static method MergeLists(rs: seq<Response>) returns (r: Result<seq<uint16>, Failure>)
      ensures (forall i :: 0 <= i < |rs| ==> Codes.ParseList(rs[i].data, true).Listing?) ==>
                r.Ok? && Merged(rs, r.value)
      ensures r.Ok? || r == Err(BadListing)
    {
      hide Merged, Codes.ParseList, MergedWith;
      var out: seq<uint16> := [];
      MergedNothing();
      for i := 0 to |rs|
        invariant Merged(rs[..i], out)
      {
        var codes := Codes.ParseDTCs(rs[i].data, true);
        if codes.Malformed? {
          return Err(BadListing);
        }
        ghost var before := out;
        MergeNone(before);
        for j := 0 to |codes.codes|
          invariant MergedWith(before, codes.codes[..j], out)
        {
          MergeOne(before, codes.codes, j, out);
          if codes.codes[j] !in out {
            out := out + [codes.codes[j]];
          }
        }
        assert codes.codes[..|codes.codes|] == codes.codes;
        assert rs[..i + 1] == rs[..i] + [rs[i]];
        MergedSnoc(rs[..i], rs[i], before, out);
      }
      assert rs[..|rs|] == rs;
      return Ok(out);
    }

    /** ClearDTCs. */
    method ClearDtcs() returns (err: Option<Failure>)
      requires t.Valid()
      modifies this, t
      ensures t.Valid()
      ensures err == Some(BusFailure) ==> !t.reliable
      ensures err != Some(BusFailure) ==>
                t.ecus == Served(old(t.ecus), [0x04]) && err == if t.ecus == [] then Some(NoResponse) else None
    {
      hide Replies, Collected, Served;
      ghost var ecus := t.ecus;
      var rs;
      ghost var arrived;
      rs, arrived := Request([0x04]);
      if rs == Err(BusFailure) {
        return Some(BusFailure);
      }
      ArrivalOrderIrrelevant(ecus, t.protocol, [0x04], arrived);
      ClearReplies(ecus, t.protocol);
      if rs.Err? {
        return Some(rs.error);
      }
      AllPositive(0x04, rs.value);
      var pos := KeepPositive(0x04, rs.value);
      match pos {
        case Ok(_) => return None;
        case Err(failure) => return Some(failure);
      }
    }

    /**
     * A whole run of reads and clears on a reliable vehicle: every read gives the codes of
     * the lists as the operations before it left them.
     */
    method Session(ops: seq<Op>) returns (results: seq<Option<seq<uint16>>>)
      requires t.Valid() && t.reliable && t.ecus != []
      requires forall i :: 0 <= i < |ops| && ops[i].Read? ==> Reports(ops[i].sid)
      requires forall i :: 0 <= i < |t.ecus| ==>
                 |t.ecus[i].stored| <= 255 && |t.ecus[i].pending| <= 255 && |t.ecus[i].permanent| <= 255
      modifies this, t
      ensures t.Valid() && t.ecus == EcusAfter(old(t.ecus), ops)
      ensures |results| == |ops|
      ensures forall i :: 0 <= i < |ops| && ops[i].Read? ==>
                results[i].Some? && IsReading(EcusAfter(old(t.ecus), ops[..i]), ops[i].sid, results[i].value)
    {
      hide IsReading, Replies, Served;
      results := [];
      ghost var ecus := t.ecus;
      for i := 0 to |ops|
        invariant t.Valid() && t.ecus == EcusAfter(ecus, ops[..i]) && |results| == i
        invariant forall j :: 0 <= j < i && ops[j].Read? ==>
                    results[j].Some? && IsReading(EcusAfter(ecus, ops[..j]), ops[j].sid, results[j].value)
      {
        assert ops[..i + 1][..i] == ops[..i];
        match ops[i] {
          case Read(sid) =>
            SomeReply(ecus, ops[..i], t.protocol, sid);
            var r := Dtcs(sid);
            results := results + [Some(r.value)];
          case Clear =>
            var err := ClearDtcs();
            results := results + [None];
        }
      }
      assert ops[..|ops|] == ops;
    }

    /** VIN. */
    method Vin() returns (r: Result<seq<byte>, Failure>)
      requires t.Valid()
      modifies this, t
      ensures t.Valid() && t.ecus == old(t.ecus)
      ensures r == Err(BusFailure) ==> !t.reliable
      ensures r != Err(BusFailure) ==>
                var first := VinRecords.FirstWithVin(t.ecus);
                r == if first.None? then Err(NoResponse)
                     else if VinRecords.Printable(first.value.vin) == [] then Err(EmptyVin(first.value.Response()))
                     else Ok(VinRecords.Printable(first.value.vin))
    {
      hide Replies, Collected, Served, IsAnswer, VinRecords.Number, VinRecords.FirstWithVin, VinRecords.Printable;
      ghost var ecus := t.ecus;
      VinRecords.VinSilent(ecus);
      var rs;
      ghost var arrived;
      rs, arrived := Request([0x09, 0x02]);
      if rs == Err(BusFailure) {
        return Err(BusFailure);
      }
      ArrivalOrderIrrelevant(ecus, t.protocol, VinRecords.VIN_REQUEST, arrived);
      VinRecords.VinReplies(ecus, t.protocol);
      if VinRecords.FirstWithVin(ecus).Some? {
        VinRecords.VehicleNumber(ecus, t.protocol);
      }
      if rs.Err? {
        return Err(rs.error);
      }
      RepliesSorted(ecus, t.protocol, VinRecords.VIN_REQUEST);
      assert forall i :: 0 <= i < |rs.value| ==> rs.value[i] in rs.value;
      AllPositive(0x09, rs.value);
      r := VinRecords.Decode(rs.value);
    }
  }
}
