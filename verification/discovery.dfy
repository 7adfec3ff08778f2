/** The chained "PIDs supported" bitmaps (client.go, pid.go, ecusim/ecusim.go). */
module Discovery {
  import opened Can
  import opened Pids
  import opened Simulator
  import opened Sorting
  import opened CurrentData

  /** Some ECU has a PID, other than a bitmap, above p. */
  predicate Beyond(ecus: seq<State>, p: byte) {
    exists i :: 0 <= i < |ecus| && AnyAbove(ecus[i].pids.Keys, p)
  }

  predicate Configured(ecus: seq<State>, p: byte) {
    exists i :: 0 <= i < |ecus| && p in ecus[i].pids
  }

  /** The PIDs a vehicle supports: what its ECUs are configured with, and every bitmap below the highest of these. */
  predicate IsSupported(ecus: seq<State>, p: byte) {
    if p % 0x20 != 0 then Configured(ecus, p) else p > 0 && Beyond(ecus, p)
  }

  function ByteKey(): byte -> int {
    (p: byte) => p
  }

  /** The list of supported PIDs up to a bound, each once. */
  ghost predicate Found(ecus: seq<State>, out: seq<byte>, bound: int) {
    Distinct(out) && forall p: byte :: p in out <==> IsSupported(ecus, p) && p <= bound
  }

  // ---------------------------------------------------------------- one bitmap

  lemma ListedInRange(keys: set<byte>, base: byte, n: nat)
    requires base % 0x20 == 0 && n < 32 && Has(keys, base, n)
    ensures base + n + 1 < 0x100
    ensures
      var p := Plus(base, n + 1);
      p == base + n + 1 && (if p % 0x20 != 0 then p in keys else AnyAbove(keys, p))
  {
  }

  lemma RangeListed(keys: set<byte>, base: byte, p: byte)
    requires base % 0x20 == 0 && base < p <= base + 0x20
    requires if p % 0x20 != 0 then p in keys else AnyAbove(keys, p)
    ensures Has(keys, base, p - base - 1) && p == Plus(base, p - base)
  {
    if p % 0x20 != 0 {
      assert Marks(p, base, p - base - 1);
    } else {
      var q :| q in keys && q % 0x20 != 0 && q > p;
      assert Marks(q, base, 31);
    }
  }

  /** What the tester reads from an ECU's bitmap: exactly that ECU's PIDs of the range, without wrapping. */
  lemma BitmapLists(keys: set<byte>, base: byte, p: byte)
    requires base % 0x20 == 0
    ensures p in Supported(base, BitmapOf(keys, base)) <==>
            base < p <= base + 0x20 && (if p % 0x20 != 0 then p in keys else AnyAbove(keys, p))
  {
    var bitmap := BitmapOf(keys, base);
    ListedMembers(base, bitmap, 32);
    hide Has, AnyAbove, BitmapBit, Plus, BitmapOf, Listed;
    if p in Supported(base, bitmap) {
      var n :| 0 <= n < 32 && BitmapBit(bitmap, n) && p == Plus(base, n + 1);
      BitmapBits(keys, base, n);
      ListedInRange(keys, base, n);
    }
    if base < p <= base + 0x20 && (if p % 0x20 != 0 then p in keys else AnyAbove(keys, p)) {
      RangeListed(keys, base, p);
      BitmapBits(keys, base, p - base - 1);
    }
  }

  // ---------------------------------------------------------------- all ECUs

  /** What an ECU answers to the request for one bitmap. */
  lemma OwnBitmap(e: State, base: byte)
    requires base % 0x20 == 0
    ensures Own(e, [base]) == if base == 0 || AnyAbove(e.pids.Keys, base)
                              then [Reading(base, e.Response(), BitmapOf(e.pids.Keys, base))] else []
  {
    hide AnyAbove, BitmapOf, Encode;
    HeldSnoc(e.pids, e.Response(), [base], 0);
    assert [base][..1] == [base] && [base][..0] == [];
    var r := Reading(base, e.Response(), BitmapOf(e.pids.Keys, base));
    EncodeOne(r);
    assert [] + [r] == [r];
  }

  /** Some reading's bitmap lists p. */
  predicate ListedBy(rds: seq<Reading>, base: byte, p: byte) {
    exists i :: 0 <= i < |rds| && p in Supported(base, rds[i].data)
  }

  /** What one ECU holds above the base. */
  predicate Adds(e: State, p: byte) {
    if p % 0x20 != 0 then p in e.pids else AnyAbove(e.pids.Keys, p)
  }

  /** An ECU without anything above the base keeps silent, and has nothing to list. */
  lemma OwnLists(e: State, base: byte, p: byte)
    requires base % 0x20 == 0
    ensures ListedBy(Own(e, [base]), base, p) <==> base < p <= base + 0x20 && Adds(e, p)
  {
    OwnBitmap(e, base);
    BitmapLists(e.pids.Keys, base, p);
    AboveWhenListed(e.pids.Keys, base, p);
    hide Own, Supported, AnyAbove, BitmapOf;
    var own := Own(e, [base]);
    if own != [] {
      assert p in Supported(base, BitmapOf(e.pids.Keys, base)) <==> p in Supported(base, own[0].data);
    }
  }

  lemma {:induction false} ColumnLists(ecus: seq<State>, base: byte, p: byte)
    requires base % 0x20 == 0
    ensures ListedBy(Batch(ecus, [base]), base, p) <==> base < p <= base + 0x20 && IsSupported(ecus, p)
  {
    if ecus != [] {
      hide Own, Supported, Adds, ListedBy;
      var before, e := ecus[..|ecus| - 1], ecus[|ecus| - 1];
      ColumnLists(before, base, p);
      OwnLists(e, base, p);
      ListsAppend(Batch(before, [base]), Own(e, [base]), base, p);
      assert ecus == before + [e];
      SupportedSnoc(before, e, p);
    }
  }

  lemma ListsAppend(a: seq<Reading>, b: seq<Reading>, base: byte, p: byte)
    ensures ListedBy(a + b, base, p) <==> ListedBy(a, base, p) || ListedBy(b, base, p)
  {
    hide Supported;
    if ListedBy(a, base, p) {
      var i :| 0 <= i < |a| && p in Supported(base, a[i].data);
      assert (a + b)[i] == a[i];
    }
    if ListedBy(b, base, p) {
      var i :| 0 <= i < |b| && p in Supported(base, b[i].data);
      assert (a + b)[|a| + i] == b[i];
    }
  }

  lemma ListedSnoc(rds: seq<Reading>, base: byte, n: nat)
    requires n < |rds|
    ensures forall p ::
              ListedBy(rds[..n + 1], base, p) <==> ListedBy(rds[..n], base, p) || p in Supported(base, rds[n].data)
  {
    hide Supported, ListedBy;
    assert rds[..n + 1] == rds[..n] + [rds[n]];
    forall p
      ensures ListedBy(rds[..n + 1], base, p) <==> ListedBy(rds[..n], base, p) || p in Supported(base, rds[n].data)
    {
      ListsAppend(rds[..n], [rds[n]], base, p);
      ListedByOne(rds[n], base, p);
    }
  }

  lemma ListedByOne(r: Reading, base: byte, p: byte)
    ensures ListedBy([r], base, p) <==> p in Supported(base, r.data)
  {
    hide Supported;
    assert [r][0] == r;
  }

  lemma SupportedSnoc(before: seq<State>, e: State, p: byte)
    ensures IsSupported(before + [e], p) <==>
            IsSupported(before, p)
            || (p > 0 && Adds(e, p))
  {
    hide AnyAbove;
    var ecus := before + [e];
    assert ecus[|before|] == e;
    assert forall i :: 0 <= i < |before| ==> ecus[i] == before[i];
    if p % 0x20 != 0 {
      if Configured(before, p) {
        var i :| 0 <= i < |before| && p in before[i].pids;
        assert p in ecus[i].pids;
      }
    } else if Beyond(before, p) {
      var i :| 0 <= i < |before| && AnyAbove(before[i].pids.Keys, p);
      assert AnyAbove(ecus[i].pids.Keys, p);
    }
  }

  lemma AboveWhenListed(keys: set<byte>, base: byte, p: byte)
    requires base % 0x20 == 0
    ensures base < p && (if p % 0x20 != 0 then p in keys else AnyAbove(keys, p)) ==> AnyAbove(keys, base)
  {
  }

  // ---------------------------------------------------------------- the chain

  /** One link of the chain: the next 32 PIDs are found, and the last bit tells whether there are more. */
  lemma Link(ecus: seq<State>, base: byte, out: seq<byte>, next: seq<byte>, more: bool)
    requires base % 0x20 == 0 && Found(ecus, out, base) && Distinct(next)
    requires forall p: byte ::
               p in next <==> p in out || ListedBy(Batch(ecus, [base]), base, p)
    requires more <==> ListedBy(Batch(ecus, [base]), base, Plus(base, 0x20))
    ensures Found(ecus, next, base + 0x20)
    ensures more <==> base < 0xE0 && Beyond(ecus, Plus(base, 0x20))
  {
    SupportedBitmap(ecus, Plus(base, 0x20));
    hide Supported, Batch, IsSupported, Distinct, ListedBy;
    forall p: byte ensures p in next <==> IsSupported(ecus, p) && p <= base + 0x20 {
      ColumnLists(ecus, base, p);
    }
    ColumnLists(ecus, base, Plus(base, 0x20));
  }

  lemma SupportedBitmap(ecus: seq<State>, p: byte)
    requires p % 0x20 == 0
    ensures IsSupported(ecus, p) <==> p > 0 && Beyond(ecus, p)
  {
  }

  lemma FoundDistinct(ecus: seq<State>, out: seq<byte>, bound: int)
    requires Found(ecus, out, bound)
    ensures Distinct(out)
  {
  }

  /** When nothing lies beyond the last range, everything has been found. */
  lemma ChainEnds(ecus: seq<State>, base: byte, out: seq<byte>)
    requires base % 0x20 == 0 && Found(ecus, out, base + 0x20)
    requires !(base < 0xE0 && Beyond(ecus, Plus(base, 0x20)))
    ensures Found(ecus, out, 0xFF)
  {
    forall p: byte | IsSupported(ecus, p) ensures p <= base + 0x20 {
      if p > base + 0x20 {
        NoneBeyond(ecus, base, p);
      }
    }
  }

  lemma NoneBeyond(ecus: seq<State>, base: byte, p: byte)
    requires base % 0x20 == 0 && base + 0x20 < p && IsSupported(ecus, p)
    ensures base < 0xE0 && Beyond(ecus, Plus(base, 0x20))
  {
    if p % 0x20 != 0 {
      var i :| 0 <= i < |ecus| && p in ecus[i].pids;
      assert AnyAbove(ecus[i].pids.Keys, Plus(base, 0x20));
    } else {
      var i :| 0 <= i < |ecus| && AnyAbove(ecus[i].pids.Keys, p);
      assert AnyAbove(ecus[i].pids.Keys, Plus(base, 0x20));
    }
  }

  /** Somebody answers each request of the chain. */
  lemma {:induction false} Answered(ecus: seq<State>, base: byte)
    requires base % 0x20 == 0
    ensures Batch(ecus, [base]) != [] <==> ecus != [] && (base == 0 || Beyond(ecus, base))
  {
    hide Own, AnyAbove, BitmapOf;
    if ecus != [] {
      var before, e := ecus[..|ecus| - 1], ecus[|ecus| - 1];
      Answered(before, base);
      OwnBitmap(e, base);
      SupportedSnoc(before, e, base);
      assert ecus == before + [e];
    }
  }

  /** Nothing is found before the first bitmap. */
  lemma Start(ecus: seq<State>)
    ensures Found(ecus, [], 0)
  {
    assert forall p: byte :: p <= 0 ==> !IsSupported(ecus, p);
  }

  /** The sorted result: every supported PID once, ascending. */
  ghost predicate IsResult(ecus: seq<State>, out: seq<byte>) {
    Strict(ByteKey(), out) && forall p: byte :: p in out <==> IsSupported(ecus, p)
  }

  lemma Sorted(ecus: seq<State>, out: seq<byte>)
    requires Found(ecus, out, 0xFF)
    ensures IsResult(ecus, SortBy(ByteKey(), out))
  {
    hide IsSupported;
    SortStrict(ByteKey(), out);
    forall p: byte ensures p in SortBy(ByteKey(), out) <==> IsSupported(ecus, p) {
      SortMember(ByteKey(), out, p);
    }
  }
}
