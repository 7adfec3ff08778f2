/** PID sizes, the parser of service 01 responses, and the "PIDs supported" bitmaps (pid.go). */
module Pids {
  import opened Can
  import Seqs

  // ---------------------------------------------------------------- sizes

  /** The sizes that the table literal declares. */
  function Declared(p: byte): Option<nat> {
    if p in {0x04, 0x05, 0x06, 0x07, 0x08, 0x09, 0x0A, 0x0B, 0x0D, 0x0E, 0x0F, 0x11, 0x12, 0x13, 0x1C, 0x1D, 0x1E,
             0x2C, 0x2D, 0x2E, 0x2F, 0x30, 0x33, 0x45, 0x46, 0x47, 0x48, 0x49, 0x4A, 0x4B, 0x4C, 0x51, 0x52, 0x5A,
             0x5B, 0x5C, 0x5F, 0x61, 0x62} then Some(1)
    else if p in {0x02, 0x03, 0x0C, 0x10, 0x1F, 0x21, 0x22, 0x23, 0x31, 0x32, 0x3C, 0x3D, 0x3E, 0x3F, 0x42, 0x43, 0x44,
                  0x4D, 0x4E, 0x53, 0x54, 0x55, 0x56, 0x57, 0x58, 0x59, 0x5D, 0x5E, 0x63} then Some(2)
    else if p in {0x01, 0x41, 0x4F, 0x50, 0xA6} then Some(4)
    else None
  }

  const O2_SENSOR_1: byte := 0x14
  const O2_SENSOR_1_RATIO_VOLTAGE: byte := 0x24
  const O2_SENSOR_1_RATIO_CURRENT: byte := 0x34

  /** The number of data bytes of a PID; None for one that the package does not know. */
  function Size(p: byte): Option<nat> {
    if p % 0x20 == 0 && p <= 0xC0 then Some(4)
    else if O2_SENSOR_1 <= p < O2_SENSOR_1 + 8 then Some(2)
    else if O2_SENSOR_1_RATIO_VOLTAGE <= p < O2_SENSOR_1_RATIO_VOLTAGE + 8 then Some(4)
    else if O2_SENSOR_1_RATIO_CURRENT <= p < O2_SENSOR_1_RATIO_CURRENT + 8 then Some(4)
    else Declared(p)
  }

  /** init: completes the table with the bitmap PIDs and the oxygen sensors. */
  method InitTable() returns (table: map<byte, nat>)
    ensures forall p: byte :: (p in table <==> Size(p).Some?) && (p in table ==> Size(p) == Some(table[p]))
  {
    hide Declared;
    table := map p: byte | 0 <= p < 0x100 && Declared(p).Some? :: Declared(p).value;
    var base: int := 0;
    while base <= 0xC0
      invariant 0 <= base <= 0xE0 && base % 0x20 == 0
      invariant forall p: byte ::
                  var bitmap := p % 0x20 == 0 && p < base;
                  && (p in table <==> bitmap || Declared(p).Some?)
                  && (p in table ==> Some(table[p]) == if bitmap then Some(4) else Declared(p))
    {
      table := table[base := 4];
      base := base + 0x20;
    }
    for i := 0 to 8
      invariant forall p: byte ::
                  var bitmap := p % 0x20 == 0 && p <= 0xC0;
                  var two := O2_SENSOR_1 <= p < O2_SENSOR_1 + i;
                  var four := O2_SENSOR_1_RATIO_VOLTAGE <= p < O2_SENSOR_1_RATIO_VOLTAGE + i
                              || O2_SENSOR_1_RATIO_CURRENT <= p < O2_SENSOR_1_RATIO_CURRENT + i;
                  && (p in table <==> bitmap || two || four || Declared(p).Some?)
                  && (p in table ==>
                        Some(table[p]) == if two then Some(2) else if bitmap || four then Some(4) else Declared(p))
    {
      table := table[O2_SENSOR_1 + i := 2];
      table := table[O2_SENSOR_1_RATIO_VOLTAGE + i := 4];
      table := table[O2_SENSOR_1_RATIO_CURRENT + i := 4];
    }
  }

  // ---------------------------------------------------------------- readings

  datatype Reading = Reading(pid: byte, ecu: uint32, data: seq<byte>)

  /** The readings up to the end of the data, or up to the first one that is cut short. */
  datatype Parsed = Parsed(readings: seq<Reading>, ok: bool)

  /** How many bytes belong to the PID in front of `rest`. */
  function Extent(pid: byte, rest: seq<byte>, single: bool): nat {
    if Size(pid).Some? && !single then Size(pid).value else |rest|
  }

  function Parse(ecu: uint32, data: seq<byte>, single: bool): Parsed
    decreases |data|
  {
    if data == [] then Parsed([], true)
    else
      var pid, rest := data[0], data[1..];
      var n := Extent(pid, rest, single);
      if n > |rest| then Parsed([], false)
      else
        var tail := Parse(ecu, rest[n..], single);
        Parsed([Reading(pid, ecu, rest[..n])] + tail.readings, tail.ok)
  }

  /** parseReadings: consumes the data group by group. */
  method ParseReadings(ecu: uint32, data: seq<byte>, single: bool) returns (r: Parsed)
    ensures r == Parse(ecu, data, single)
  {
    var left, out := data, [];
    while left != []
      invariant Parse(ecu, data, single)
                == Parsed(out + Parse(ecu, left, single).readings, Parse(ecu, left, single).ok)
      decreases |left|
    {
      var pid, rest := left[0], left[1..];
      var n := Extent(pid, rest, single);
      if n > |rest| {
        assert out + [] == out;
        return Parsed(out, false);
      }
      var reading := Reading(pid, ecu, rest[..n]);
      Seqs.ConcatAssoc(out, [reading], Parse(ecu, rest[n..], single).readings);
      out := out + [reading];
      left := rest[n..];
    }
    assert out + [] == out;
    return Parsed(out, true);
  }

  /** The data of a response that holds these readings. */
  function Encode(rs: seq<Reading>): seq<byte> {
    if rs == [] then [] else [rs[0].pid] + rs[0].data + Encode(rs[1..])
  }

  lemma {:induction false} EncodeSnoc(rs: seq<Reading>, r: Reading)
    ensures Encode(rs + [r]) == Encode(rs) + [r.pid] + r.data
  {
    if rs == [] {
      assert rs + [r] == [r] && [r][1..] == [];
      assert [r.pid] + r.data + [] == [r.pid] + r.data;
    } else {
      assert (rs + [r])[1..] == rs[1..] + [r];
      EncodeSnoc(rs[1..], r);
    }
  }

  /** Readings of one ECU with table-sized data; a PID of unknown size can only come last. */
  predicate Sized(rs: seq<Reading>, ecu: uint32) {
    forall i :: 0 <= i < |rs| ==>
      && rs[i].ecu == ecu
      && (if Size(rs[i].pid).Some? then |rs[i].data| == Size(rs[i].pid).value else i == |rs| - 1)
  }

  /** The data ends inside the group of a PID whose size is known. */
  predicate CutShort(data: seq<byte>) {
    data != [] && Size(data[0]).Some? && |data| - 1 < Size(data[0]).value
  }

  lemma EncodeCons(r: Reading, rs: seq<Reading>)
    ensures Encode([r] + rs) == [r.pid] + r.data + Encode(rs)
  {
    assert ([r] + rs)[1..] == rs;
  }

  lemma SizedCons(r: Reading, rs: seq<Reading>, ecu: uint32)
    requires Sized(rs, ecu) && r.ecu == ecu
    requires if Size(r.pid).Some? then |r.data| == Size(r.pid).value else rs == []
    ensures Sized([r] + rs, ecu)
  {
    hide Size;
  }

  lemma PrefixCons(a: seq<byte>, b: seq<byte>, c: seq<byte>)
    requires b <= c
    ensures a + b <= a + c && (a + c)[|a + b|..] == c[|b|..] && (a + b == a + c <==> b == c)
  {
    assert c == b + c[|b|..];
    assert a + c == a + b + c[|b|..];
  }

  /** Nothing is lost between the data and what was parsed of it. */
  predicate Lossless(ecu: uint32, data: seq<byte>, r: Parsed) {
    && Encode(r.readings) <= data
    && (r.ok <==> Encode(r.readings) == data)
    && (r.ok ==> Sized(r.readings, ecu))
    && (!r.ok ==> CutShort(data[|Encode(r.readings)|..]))
  }

  /** One more group in front. */
  lemma LosslessCons(ecu: uint32, r: Reading, data: seq<byte>, tail: Parsed)
    requires Lossless(ecu, data, tail) && r.ecu == ecu
    requires if Size(r.pid).Some? then |r.data| == Size(r.pid).value else data == []
    ensures Lossless(ecu, [r.pid] + r.data + data, Parsed([r] + tail.readings, tail.ok))
  {
    hide Size;
    EncodeCons(r, tail.readings);
    EncodeEmpty(tail.readings);
    if tail.ok {
      SizedCons(r, tail.readings, ecu);
    }
    hide Encode, Sized, CutShort;
    PrefixCons([r.pid] + r.data, Encode(tail.readings), data);
  }

  /** A list of readings contributes nothing exactly when it is empty. */
  lemma EncodeEmpty(rs: seq<Reading>)
    ensures Encode(rs) == [] <==> rs == []
  {
  }

  /**
   * The parser loses nothing: what it accepts is the encoding of the readings it returns,
   * and when it fails, the readings so far are followed by a group that is cut short.
   */
  lemma {:induction false} ParseLossless(ecu: uint32, data: seq<byte>)
    ensures Lossless(ecu, data, Parse(ecu, data, false))
    decreases |data|
  {
    hide Size;
    if data != [] {
      var pid, rest := data[0], data[1..];
      var n := Extent(pid, rest, false);
      if n <= |rest| {
        ParseLossless(ecu, rest[n..]);
        assert data == [pid] + rest[..n] + rest[n..];
        hide Lossless;
        LosslessCons(ecu, Reading(pid, ecu, rest[..n]), rest[n..], Parse(ecu, rest[n..], false));
      }
    }
  }

  /** Everything that is encoded from readings with table-sized data parses back to them. */
  lemma {:induction false} ParseEncode(rs: seq<Reading>, ecu: uint32)
    requires Sized(rs, ecu)
    ensures Parse(ecu, Encode(rs), false) == Parsed(rs, true)
  {
    hide Size;
    if rs != [] {
      ParseEncode(rs[1..], ecu);
      var data := Encode(rs);
      assert data[1..] == rs[0].data + Encode(rs[1..]);
      if |rs| > 1 {
        assert Size(rs[0].pid).Some?;
      } else {
        assert Encode(rs[1..]) == [];
      }
      assert rs == [rs[0]] + rs[1..];
    }
  }

  /** The accepted inputs are exactly the encodings of such lists, each of exactly one list. */
  lemma AcceptsEncodings(ecu: uint32, data: seq<byte>)
    ensures Parse(ecu, data, false).ok <==> exists rs :: Sized(rs, ecu) && Encode(rs) == data
    ensures forall rs :: Sized(rs, ecu) && Encode(rs) == data ==> rs == Parse(ecu, data, false).readings
  {
    ParseLossless(ecu, data);
    forall rs | Sized(rs, ecu) && Encode(rs) == data ensures Parse(ecu, data, false) == Parsed(rs, true) {
      ParseEncode(rs, ecu);
    }
  }

  /** A request for a single PID takes all the data as that PID's. */
  lemma ParseSingle(ecu: uint32, pid: byte, data: seq<byte>)
    ensures Parse(ecu, [pid] + data, true) == Parsed([Reading(pid, ecu, data)], true)
  {
    assert ([pid] + data)[1..] == data && data[..|data|] == data;
    assert Parse(ecu, data[|data|..], true) == Parsed([], true);
    assert [Reading(pid, ecu, data)] + [] == [Reading(pid, ecu, data)];
  }

  // ---------------------------------------------------------------- bitmaps

  /** b >> k & 1 != 0. */
  predicate Low(b: nat, k: nat) {
    if k == 0 then b % 2 == 1 else Low(b / 2, k - 1)
  }

  /** b | 1 << k. */
  function SetLow(b: nat, k: nat): nat {
    if k == 0 then b / 2 * 2 + 1 else SetLow(b / 2, k - 1) * 2 + b % 2
  }

  function Pow2(n: nat): (r: nat)
    ensures r > 0
  {
    if n == 0 then 1 else 2 * Pow2(n - 1)
  }

  lemma {:induction false} SetLowBits(b: nat, k: nat, j: nat)
    ensures Low(SetLow(b, k), j) <==> j == k || Low(b, j)
  {
    if k > 0 && j > 0 {
      SetLowBits(b / 2, k - 1, j - 1);
    }
  }

  lemma {:induction false} SetLowBound(b: nat, k: nat, n: nat)
    requires k < n && b < Pow2(n)
    ensures SetLow(b, k) < Pow2(n)
  {
    if k > 0 {
      SetLowBound(b / 2, k - 1, n - 1);
    }
  }

  /** Numbers below 2^n with the same n bits are equal. */
  lemma {:induction false} SameLow(a: nat, b: nat, n: nat)
    requires a < Pow2(n) && b < Pow2(n)
    requires forall k :: 0 <= k < n ==> (Low(a, k) <==> Low(b, k))
    ensures a == b
  {
    if n > 0 {
      forall k | 0 <= k < n - 1 ensures Low(a / 2, k) <==> Low(b / 2, k) {
        assert Low(a, k + 1) <==> Low(b, k + 1);
      }
      SameLow(a / 2, b / 2, n - 1);
      assert Low(a, 0) <==> Low(b, 0);
    }
  }

  lemma ByteBound()
    ensures Pow2(8) == 0x100
  {
    assert Pow2(4) == 16;
  }

  /** b & (0x80 >> i) != 0. */
  predicate Bit(b: byte, i: nat)
    requires i < 8
  {
    Low(b, 7 - i)
  }

  /** b | 0x80 >> i. */
  function SetBit(b: byte, i: nat): byte
    requires i < 8
  {
    ByteBound();
    SetLowBound(b, 7 - i, 8);
    SetLow(b, 7 - i)
  }

  lemma SetBitBits(b: byte, i: nat, j: nat)
    requires i < 8 && j < 8
    ensures Bit(SetBit(b, i), j) <==> j == i || Bit(b, j)
  {
    SetLowBits(b, 7 - i, 7 - j);
  }

  lemma {:induction false} NoBits(k: nat)
    ensures !Low(0, k)
  {
    if k > 0 {
      NoBits(k - 1);
    }
  }

  lemma SameBits(a: byte, b: byte)
    requires forall i :: 0 <= i < 8 ==> (Bit(a, i) <==> Bit(b, i))
    ensures a == b
  {
    ByteBound();
    forall k | 0 <= k < 8 ensures Low(a, k) <==> Low(b, k) {
      assert Bit(a, 7 - k) <==> Bit(b, 7 - k);
    }
    SameLow(a, b, 8);
  }

  /** Bit n of a bitmap, counted from the top of its first byte. */
  predicate BitmapBit(bitmap: seq<byte>, n: nat)
    requires n / 8 < |bitmap|
  {
    Bit(bitmap[n / 8], n % 8)
  }

  /** A PID in byte arithmetic. */
  function Plus(base: byte, n: nat): byte {
    var b: int := base;
    (b + n) % 0x100
  }

  /** The PIDs that the first n bits of a bitmap stand for. */
  function Listed(base: byte, bitmap: seq<byte>, n: nat): seq<byte>
    requires n <= 8 * |bitmap|
  {
    if n == 0 then []
    else if BitmapBit(bitmap, n - 1) then Listed(base, bitmap, n - 1) + [Plus(base, n)]
    else Listed(base, bitmap, n - 1)
  }

  function Supported(base: byte, bitmap: seq<byte>): seq<byte> {
    Listed(base, bitmap, Min(32, 8 * |bitmap|))
  }

  method SupportedFromBitmap(base: byte, bitmap: seq<byte>) returns (out: seq<byte>)
    ensures out == Supported(base, bitmap)
  {
    out := [];
    var i: nat := 0;
    while i < 32 && i / 8 < |bitmap|
      invariant i <= 32 && i <= 8 * |bitmap| && out == Listed(base, bitmap, i)
    {
      if BitmapBit(bitmap, i) {
        out := out + [Plus(base, i + 1)];
      }
      i := i + 1;
    }
  }

  /** A PID is listed exactly when its bit is set. */
  lemma {:induction false} ListedMembers(base: byte, bitmap: seq<byte>, n: nat)
    requires n <= 8 * |bitmap|
    ensures forall p ::
              p in Listed(base, bitmap, n) <==> exists i :: 0 <= i < n && BitmapBit(bitmap, i) && p == Plus(base, i + 1)
  {
    hide Plus, BitmapBit;
    if n > 0 {
      ListedMembers(base, bitmap, n - 1);
    }
  }
}
