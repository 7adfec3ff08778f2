/** Trouble codes: their text form, and the list that an ECU reports (dtc.go, ecusim/ecusim.go). */
module Codes {
  import opened Can

  // ---------------------------------------------------------------- text

  function Hex(n: nat): char
    requires n < 16
  {
    "0123456789ABCDEF"[n]
  }

  function System(d: uint16): char {
    "PCBU"[d / 0x4000]
  }

  function Text(d: uint16): string {
    [System(d), Hex(d / 0x1000 % 4), Hex(d / 0x100 % 16), Hex(d / 0x10 % 16), Hex(d % 16)]
  }

  function HexValue(c: char): (r: Option<nat>)
    ensures r.Some? ==> r.value < 16
  {
    if '0' <= c <= '9' then Some(c as int - '0' as int)
    else if 'A' <= c <= 'F' then Some(c as int - 'A' as int + 10)
    else if 'a' <= c <= 'f' then Some(c as int - 'a' as int + 10)
    else None
  }

  function SystemValue(c: char): (r: Option<nat>)
    ensures r.Some? ==> r.value < 4
  {
    match c
    case 'P' => Some(0)
    case 'p' => Some(0)
    case 'C' => Some(1)
    case 'c' => Some(1)
    case 'B' => Some(2)
    case 'b' => Some(2)
    case 'U' => Some(3)
    case 'u' => Some(3)
    case _ => None
  }

  function SecondValue(c: char): (r: Option<nat>)
    ensures r.Some? ==> r.value < 4
  {
    if '0' <= c <= '3' then Some(c as int - '0' as int) else None
  }

  /** ParseDTC; None stands for an error. */
  function ParseText(s: string): (r: Option<uint16>) {
    if |s| != 5 then None
    else
      var system, second := SystemValue(s[0]), SecondValue(s[1]);
      var a, b, c := HexValue(s[2]), HexValue(s[3]), HexValue(s[4]);
      if system.None? || second.None? || a.None? || b.None? || c.None? then None
      else Some(Joined(system.value, second.value, a.value, b.value, c.value))
  }

  function Joined(s: nat, a: nat, b: nat, c: nat, e: nat): uint16
    requires s < 4 && a < 4 && b < 16 && c < 16 && e < 16
  {
    s * 0x4000 + a * 0x1000 + b * 0x100 + c * 0x10 + e
  }

  function Upper(c: char): char {
    if 'a' <= c <= 'z' then (c as int - 'a' as int + 'A' as int) as char else c
  }

  function Uppercase(s: string): string {
    seq(|s|, i requires 0 <= i < |s| => Upper(s[i]))
  }

  /** A text is read as code d exactly when it is d's own text, in upper or lower case. */
  lemma TextRoundTrip(s: string, d: uint16)
    ensures ParseText(s) == Some(d) <==> Uppercase(s) == Text(d)
  {
    if |s| == 5 {
      hide Upper, Hex, HexValue, SystemValue, SecondValue, Joined;
      assert Uppercase(s) == [Upper(s[0]), Upper(s[1]), Upper(s[2]), Upper(s[3]), Upper(s[4])];
      Digits(d);
      SystemText(s[0], d / 0x4000);
      SecondText(s[1], d / 0x1000 % 4);
      DigitText(s[2], d / 0x100 % 16);
      DigitText(s[3], d / 0x10 % 16);
      DigitText(s[4], d % 16);
      if ParseText(s).Some? {
        SameDigits(SystemValue(s[0]).value, SecondValue(s[1]).value,
                   HexValue(s[2]).value, HexValue(s[3]).value, HexValue(s[4]).value);
      }
    }
  }

  lemma Digits(d: uint16)
    ensures d / 0x4000 < 4
    ensures d == Joined(d / 0x4000, d / 0x1000 % 4, d / 0x100 % 16, d / 0x10 % 16, d % 16)
  {
    assert d / 0x10 / 0x10 == d / 0x100 && d / 0x100 / 0x10 == d / 0x1000 && d / 0x1000 / 4 == d / 0x4000;
  }

  lemma SameDigits(s: nat, a: nat, b: nat, c: nat, e: nat)
    requires s < 4 && a < 4 && b < 16 && c < 16 && e < 16
    ensures
      var d := Joined(s, a, b, c, e);
      s == d / 0x4000 && a == d / 0x1000 % 4 && b == d / 0x100 % 16 && c == d / 0x10 % 16 && e == d % 16
  {
    var d := Joined(s, a, b, c, e);
    assert d / 0x10 == s * 0x400 + a * 0x100 + b * 0x10 + c;
    assert d / 0x100 == s * 0x40 + a * 0x10 + b;
    assert d / 0x1000 == s * 4 + a;
  }

  lemma SecondText(c: char, n: nat)
    requires n < 4
    ensures SecondValue(c) == Some(n) <==> Upper(c) == Hex(n)
  {
  }

  lemma DigitText(c: char, n: nat)
    requires n < 16
    ensures HexValue(c) == Some(n) <==> Upper(c) == Hex(n)
  {
  }

  lemma SystemText(c: char, n: nat)
    requires n < 4
    ensures SystemValue(c) == Some(n) <==> Upper(c) == "PCBU"[n]
  {
  }

  // ---------------------------------------------------------------- lists

  datatype Listing = Listing(codes: seq<uint16>) | Malformed

  function CodeAt(body: seq<byte>, i: nat): uint16
    requires 2 * i + 1 < |body|
  {
    var high: int := body[2 * i];
    high * 0x100 + body[2 * i + 1]
  }

  /** The codes that are not 0000, in order. */
  function NonZero(codes: seq<uint16>): seq<uint16> {
    if codes == [] then []
    else
      var d, before := codes[|codes| - 1], NonZero(codes[..|codes| - 1]);
      if d != 0 then before + [d] else before
  }

  /** The first n codes of a message body, with the 0000 ones. */
  function CodesOf(body: seq<byte>, n: nat): (codes: seq<uint16>)
    requires 2 * n <= |body|
    ensures |codes| == n
  {
    seq(n, i requires 0 <= i < n => CodeAt(body, i))
  }

  /** ParseDTCs as a function of the message; `counted` tells the CAN format with its count byte. */
  function ParseList(data: seq<byte>, counted: bool): Listing {
    if |data| < 1 then Malformed
    else if !counted then Listing(NonZero(CodesOf(data[1..], (|data| - 1) / 2)))
    else if |data| < 2 || |data| - 2 < 2 * (data[1] as int) then Malformed
    else Listing(NonZero(CodesOf(data[2..], data[1])))
  }

  method ParseDTCs(data: seq<byte>, counted: bool) returns (r: Listing)
    ensures r == ParseList(data, counted)
  {
    if |data| < 1 {
      return Malformed;
    }
    var body := data[1..];
    var n: nat := |body| / 2;
    if counted {
      if |body| < 1 {
        return Malformed;
      }
      n := body[0];
      body := body[1..];
      if |body| < 2 * n {
        return Malformed;
      }
      assert body == data[2..];
    }
    var codes := [];
    for i := 0 to n
      invariant codes == NonZero(CodesOf(body, n)[..i])
    {
      var d := CodeAt(body, i);
      assert CodesOf(body, n)[..i + 1][..i] == CodesOf(body, n)[..i];
      if d != 0 {
        codes := codes + [d];
      }
    }
    assert CodesOf(body, n)[..n] == CodesOf(body, n);
    return Listing(codes);
  }

  /** Two bytes per code. */
  function Bytes(codes: seq<uint16>): (s: seq<byte>)
    ensures |s| == 2 * |codes|
  {
    if codes == [] then []
    else
      var d := codes[|codes| - 1];
      Bytes(codes[..|codes| - 1]) + [d / 0x100, d % 0x100]
  }

  /** What an ECU reports on CAN: service, count, codes. The count wraps at 256. */
  function Report(sid: byte, codes: seq<uint16>): seq<byte> {
    var s: int := sid;
    [(s + 0x40) % 0x100, |codes| % 0x100] + Bytes(codes)
  }

  lemma {:induction false} BytesAt(codes: seq<uint16>, i: nat)
    requires i < |codes|
    ensures CodeAt(Bytes(codes), i) == codes[i]
  {
    var last := |codes| - 1;
    if i < last {
      BytesAt(codes[..last], i);
    }
  }

  lemma {:induction false} NonZeroSplit(codes: seq<uint16>, n: nat)
    requires n <= |codes|
    ensures NonZero(codes) == NonZero(codes[..n]) + NonZero(codes[n..])
  {
    if n == |codes| {
      assert codes[..n] == codes && codes[n..] == [];
    } else {
      var before := codes[..|codes| - 1];
      NonZeroSplit(before, n);
      assert before[..n] == codes[..n];
      assert codes[n..][..|codes[n..]| - 1] == before[n..];
    }
  }

  lemma {:induction false} AllZero(codes: seq<uint16>)
    ensures NonZero(codes) == [] <==> forall i :: 0 <= i < |codes| ==> codes[i] == 0
  {
    if codes != [] {
      AllZero(codes[..|codes| - 1]);
    }
  }

  lemma {:induction false} NonZeroMembers(codes: seq<uint16>)
    ensures forall d :: d in NonZero(codes) <==> d in codes && d != 0
  {
    if codes != [] {
      var last := |codes| - 1;
      NonZeroMembers(codes[..last]);
      assert codes == codes[..last] + [codes[last]];
    }
  }

  /** What a tester reads of a report: the non-zero codes among as many as the count byte says. */
  lemma ReportParses(sid: byte, codes: seq<uint16>)
    ensures ParseList(Report(sid, codes), true) == Listing(NonZero(codes[..|codes| % 0x100]))
  {
    var data, n := Report(sid, codes), |codes| % 0x100;
    assert data[2..] == Bytes(codes);
    forall i | 0 <= i < n ensures CodesOf(data[2..], n)[i] == codes[..n][i] {
      BytesAt(codes, i);
    }
    assert CodesOf(data[2..], n) == codes[..n];
  }

  /** Every code from index n on is 0000. */
  predicate ZeroFrom(codes: seq<uint16>, n: nat) {
    forall i :: n <= i < |codes| ==> codes[i] == 0
  }

  lemma ZeroTail(codes: seq<uint16>, n: nat)
    requires n <= |codes|
    ensures ZeroFrom(codes, n) <==> NonZero(codes[..n]) == NonZero(codes)
  {
    NonZeroSplit(codes, n);
    AllZero(codes[n..]);
    hide NonZero;
    assert forall i :: 0 <= i < |codes[n..]| ==> codes[n..][i] == codes[n + i];
    assert ZeroFrom(codes, n) ==> NonZero(codes[..n]) + [] == NonZero(codes[..n]);
    if NonZero(codes[n..]) == [] {
      forall i | n <= i < |codes| ensures codes[i] == 0 {
        assert codes[i] == codes[n..][i - n];
      }
    }
  }

  lemma OnlyZeros(codes: seq<uint16>, n: nat)
    ensures ZeroFrom(codes, 0) <==> NonZero(codes) == []
    ensures ZeroFrom(codes, 0) ==> ZeroFrom(codes, n)
  {
    hide NonZero;
    AllZero(codes);
  }

  /**
   * Parsing a report gives exactly the ECU's non-zero codes if and only if every code past
   * the count byte, which wraps at 256, is 0000; so always with at most 255 codes.
   */
  lemma ReportRoundTrip(sid: byte, codes: seq<uint16>)
    ensures ParseList(Report(sid, codes), true) == Listing(NonZero(codes)) <==> ZeroFrom(codes, |codes| % 0x100)
    ensures |codes| <= 255 ==> ParseList(Report(sid, codes), true) == Listing(NonZero(codes))
  {
    hide ParseList, Report, NonZero;
    ReportParses(sid, codes);
    ZeroTail(codes, |codes| % 0x100);
  }
}
