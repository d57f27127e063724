/**
 From SIP call-ids to call UUIDs: `String.md5` and `uuidFromString` of
 ios/Runner/ProviderDelegate.swift:1184-1231, with the textual form of a UUID of section 3
 of RFC 4122.  MD5 itself is a parameter: any function from strings to 16 bytes.
 */
module CallUuid {
  import opened Wrappers

  type Byte = b: int | 0 <= b < 256
  type Digest = d: seq<Byte> | |d| == 16 witness seq(16, _ => 0)
  type Uuid = u: seq<Byte> | |u| == 16 witness seq(16, _ => 0)
  type Hash = string -> Digest

  function LowerHex(n: int): char
    requires 0 <= n < 16
  {
    if n < 10 then '0' + n as char else 'a' + (n - 10) as char
  }

  function UpperHex(n: int): char
    requires 0 <= n < 16
  {
    if n < 10 then '0' + n as char else 'A' + (n - 10) as char
  }

  function HexValue(c: char): Option<int> {
    if '0' <= c <= '9' then Some(c as int - '0' as int)
    else if 'a' <= c <= 'f' then Some(c as int - 'a' as int + 10)
    else if 'A' <= c <= 'F' then Some(c as int - 'A' as int + 10)
    else None
  }

  /** The nibble a position of the printed digest shows. */
  function Nibble(d: seq<Byte>, i: nat): int
    requires i < 2 * |d|
  {
    if i % 2 == 0 then d[i / 2] / 16 else d[i / 2] % 16
  }

  /** The digest printed in lower-case hexadecimal, two digits a byte. */
  function Md5Hex(d: Digest): (s: string)
    ensures |s| == 32
  {
    seq(32, i requires 0 <= i < 32 => LowerHex(Nibble(d, i)))
  }

  /** A byte printed as two upper-case hexadecimal digits. */
  function HexPair(b: Byte): string {
    [UpperHex(b / 16), UpperHex(b % 16)]
  }

  // ---- the textual form of a UUID ----------------------------------------------------

  /** The positions of the dashes in 8-4-4-4-12. */
  predicate DashAt(i: nat) {
    i == 8 || i == 13 || i == 18 || i == 23
  }

  /** How many dashes stand before position i. */
  function Dashes(i: nat): nat {
    (if i > 8 then 1 else 0) + (if i > 13 then 1 else 0) + (if i > 18 then 1 else 0) + (if i > 23 then 1 else 0)
  }

  /** Where the two digits of byte k start. */
  function Offset(k: nat): nat {
    2 * k + (if k >= 4 then 1 else 0) + (if k >= 6 then 1 else 0) + (if k >= 8 then 1 else 0) + (if k >= 10 then 1 else 0)
  }

  /** `uuidString`: 36 characters, hexadecimal digits in upper case. */
  function PrintUuid(u: Uuid): (s: string)
    ensures |s| == 36
  {
    seq(36, i requires 0 <= i < 36 => if DashAt(i) then '-' else UpperHex(Nibble(u, i - Dashes(i))))
  }

  predicate IsUuidText(s: string) {
    && |s| == 36
    && (forall i :: 0 <= i < 36 ==> if DashAt(i) then s[i] == '-' else HexValue(s[i]).Some?)
  }

  /** `UUID(uuidString:)`, which is nil for anything but a UUID text in either case. */
  function ParseUuid(s: string): Option<Uuid> {
    if IsUuidText(s) then Some(seq(16, k requires 0 <= k < 16 => ParseByte(s, k))) else None
  }

  function ParseByte(s: string, k: nat): Byte
    requires IsUuidText(s) && k < 16
  {
    assert !DashAt(Offset(k)) && !DashAt(Offset(k) + 1);
    16 * HexValue(s[Offset(k)]).value + HexValue(s[Offset(k) + 1]).value
  }

  function ToUpper(c: char): char {
    if 'a' <= c <= 'z' then 'A' + (c as int - 'a' as int) as char else c
  }

  lemma HexDigits(n: int)
    requires 0 <= n < 16
    ensures HexValue(UpperHex(n)) == Some(n) == HexValue(LowerHex(n))
  {
  }

  /** Between the dashes, position Offset(k) shows the high half of byte k, the next one the low half. */
  lemma PositionOf(i: nat)
    requires i < 36 && !DashAt(i)
    ensures var j := i - Dashes(i); 0 <= j < 32 && i == Offset(j / 2) + j % 2
  {
  }

  lemma OffsetOf(k: nat)
    requires k < 16
    ensures Offset(k) < 35 && !DashAt(Offset(k)) && !DashAt(Offset(k) + 1)
    ensures Offset(k) - Dashes(Offset(k)) == 2 * k && Offset(k) + 1 - Dashes(Offset(k) + 1) == 2 * k + 1
  {
  }

  lemma PrintIsText(u: Uuid)
    ensures IsUuidText(PrintUuid(u))
  {
    hide HexValue, UpperHex, LowerHex, Dashes, Offset, Nibble;
    var s := PrintUuid(u);
    forall i | 0 <= i < 36 ensures if DashAt(i) then s[i] == '-' else HexValue(s[i]).Some? {
      if !DashAt(i) {
        PositionOf(i);
        NibbleRange(u, i - Dashes(i));
        HexDigits(Nibble(u, i - Dashes(i)));
      }
    }
  }

  lemma NibbleRange(d: seq<Byte>, i: nat)
    requires i < 2 * |d|
    ensures 0 <= Nibble(d, i) < 16
  {
  }

  /** The two digits of byte k. */
  lemma PrintedPair(u: Uuid, k: nat)
    requires k < 16
    ensures Offset(k) < 35 && PrintUuid(u)[Offset(k)..Offset(k) + 2] == HexPair(u[k])
  {
    hide UpperHex, Dashes, Offset;
    OffsetOf(k);
    assert Nibble(u, 2 * k) == u[k] / 16 && Nibble(u, 2 * k + 1) == u[k] % 16;
  }

  lemma ParsedPair(s: string, k: nat, b: Byte)
    requires IsUuidText(s) && |s| == 36 && k < 16 && Offset(k) < 35 && s[Offset(k)..Offset(k) + 2] == HexPair(b)
    ensures ParseByte(s, k) == b
  {
    hide HexValue, UpperHex, LowerHex, Offset, IsUuidText;
    var pair := s[Offset(k)..Offset(k) + 2];
    assert pair[0] == s[Offset(k)] && pair[1] == s[Offset(k) + 1];
    HexDigits(b / 16);
    HexDigits(b % 16);
  }

  /** Printing and parsing: every UUID comes back. */
  lemma ParsePrint(u: Uuid)
    ensures ParseUuid(PrintUuid(u)) == Some(u)
  {
    hide PrintUuid, IsUuidText, ParseByte, Offset, HexPair;
    var s := PrintUuid(u);
    PrintIsText(u);
    forall k | 0 <= k < 16 ensures ParseByte(s, k) == u[k] {
      PrintedPair(u, k);
      ParsedPair(s, k, u[k]);
    }
    assert ParseUuid(s).value == u;
  }

  /** Parsing and printing: the text comes back in upper case, so only upper case text is canonical. */
  lemma PrintParse(s: string)
    requires IsUuidText(s)
    ensures var t := PrintUuid(ParseUuid(s).value);
      |t| == |s| && forall i :: 0 <= i < 36 ==> t[i] == ToUpper(s[i])
  {
    hide ToUpper, UpperHex, HexValue, Dashes, Offset, Nibble, ParseByte;
    var u := ParseUuid(s).value;
    forall i | 0 <= i < 36 ensures PrintUuid(u)[i] == ToUpper(s[i]) {
      if DashAt(i) {
        DashStays(s, i);
      } else {
        PositionOf(i);
        NibbleOfParsed(s, i, u);
        DigitStays(s, i);
      }
    }
  }

  lemma DashStays(s: string, i: nat)
    requires IsUuidText(s) && i < 36 && DashAt(i)
    ensures ToUpper(s[i]) == '-'
  {
  }

  lemma DigitStays(s: string, i: nat)
    requires IsUuidText(s) && i < 36 && !DashAt(i)
    ensures HexValue(s[i]).Some? && 0 <= HexValue(s[i]).value < 16
    ensures UpperHex(HexValue(s[i]).value) == ToUpper(s[i])
  {
    UpperOfValue(s[i]);
  }

  lemma NibbleOfParsed(s: string, i: nat, u: Uuid)
    requires IsUuidText(s) && i < 36 && !DashAt(i) && 0 <= i - Dashes(i) < 32
    requires u == ParseUuid(s).value
    ensures HexValue(s[i]) == Some(Nibble(u, i - Dashes(i)))
  {
    hide HexValue, ToUpper, UpperHex;
    PositionOf(i);
    var j := i - Dashes(i);
    var k := j / 2;
    OffsetOf(k);
    DigitStays(s, Offset(k));
    DigitStays(s, Offset(k) + 1);
    assert u[k] == ParseByte(s, k);
    NibblesOfByte(HexValue(s[Offset(k)]).value, HexValue(s[Offset(k) + 1]).value);
  }

  lemma NibblesOfByte(high: int, low: int)
    requires 0 <= high < 16 && 0 <= low < 16
    ensures (16 * high + low) / 16 == high && (16 * high + low) % 16 == low
  {
  }

  lemma UpperOfValue(c: char)
    requires HexValue(c).Some?
    ensures 0 <= HexValue(c).value < 16 && UpperHex(HexValue(c).value) == ToUpper(c)
  {
  }

  // ---- the texts written out ------------------------------------------------------------

  const LOWER_DIGITS := "0123456789abcdef"
  const UPPER_DIGITS := "0123456789ABCDEF"

  /** The sixteen digits in either case, their values, and the change of case. */
  lemma HexTables(n: nat)
    requires n < 16
    ensures LowerHex(n) == LOWER_DIGITS[n] && UpperHex(n) == UPPER_DIGITS[n]
    ensures HexValue(LOWER_DIGITS[n]) == Some(n) == HexValue(UPPER_DIGITS[n])
    ensures ToUpper(LOWER_DIGITS[n]) == UPPER_DIGITS[n] == ToUpper(UPPER_DIGITS[n])
  {
    if n < 8 { LowTables(n); } else { HighTables(n); }
  }

  lemma LowTables(n: nat)
    requires n < 8
    ensures LowerHex(n) == LOWER_DIGITS[n] == UPPER_DIGITS[n] == UpperHex(n)
  {
    assert n == 0 || n == 1 || n == 2 || n == 3 || n == 4 || n == 5 || n == 6 || n == 7;
  }

  lemma HighTables(n: nat)
    requires 8 <= n < 16
    ensures LowerHex(n) == LOWER_DIGITS[n] && UpperHex(n) == UPPER_DIGITS[n]
  {
    assert n == 8 || n == 9 || n == 10 || n == 11 || n == 12 || n == 13 || n == 14 || n == 15;
  }

  lemma SixteenDigits()
    ensures |LOWER_DIGITS| == 16 == |UPPER_DIGITS|
  {
  }

  /** Those are all the digits there are. */
  lemma OnlyHexDigits(c: char)
    ensures HexValue(c).Some? <==> c in LOWER_DIGITS || c in UPPER_DIGITS
  {
    hide LOWER_DIGITS, UPPER_DIGITS;
    SixteenDigits();
    forall n: nat | n < 16 ensures HexValue(LOWER_DIGITS[n]).Some? && HexValue(UPPER_DIGITS[n]).Some? { HexTables(n); }
    if HexValue(c).Some? {
      HexTables(HexValue(c).value);
    }
  }

  /** The digest text shows the high half of each byte, then the low half. */
  lemma DigestText(d: Digest, k: nat)
    requires k < 16
    ensures Md5Hex(d)[2 * k] == LOWER_DIGITS[d[k] / 16]
    ensures Md5Hex(d)[2 * k + 1] == LOWER_DIGITS[d[k] % 16]
  {
    hide LOWER_DIGITS, LowerHex;
    assert Nibble(d, 2 * k) == d[k] / 16 && Nibble(d, 2 * k + 1) == d[k] % 16;
    HexTables(d[k] / 16);
    HexTables(d[k] % 16);
  }

  /** A UUID text shows bytes 0-3, 4-5, 6-7, 8-9 and 10-15, with dashes between them. */
  lemma PrintedText(u: Uuid)
    ensures var s := PrintUuid(u); s[8] == s[13] == s[18] == s[23] == '-'
    ensures forall k :: 0 <= k < 16 ==> ShowsByte(PrintUuid(u), u[k], ByteAt(k))
  {
    hide LOWER_DIGITS, UPPER_DIGITS, UpperHex;
    forall k | 0 <= k < 16 ensures ShowsByte(PrintUuid(u), u[k], ByteAt(k)) {
      PrintedPair(u, k);
      var s := PrintUuid(u);
      assert s[Offset(k)..Offset(k) + 2][0] == s[Offset(k)] && s[Offset(k)..Offset(k) + 2][1] == s[Offset(k) + 1];
      HexTables(u[k] / 16);
      HexTables(u[k] % 16);
    }
  }

  /** Where byte k starts in a UUID text. */
  function ByteAt(k: nat): nat {
    2 * k + (if k < 4 then 0 else if k < 6 then 1 else if k < 8 then 2 else if k < 10 then 3 else 4)
  }

  ghost predicate ShowsByte(s: string, b: Byte, at: nat) {
    at + 1 < |s| && s[at] == UPPER_DIGITS[b / 16] && s[at + 1] == UPPER_DIGITS[b % 16]
  }

  /** What counts as a UUID text: the dashes in place and digits of either case everywhere else. */
  lemma UuidTextMeans(s: string)
    ensures IsUuidText(s) <==>
      |s| == 36 && s[8] == s[13] == s[18] == s[23] == '-'
      && forall i :: 0 <= i < 36 && i !in {8, 13, 18, 23} ==> s[i] in LOWER_DIGITS || s[i] in UPPER_DIGITS
  {
    hide HexValue, LOWER_DIGITS, UPPER_DIGITS;
    forall i | 0 <= i < |s| ensures HexValue(s[i]).Some? <==> s[i] in LOWER_DIGITS || s[i] in UPPER_DIGITS {
      OnlyHexDigits(s[i]);
    }
  }

  // ---- uuidFromString -------------------------------------------------------------------

  /** The character of the printed digest that step i of the loop reads, for a call-id of length n. */
  function CyclicIndex(n: nat, i: nat): nat {
    i % (n + 1)
  }

  /** The character of the printed digest that step i of the loop reads. */
  function CharRead(d: Digest, n: nat, i: nat): char
    requires i < 16
  {
    CyclicSmall(n, i);
    Md5Hex(d)[CyclicIndex(n, i)]
  }

  /** The bytes of the derived UUID: the ASCII codes of the characters read. */
  function DerivedUuid(d: Digest, n: nat): Uuid {
    seq(16, i requires 0 <= i < 16 => ReadByte(d, n, i))
  }

  function ReadByte(d: Digest, n: nat, i: nat): Byte
    requires i < 16
  {
    CyclicSmall(n, i);
    DigestDigit(d, CyclicIndex(n, i));
    CharRead(d, n, i) as int
  }

  /**
   Byte i of u is the ASCII code of the digit that shows half-byte i mod (n+1) of the digest,
   where even half-bytes are the high ones.
   */
  ghost predicate ReadsDigest(u: Uuid, d: Digest, n: nat) {
    forall i :: 0 <= i < 16 ==> var j := i % (n + 1);
      j < 32 && u[i] == LOWER_DIGITS[if j % 2 == 0 then d[j / 2] / 16 else d[j / 2] % 16] as int
  }

  lemma DerivedReadsDigest(d: Digest, n: nat)
    ensures ReadsDigest(DerivedUuid(d, n), d, n)
  {
    hide DerivedUuid, LOWER_DIGITS;
    SixteenDigits();
    forall i | 0 <= i < 16
      ensures var j := i % (n + 1);
        j < 32 && DerivedUuid(d, n)[i] == LOWER_DIGITS[if j % 2 == 0 then d[j / 2] / 16 else d[j / 2] % 16] as int
    {
      CyclicSmall(n, i);
      HalfByteRead(d, n, i, i % (n + 1));
    }
  }

  lemma HalfByteRead(d: Digest, n: nat, i: nat, j: nat)
    requires i < 16 && j == CyclicIndex(n, i) && j < 32
    ensures DerivedUuid(d, n)[i] == LOWER_DIGITS[if j % 2 == 0 then d[j / 2] / 16 else d[j / 2] % 16] as int
  {
    hide Md5Hex, LOWER_DIGITS, CyclicIndex;
    DigestText(d, j / 2);
    assert DerivedUuid(d, n)[i] == Md5Hex(d)[j] as int;
  }

  lemma DigestDigit(d: Digest, i: nat)
    requires i < 32
    ensures var c := Md5Hex(d)[i]; '0' <= c <= '9' || 'a' <= c <= 'f'
  {
  }

  lemma WrapStep(n: nat, i: nat)
    ensures CyclicIndex(n, i + 1) == if CyclicIndex(n, i) == n then 0 else CyclicIndex(n, i) + 1
  {
    var m := n + 1;
    var q, r := i / m, i % m;
    assert i == m * q + r;
    if r == n {
      assert i + 1 == m * (q + 1);
      Quotient(i + 1, m, q + 1, 0);
    } else {
      Quotient(i + 1, m, q, r + 1);
    }
  }

  lemma Quotient(x: int, m: int, q: int, r: int)
    requires m > 0 && x == m * q + r && 0 <= r < m
    ensures x % m == r
  {
    var k := x / m - q;
    assert m * (x / m) == m * q + m * k;
    assert k >= 1 ==> m * k >= m;
    assert k <= -1 ==> m * k <= -m;
  }

  lemma CyclicSmall(n: nat, i: nat)
    ensures CyclicIndex(n, i) <= i && CyclicIndex(n, i) <= n
    ensures i <= n ==> CyclicIndex(n, i) == i
  {
    if i <= n { Quotient(i, n + 1, 0, i); }
    else { assert CyclicIndex(n, i) < n + 1; }
  }

  /** The text the loop's groups are put together to. */
  function Assemble(numbers: seq<string>): string
    requires |numbers| == 16
  {
    numbers[0] + numbers[1] + numbers[2] + numbers[3] + "-" +
    numbers[4] + numbers[5] + "-" +
    numbers[6] + numbers[7] + "-" +
    numbers[8] + numbers[9] + "-" +
    numbers[10] + numbers[11] + numbers[12] + numbers[13] + numbers[14] + numbers[15]
  }

  lemma Extend(text: string, a: nat, b: nat, head: string, piece: string)
    requires a <= b <= |text| && head == text[..a] && piece == text[a..b]
    ensures head + piece == text[..b]
  {
  }

  lemma ExtendByPair(u: Uuid, k: nat, head: string, piece: string)
    requires k < 16 && Offset(k) < 35 && head == PrintUuid(u)[..Offset(k)] && piece == HexPair(u[k])
    ensures head + piece == PrintUuid(u)[..Offset(k) + 2]
  {
    PrintedPair(u, k);
    Extend(PrintUuid(u), Offset(k), Offset(k) + 2, head, piece);
  }

  lemma ExtendByDash(u: Uuid, i: nat, head: string)
    requires DashAt(i) && head == PrintUuid(u)[..i]
    ensures head + "-" == PrintUuid(u)[..i + 1]
  {
    Extend(PrintUuid(u), i, i + 1, head, "-");
  }

  lemma AssemblePrints(u: Uuid, numbers: seq<string>)
    requires |numbers| == 16 && forall k :: 0 <= k < 16 ==> numbers[k] == HexPair(u[k])
    ensures Assemble(numbers) == PrintUuid(u)
  {
    hide PrintUuid, HexPair;
    var s := PrintUuid(u);
    ExtendByPair(u, 0, "", numbers[0]);
    assert "" + numbers[0] == numbers[0];
    var t := numbers[0];
    ExtendByPair(u, 1, t, numbers[1]); t := t + numbers[1];
    ExtendByPair(u, 2, t, numbers[2]); t := t + numbers[2];
    ExtendByPair(u, 3, t, numbers[3]); t := t + numbers[3];
    ExtendByDash(u, 8, t); t := t + "-";
    ExtendByPair(u, 4, t, numbers[4]); t := t + numbers[4];
    ExtendByPair(u, 5, t, numbers[5]); t := t + numbers[5];
    ExtendByDash(u, 13, t); t := t + "-";
    ExtendByPair(u, 6, t, numbers[6]); t := t + numbers[6];
    ExtendByPair(u, 7, t, numbers[7]); t := t + numbers[7];
    ExtendByDash(u, 18, t); t := t + "-";
    ExtendByPair(u, 8, t, numbers[8]); t := t + numbers[8];
    ExtendByPair(u, 9, t, numbers[9]); t := t + numbers[9];
    ExtendByDash(u, 23, t); t := t + "-";
    ExtendByPair(u, 10, t, numbers[10]); t := t + numbers[10];
    ExtendByPair(u, 11, t, numbers[11]); t := t + numbers[11];
    ExtendByPair(u, 12, t, numbers[12]); t := t + numbers[12];
    ExtendByPair(u, 13, t, numbers[13]); t := t + numbers[13];
    ExtendByPair(u, 14, t, numbers[14]); t := t + numbers[14];
    ExtendByPair(u, 15, t, numbers[15]); t := t + numbers[15];
    assert s[..36] == s;
  }

  /**
   `uuidFromString`.  The index runs over 0..n before it wraps, one place past the length
   of the call-id, but it indexes the 32-character digest and stays in bounds.  For the
   empty string the source asks for a random UUID, which is a parameter here.
   */
  method UuidFromString(md5: Hash, str: string, random: Uuid) returns (uuid: Option<Uuid>)
    ensures uuid == Some(UuidOf(md5, str, random))
    ensures if str == [] then uuid == Some(random) else ReadsDigest(uuid.value, md5(str), |str|)
  {
    hide LOWER_DIGITS, ReadsDigest;
    if |str| == 0 {
      return Some(random);
    }
    var str2 := Md5Hex(md5(str));
    var numbers: seq<string> := [];
    var strIndex := 0;
    for i := 0 to 16
      invariant |numbers| == i
      invariant strIndex == CyclicIndex(|str|, i) || (strIndex == |str| + 1 && CyclicIndex(|str|, i) == 0)
      invariant strIndex <= i
      invariant forall k :: 0 <= k < i ==> numbers[k] == HexPair(DerivedUuid(md5(str), |str|)[k])
    {
      CyclicSmall(|str|, i);
      if strIndex > |str| {
        strIndex := 0;
      }
      assert strIndex == CyclicIndex(|str|, i);
      DigestDigit(md5(str), strIndex);
      numbers := numbers + [HexPair(str2[strIndex] as int)];
      WrapStep(|str|, i);
      strIndex := strIndex + 1;
    }
    DerivedReadsDigest(md5(str), |str|);
    AssemblePrints(DerivedUuid(md5(str), |str|), numbers);
    ParsePrint(DerivedUuid(md5(str), |str|));
    uuid := ParseUuid(Assemble(numbers));
  }

  function UuidOf(md5: Hash, str: string, random: Uuid): Uuid {
    if str == [] then random else DerivedUuid(md5(str), |str|)
  }

  // ---- what the derived UUID tells about the call-id ----------------------------------------

  lemma LowerHexInjective(m: int, n: int)
    requires 0 <= m < 16 && 0 <= n < 16
    ensures LowerHex(m) == LowerHex(n) <==> m == n
  {
  }

  /** Two derived UUIDs are equal exactly when the two loops read equal characters. */
  lemma DerivedEqual(d1: Digest, n1: nat, d2: Digest, n2: nat)
    ensures DerivedUuid(d1, n1) == DerivedUuid(d2, n2)
       <==> forall i :: 0 <= i < 16 ==> CharRead(d1, n1, i) == CharRead(d2, n2, i)
  {
    hide Md5Hex, CharRead;
    var u1, u2 := DerivedUuid(d1, n1), DerivedUuid(d2, n2);
    if u1 == u2 {
      forall i | 0 <= i < 16 ensures CharRead(d1, n1, i) == CharRead(d2, n2, i) {
        assert u1[i] == u2[i];
      }
    }
  }

  lemma HexPrefix(d1: Digest, d2: Digest)
    ensures Md5Hex(d1)[..16] == Md5Hex(d2)[..16] <==> d1[..8] == d2[..8]
  {
    hide LowerHex;
    var h1, h2 := Md5Hex(d1), Md5Hex(d2);
    if h1[..16] == h2[..16] {
      forall k | 0 <= k < 8 ensures d1[k] == d2[k] {
        assert h1[..16][2 * k] == h2[..16][2 * k] && h1[..16][2 * k + 1] == h2[..16][2 * k + 1];
        LowerHexInjective(Nibble(d1, 2 * k), Nibble(d2, 2 * k));
        LowerHexInjective(Nibble(d1, 2 * k + 1), Nibble(d2, 2 * k + 1));
      }
    }
    if d1[..8] == d2[..8] {
      forall i | 0 <= i < 16 ensures h1[i] == h2[i] {
        assert d1[..8][i / 2] == d2[..8][i / 2];
      }
    }
  }

  /** From 15 characters on, the call-id's length no longer matters: 64 bits of the digest decide. */
  lemma LongCallIds(d1: Digest, n1: nat, d2: Digest, n2: nat)
    requires n1 >= 15 && n2 >= 15
    ensures DerivedUuid(d1, n1) == DerivedUuid(d2, n2) <==> d1[..8] == d2[..8]
  {
    hide DerivedUuid, Md5Hex;
    DerivedEqual(d1, n1, d2, n2);
    HexPrefix(d1, d2);
    var h1, h2 := Md5Hex(d1), Md5Hex(d2);
    forall i | 0 <= i < 16 ensures CharRead(d1, n1, i) == h1[..16][i] && CharRead(d2, n2, i) == h2[..16][i] {
      CyclicSmall(n1, i);
      CyclicSmall(n2, i);
    }
    if forall i :: 0 <= i < 16 ==> CharRead(d1, n1, i) == CharRead(d2, n2, i) {
      forall i | 0 <= i < 16 ensures h1[..16][i] == h2[..16][i] {
        assert CharRead(d1, n1, i) == CharRead(d2, n2, i);
      }
      assert h1[..16] == h2[..16];
    }
  }

  /** A shorter call-id of length n leaves only n + 1 hexadecimal characters to tell calls apart. */
  lemma ShortCallIds(d1: Digest, d2: Digest, n: nat)
    requires n < 15
    ensures DerivedUuid(d1, n) == DerivedUuid(d2, n) <==> Md5Hex(d1)[..n + 1] == Md5Hex(d2)[..n + 1]
  {
    hide DerivedUuid, Md5Hex;
    DerivedEqual(d1, n, d2, n);
    var h1, h2 := Md5Hex(d1)[..n + 1], Md5Hex(d2)[..n + 1];
    forall i | 0 <= i < 16
      ensures CyclicIndex(n, i) <= n
      ensures CharRead(d1, n, i) == h1[CyclicIndex(n, i)] && CharRead(d2, n, i) == h2[CyclicIndex(n, i)]
    {
      CyclicSmall(n, i);
    }
    if forall i :: 0 <= i < 16 ==> CharRead(d1, n, i) == CharRead(d2, n, i) {
      forall i | 0 <= i < n + 1 ensures h1[i] == h2[i] {
        CyclicSmall(n, i);
        assert CharRead(d1, n, i) == CharRead(d2, n, i);
      }
      assert h1 == h2;
    }
  }

  /** Both nibbles of a derived byte are below ten: it is the code of a hexadecimal digit in lower case. */
  lemma DerivedNibble(d: Digest, n: nat, j: nat)
    requires j < 32
    ensures 0 <= Nibble(DerivedUuid(d, n), j) < 10
  {
    hide Md5Hex, CyclicIndex;
    var k := j / 2;
    CyclicSmall(n, k);
    DigestDigit(d, CyclicIndex(n, k));
  }

  /** Every digit of a derived text is decimal, so no change of letter case can break a lookup. */
  lemma DerivedTextIsDecimal(d: Digest, n: nat)
    ensures var s := PrintUuid(DerivedUuid(d, n));
      IsUuidText(s) && forall i :: 0 <= i < 36 && !DashAt(i) ==> '0' <= s[i] <= '9'
  {
    hide DerivedUuid, Nibble, Offset, IsUuidText;
    var u := DerivedUuid(d, n);
    PrintIsText(u);
    forall i | 0 <= i < 36 && !DashAt(i) ensures '0' <= PrintUuid(u)[i] <= '9' {
      PositionOf(i);
      DerivedNibble(d, n, i - Dashes(i));
    }
  }

  /**
   A derived UUID never has the version and variant bits of a random one (section 4.4 of
   RFC 4122), so it cannot coincide with any version 4 UUID.
   */
  lemma NeverVersion4(d: Digest, n: nat)
    ensures var u := DerivedUuid(d, n); (u[6] / 16 == 3 || u[6] / 16 == 6) && u[8] / 64 != 2
  {
    hide Md5Hex;
    CyclicSmall(n, 6);
    CyclicSmall(n, 8);
    DigestDigit(d, CyclicIndex(n, 6));
    DigestDigit(d, CyclicIndex(n, 8));
  }

  /**
   The Dart twin of the loop (lib/src/utils.dart:15-30) indexes the call-id itself, not a
   digest, with the same one-past-the-end wrap: it fails with a range error, None here,
   exactly for the lengths 1 to 15.
   */
  method DartCodeUnits(str: string) returns (numbers: Option<seq<int>>)
    requires str != []
    ensures numbers.None? <==> |str| < 16
    ensures numbers.Some? ==> numbers.value == seq(16, i requires 0 <= i < 16 => str[i] as int)
  {
    var read: seq<int> := [];
    var strIndex := 0;
    for i := 0 to 16
      invariant strIndex == i == |read| <= |str|
      invariant forall k :: 0 <= k < i ==> read[k] == str[k] as int
    {
      if strIndex > |str| {
        strIndex := 0;
      }
      if strIndex >= |str| {
        return None;
      }
      read := read + [str[strIndex] as int];
      strIndex := strIndex + 1;
    }
    numbers := Some(read);
  }
}
