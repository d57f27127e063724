/**
 The phone-number formatter of ios/Runner/Utils.swift and the place that calls it,
 ios/Runner/ProviderDelegate.swift:579-584.  A string is a sequence of characters; the
 source's UTF-16 offsets and its characters coincide on the ASCII strings it is used for.
 */
module PhoneFormat {

  predicate IsDigit(c: char) {
    '0' <= c <= '9'
  }

  /** What is left once every match of `[^0-9]` has been replaced by the empty string. */
  function OnlyDigits(s: string): string {
    if s == [] then [] else (if IsDigit(s[0]) then [s[0]] else []) + OnlyDigits(s[1..])
  }

  /** A single character stays exactly if it is one of the ten digits. */
  lemma OnlyDigitsOfOne(c: char)
    ensures OnlyDigits([c]) == if '0' <= c <= '9' then [c] else []
  {
    assert OnlyDigits([c][1..]) == [];
  }

  /** And the replacement works character by character, in order. */
  lemma {:induction false} OnlyDigitsOfBoth(a: string, b: string)
    ensures OnlyDigits(a + b) == OnlyDigits(a) + OnlyDigits(b)
  {
    if a == [] {
      assert a + b == b;
    } else {
      OnlyDigitsOfBoth(a[1..], b);
      assert (a + b)[1..] == a[1..] + b;
      Associative(if IsDigit(a[0]) then [a[0]] else [], OnlyDigits(a[1..]), OnlyDigits(b));
    }
  }

  lemma Associative(x: string, y: string, z: string)
    ensures (x + y) + z == x + (y + z)
  {
  }

  /** So every digit survives as often as it occurs, and nothing else does. */
  lemma {:induction false} OnlyDigitsCount(s: string, c: char)
    ensures multiset(OnlyDigits(s))[c] == if '0' <= c <= '9' then multiset(s)[c] else 0
  {
    if s != [] {
      OnlyDigitsCount(s[1..], c);
      assert s == [s[0]] + s[1..];
      assert multiset(s) == multiset([s[0]]) + multiset(s[1..]);
    }
  }

  /** Each digit occurs in both texts equally often. */
  ghost predicate SameDigits(s: string, t: string) {
    forall c :: '0' <= c <= '9' ==> multiset(s)[c] == multiset(t)[c]
  }

  lemma SameDigitsOf(s: string, t: string)
    requires OnlyDigits(s) == OnlyDigits(t)
    ensures SameDigits(s, t)
  {
    forall c | '0' <= c <= '9' ensures multiset(s)[c] == multiset(t)[c] {
      OnlyDigitsCount(s, c);
      OnlyDigitsCount(t, c);
    }
  }

  /** The recursive merge: a digit at each hole, the literal elsewhere, until either runs out. */
  function Merge(pattern: string, hole: char, digits: string): string
    decreases |pattern|
  {
    if pattern == [] then digits
    else if digits == [] then []
    else if pattern[0] == hole then [digits[0]] + Merge(pattern[1..], hole, digits[1..])
    else [pattern[0]] + Merge(pattern[1..], hole, digits)
  }

  /** The literals `Merge` emits before the digits run out. */
  function LiteralsUsed(pattern: string, hole: char, digits: string): string
    decreases |pattern|
  {
    if pattern == [] || digits == [] then []
    else if pattern[0] == hole then LiteralsUsed(pattern[1..], hole, digits[1..])
    else [pattern[0]] + LiteralsUsed(pattern[1..], hole, digits)
  }

  function Holes(pattern: string, hole: char): nat {
    if pattern == [] then 0
    else (if pattern[0] == hole then 1 else 0) + Holes(pattern[1..], hole)
  }

  /** The characters of `r` that do not stand on a literal of the pattern. */
  function Payload(pattern: string, hole: char, r: string): string
    decreases |pattern|
  {
    if r == [] || pattern == [] then r
    else (if pattern[0] == hole then [r[0]] else []) + Payload(pattern[1..], hole, r[1..])
  }

  ghost predicate LiteralsInPlace(pattern: string, hole: char, r: string) {
    forall i :: 0 <= i < |r| && i < |pattern| && pattern[i] != hole ==> r[i] == pattern[i]
  }

  /** What a caller means by "digits laid out by the pattern", without saying how. */
  ghost predicate IsLayout(pattern: string, hole: char, digits: string, r: string) {
    && LiteralsInPlace(pattern, hole, r)
    && Payload(pattern, hole, r) == digits
    && (r == [] || |r| > |pattern| || pattern[|r| - 1] == hole)
  }

  lemma HolesStep(pattern: string, hole: char, index: nat)
    requires index < |pattern|
    ensures Holes(pattern[..index + 1], hole)
         == Holes(pattern[..index], hole) + (if pattern[index] == hole then 1 else 0)
  {
    if index == 0 {
      assert pattern[..1][1..] == [];
    } else {
      assert pattern[..index + 1][1..] == pattern[1..][..index];
      assert pattern[..index][1..] == pattern[1..][..index - 1];
      HolesStep(pattern[1..], hole, index - 1);
    }
  }

  /** Swift's `insert(_:at:)`: everything from the index on moves up by one. */
  function Insert(s: string, index: nat, c: char): string
    requires index <= |s|
  {
    s[..index] + [c] + s[index..]
  }

  /** One turn of the loop: the finished prefix grows by a literal or by the next digit. */
  lemma MergeStep(pattern: string, hole: char, index: nat, s: string)
    requires index < |pattern| && index < |s|
    ensures var c := pattern[index];
      var after := if c == hole then s else Insert(s, index, c);
      && |after| > index && after[index + 1..] == (if c == hole then s[index + 1..] else s[index..])
      && after[..index + 1] + Merge(pattern[index + 1..], hole, after[index + 1..])
         == s[..index] + Merge(pattern[index..], hole, s[index..])
  {
    hide Insert;
    assert pattern[index..][1..] == pattern[index + 1..];
    if pattern[index] == hole {
      assert s[index..][1..] == s[index + 1..];
      assert s[..index + 1] == s[..index] + [s[index]];
    } else {
      InsertSplits(s, index, pattern[index]);
    }
  }

  lemma InsertSplits(s: string, index: nat, c: char)
    requires index <= |s|
    ensures var after := Insert(s, index, c);
      |after| > index && after[index + 1..] == s[index..] && after[..index + 1] == s[..index] + [c]
  {
  }

  /** `applyPatternOnNumbers`: the string grows at `index` while it is being scanned. */
  method ApplyPatternOnNumbers(s: string, pattern: string, replacementCharacter: char)
    returns (pureNumber: string)
    ensures pureNumber == Merge(pattern, replacementCharacter, OnlyDigits(s))
  {
    hide OnlyDigits, Insert;
    pureNumber := OnlyDigits(s);
    ghost var digits := pureNumber;
    for index := 0 to |pattern|
      invariant index <= |pureNumber|
      // a finished prefix of length `index`, then digits nobody has touched
      invariant Holes(pattern[..index], replacementCharacter) <= |digits|
      invariant pureNumber[index..] == digits[Holes(pattern[..index], replacementCharacter)..]
      invariant pureNumber[..index] + Merge(pattern[index..], replacementCharacter, pureNumber[index..])
             == Merge(pattern, replacementCharacter, digits)
    {
      if index >= |pureNumber| {
        return;
      }
      HolesStep(pattern, replacementCharacter, index);
      MergeStep(pattern, replacementCharacter, index, pureNumber);
      var patternCharacter := pattern[index];
      if patternCharacter != replacementCharacter {
        pureNumber := Insert(pureNumber, index, patternCharacter);
      }
    }
    assert pureNumber[..|pattern|] + pureNumber[|pattern|..] == pureNumber;
  }

  /** The merge is the one and only layout of the digits. */
  lemma {:induction false} MergeIsTheLayout(pattern: string, hole: char, digits: string, r: string)
    ensures IsLayout(pattern, hole, digits, r) <==> r == Merge(pattern, hole, digits)
    decreases |pattern|
  {
    if pattern == [] || r == [] {
    } else if pattern[0] == hole {
      LayoutTail(pattern, hole, r);
      if digits != [] {
        MergeIsTheLayout(pattern[1..], hole, digits[1..], r[1..]);
        assert digits == [digits[0]] + digits[1..] && r == [r[0]] + r[1..];
      }
    } else {
      LayoutTail(pattern, hole, r);
      MergeIsTheLayout(pattern[1..], hole, digits, r[1..]);
      PayloadEmpty(pattern[1..], hole, r[1..]);
      assert r == [r[0]] + r[1..];
      if IsLayout(pattern, hole, digits, r) { assert r[1..] != []; }
      if digits != [] && r == Merge(pattern, hole, digits) { assert r[1..] == Merge(pattern[1..], hole, digits); }
    }
  }

  /** The positional half of `IsLayout`, one place further on. */
  lemma LayoutTail(pattern: string, hole: char, r: string)
    requires pattern != [] && r != []
    ensures LiteralsInPlace(pattern, hole, r)
       <==> (pattern[0] == hole || r[0] == pattern[0]) && LiteralsInPlace(pattern[1..], hole, r[1..])
  {
    if LiteralsInPlace(pattern[1..], hole, r[1..]) {
      forall i | 1 <= i < |r| && i < |pattern| && pattern[i] != hole ensures r[i] == pattern[i] {
        assert r[1..][i - 1] == pattern[1..][i - 1];
      }
    }
  }

  /** A string without payload that is not empty ends on a literal. */
  lemma {:induction false} PayloadEmpty(pattern: string, hole: char, r: string)
    ensures Payload(pattern, hole, r) == [] && r != [] ==> |r| <= |pattern| && pattern[|r| - 1] != hole
    decreases |pattern|
  {
    if r != [] && pattern != [] {
      PayloadEmpty(pattern[1..], hole, r[1..]);
    }
  }

  /** No digit is lost, and the length is the digits plus the literals used. */
  lemma {:induction false} MergeLength(pattern: string, hole: char, digits: string)
    ensures |Merge(pattern, hole, digits)| == |digits| + |LiteralsUsed(pattern, hole, digits)|
    decreases |pattern|
  {
    if pattern != [] && digits != [] {
      MergeLength(pattern[1..], hole, if pattern[0] == hole then digits[1..] else digits);
    }
  }

  lemma {:induction false} OnlyDigitsAreDigits(s: string)
    ensures OnlyDigits(OnlyDigits(s)) == OnlyDigits(s)
  {
    if s != [] {
      OnlyDigitsAreDigits(s[1..]);
      if IsDigit(s[0]) { assert OnlyDigits(s)[1..] == OnlyDigits(s[1..]); }
      else { assert OnlyDigits(s) == OnlyDigits(s[1..]); }
    }
  }

  lemma {:induction false} OnlyDigitsTail(digits: string)
    requires digits != [] && OnlyDigits(digits) == digits
    ensures IsDigit(digits[0]) && OnlyDigits(digits[1..]) == digits[1..]
  {
    OnlyDigitsShorter(digits[1..]);
  }

  lemma {:induction false} OnlyDigitsShorter(s: string)
    ensures |OnlyDigits(s)| <= |s|
  {
    if s != [] { OnlyDigitsShorter(s[1..]); }
  }

  lemma {:induction false} DigitCount(pattern: string, hole: char, digits: string)
    requires OnlyDigits(digits) == digits
    ensures |OnlyDigits(Merge(pattern, hole, digits))|
         == |digits| + |OnlyDigits(LiteralsUsed(pattern, hole, digits))|
    ensures OnlyDigits(LiteralsUsed(pattern, hole, digits)) == [] ==>
      OnlyDigits(Merge(pattern, hole, digits)) == digits
    decreases |pattern|
  {
    if pattern != [] && digits != [] {
      OnlyDigitsTail(digits);
      var rest := if pattern[0] == hole then digits[1..] else digits;
      DigitCount(pattern[1..], hole, rest);
      var m := Merge(pattern, hole, digits);
      assert m[1..] == Merge(pattern[1..], hole, rest);
      if pattern[0] != hole {
        assert LiteralsUsed(pattern, hole, digits)[1..] == LiteralsUsed(pattern[1..], hole, digits);
      }
    }
  }

  /** A text without digits, character by character. */
  ghost predicate NoDigits(s: string) {
    forall c :: c in s ==> !('0' <= c <= '9')
  }

  lemma {:induction false} NoDigitsLeft(s: string)
    ensures OnlyDigits(s) == [] <==> NoDigits(s)
  {
    if s != [] {
      NoDigitsLeft(s[1..]);
      assert s == [s[0]] + s[1..];
      assert s[0] in s && forall c :: c in s[1..] ==> c in s;
      if NoDigits(s[1..]) && !IsDigit(s[0]) {
        forall c | c in s ensures !('0' <= c <= '9') { assert c == s[0] || c in s[1..]; }
      }
    }
  }

  lemma {:induction false} SameDigitsSameCount(s: string, t: string)
    requires SameDigits(s, t)
    ensures |OnlyDigits(s)| == |OnlyDigits(t)|
  {
    forall c: char ensures multiset(OnlyDigits(s))[c] == multiset(OnlyDigits(t))[c] {
      OnlyDigitsCount(s, c);
      OnlyDigitsCount(t, c);
    }
    assert multiset(OnlyDigits(s)) == multiset(OnlyDigits(t));
  }

  /** Formatting conserves the digits, in number and in order, exactly when no literal it used is a digit. */
  lemma DigitsConserved(s: string, pattern: string, hole: char)
    ensures var r, used := Merge(pattern, hole, OnlyDigits(s)), LiteralsUsed(pattern, hole, OnlyDigits(s));
      && (SameDigits(r, s) <==> NoDigits(used))
      && (OnlyDigits(r) == OnlyDigits(s) <==> NoDigits(used))
  {
    var r, used := Merge(pattern, hole, OnlyDigits(s)), LiteralsUsed(pattern, hole, OnlyDigits(s));
    OnlyDigitsAreDigits(s);
    DigitCount(pattern, hole, OnlyDigits(s));
    NoDigitsLeft(used);
    if NoDigits(used) { SameDigitsOf(r, s); }
    if SameDigits(r, s) { SameDigitsSameCount(r, s); }
  }

  /** The digits can be read off the layout, so no two digit sequences are formatted alike. */
  lemma MergeInjective(pattern: string, hole: char, d1: string, d2: string)
    requires Merge(pattern, hole, d1) == Merge(pattern, hole, d2)
    ensures d1 == d2
  {
    MergeIsTheLayout(pattern, hole, d1, Merge(pattern, hole, d1));
    MergeIsTheLayout(pattern, hole, d2, Merge(pattern, hole, d2));
  }

  /** Formatting what was already formatted changes nothing exactly when no literal it used is a digit. */
  lemma Idempotent(s: string, pattern: string, hole: char)
    ensures var once := Merge(pattern, hole, OnlyDigits(s));
      Merge(pattern, hole, OnlyDigits(once)) == once
      <==> NoDigits(LiteralsUsed(pattern, hole, OnlyDigits(s)))
  {
    DigitsConserved(s, pattern, hole);
    var once := Merge(pattern, hole, OnlyDigits(s));
    if Merge(pattern, hole, OnlyDigits(once)) == once {
      MergeInjective(pattern, hole, OnlyDigits(once), OnlyDigits(s));
    }
  }

  /** The last character is the last digit: no trailing literal, whatever the pattern ends in. */
  lemma {:induction false} EndsInTheLastDigit(pattern: string, hole: char, digits: string)
    requires digits != []
    ensures Merge(pattern, hole, digits) != []
    ensures var m := Merge(pattern, hole, digits); m[|m| - 1] == digits[|digits| - 1]
    decreases |pattern|
  {
    if pattern != [] {
      if pattern[0] != hole { EndsInTheLastDigit(pattern[1..], hole, digits); }
      else if |digits| > 1 { EndsInTheLastDigit(pattern[1..], hole, digits[1..]); }
      else { assert Merge(pattern[1..], hole, []) == []; }
    }
  }

  /** Digits beyond the holes follow the completely filled pattern, untouched. */
  lemma {:induction false} SurplusIsAppended(pattern: string, hole: char, digits: string)
    requires |digits| > Holes(pattern, hole)
    ensures |Merge(pattern, hole, digits)| == |pattern| + |digits| - Holes(pattern, hole)
    ensures Merge(pattern, hole, digits)[|pattern|..] == digits[Holes(pattern, hole)..]
    decreases |pattern|
  {
    if pattern != [] {
      var rest := if pattern[0] == hole then digits[1..] else digits;
      SurplusIsAppended(pattern[1..], hole, rest);
      var m := Merge(pattern, hole, digits);
      assert m[1..] == Merge(pattern[1..], hole, rest);
      assert m[|pattern|..] == m[1..][|pattern[1..]|..];
    }
  }

  // The call site: which pattern is used depends on the raw length of the number.

  const SHORT_PATTERN := "(###) ###-####"
  const LONG_PATTERN := "+# (###) ###-####"

  function FormatHandle(phoneNumber: string): string {
    Merge(if |phoneNumber| > 10 then LONG_PATTERN else SHORT_PATTERN, '#', OnlyDigits(phoneNumber))
  }

  lemma {:induction false} PayloadLength(pattern: string, hole: char, r: string)
    ensures |r| <= |pattern| ==> |Payload(pattern, hole, r)| == Holes(pattern[..|r|], hole)
    ensures |r| > |pattern| ==> |Payload(pattern, hole, r)| == Holes(pattern, hole) + |r| - |pattern|
    decreases |pattern|
  {
    if r != [] && pattern != [] {
      PayloadLength(pattern[1..], hole, r[1..]);
      if |r| <= |pattern| { assert pattern[..|r|][1..] == pattern[1..][..|r[1..]|]; }
    }
  }

  lemma {:induction false} HolesMonotone(pattern: string, hole: char, i: nat, j: nat)
    requires i <= j <= |pattern|
    ensures Holes(pattern[..i], hole) <= Holes(pattern[..j], hole) <= Holes(pattern[..i], hole) + j - i
  {
    if i < j {
      HolesMonotone(pattern, hole, i, j - 1);
      HolesStep(pattern, hole, j - 1);
    }
  }

  /** A formatted number longer than ten characters carries more digits than the first ten places hold. */
  lemma LongerThanTen(pattern: string, digits: string)
    requires |pattern| > 10 && pattern[10] == '#'
    ensures |Merge(pattern, '#', digits)| > 10 <==> |digits| > Holes(pattern[..10], '#')
  {
    var r := Merge(pattern, '#', digits);
    MergeIsTheLayout(pattern, '#', digits, r);
    PayloadLength(pattern, '#', r);
    HolesStep(pattern, '#', 10);
    assert pattern[..|pattern|] == pattern;
    if |r| <= 10 { HolesMonotone(pattern, '#', |r|, 10); }
    else if |r| <= |pattern| { HolesMonotone(pattern, '#', 11, |r|); }
    else { HolesMonotone(pattern, '#', 11, |pattern|); }
  }

  function HoleAt(pattern: string, i: nat): nat
    requires i < |pattern|
  {
    if pattern[i] == '#' then 1 else 0
  }

  lemma HolesFive(p: string, from: nat)
    requires from + 5 <= |p|
    ensures Holes(p[..from + 5], '#') == Holes(p[..from], '#') + HoleAt(p, from) + HoleAt(p, from + 1)
      + HoleAt(p, from + 2) + HoleAt(p, from + 3) + HoleAt(p, from + 4)
  {
    assert Holes(p[..from + 2], '#') == Holes(p[..from], '#') + HoleAt(p, from) + HoleAt(p, from + 1) by {
      HolesStep(p, '#', from);
      HolesStep(p, '#', from + 1);
    }
    assert Holes(p[..from + 4], '#') == Holes(p[..from + 2], '#') + HoleAt(p, from + 2) + HoleAt(p, from + 3) by {
      HolesStep(p, '#', from + 2);
      HolesStep(p, '#', from + 3);
    }
    HolesStep(p, '#', from + 4);
  }

  lemma PatternFacts()
    ensures Holes(SHORT_PATTERN[..10], '#') == 6 && Holes(LONG_PATTERN[..10], '#') == 5
    ensures forall i :: 0 <= i < |SHORT_PATTERN| ==> !IsDigit(SHORT_PATTERN[i])
    ensures forall i :: 0 <= i < |LONG_PATTERN| ==> !IsDigit(LONG_PATTERN[i])
  {
    HolesFive(SHORT_PATTERN, 0);
    HolesFive(SHORT_PATTERN, 5);
    HolesFive(LONG_PATTERN, 0);
    HolesFive(LONG_PATTERN, 5);
    assert SHORT_PATTERN[..0] == LONG_PATTERN[..0] == [];
  }

  lemma {:induction false} NoDigitLiterals(pattern: string, hole: char, digits: string)
    requires forall i :: 0 <= i < |pattern| ==> !IsDigit(pattern[i])
    ensures OnlyDigits(LiteralsUsed(pattern, hole, digits)) == []
    decreases |pattern|
  {
    if pattern != [] && digits != [] {
      NoDigitLiterals(pattern[1..], hole, if pattern[0] == hole then digits[1..] else digits);
    }
  }

  /** Both patterns keep every digit of the number, as often as it occurs and in order. */
  lemma HandleKeepsDigits(phoneNumber: string)
    ensures SameDigits(FormatHandle(phoneNumber), phoneNumber)
    ensures OnlyDigits(FormatHandle(phoneNumber)) == OnlyDigits(phoneNumber)
  {
    var pattern := if |phoneNumber| > 10 then LONG_PATTERN else SHORT_PATTERN;
    PatternFacts();
    NoDigitLiterals(pattern, '#', OnlyDigits(phoneNumber));
    NoDigitsLeft(LiteralsUsed(pattern, '#', OnlyDigits(phoneNumber)));
    DigitsConserved(phoneNumber, pattern, '#');
  }

  ghost predicate AllHoles(s: string) {
    forall i :: 0 <= i < |s| ==> s[i] == '#'
  }

  /** Literals are emitted as they stand while digits are left. */
  lemma {:induction false} LiteralRun(literals: string, rest: string, digits: string)
    requires '#' !in literals && digits != []
    ensures Merge(literals + rest, '#', digits) == literals + Merge(rest, '#', digits)
    decreases |literals|
  {
    if literals == [] {
      assert literals + rest == rest;
    } else {
      LiteralRun(literals[1..], rest, digits);
      assert (literals + rest)[1..] == literals[1..] + rest;
    }
  }

  /** A row of holes takes that many digits. */
  lemma {:induction false} HoleRun(holes: string, rest: string, digits: string)
    requires AllHoles(holes) && |digits| > |holes|
    ensures Merge(holes + rest, '#', digits) == digits[..|holes|] + Merge(rest, '#', digits[|holes|..])
    decreases |holes|
  {
    if holes == [] {
      assert holes + rest == rest;
    } else {
      HoleRun(holes[1..], rest, digits[1..]);
      assert (holes + rest)[1..] == holes[1..] + rest;
      assert digits[1..][|holes[1..]|..] == digits[|holes|..];
      assert digits[..|holes|] == [digits[0]] + digits[1..][..|holes[1..]|];
    }
  }

  /** Only holes are left: the digits stay as they are. */
  lemma {:induction false} OnlyHoles(pattern: string, digits: string)
    requires AllHoles(pattern)
    ensures Merge(pattern, '#', digits) == digits
    decreases |pattern|
  {
    if pattern != [] && digits != [] { OnlyHoles(pattern[1..], digits[1..]); }
  }

  /** A pattern of literals and holes in turn cuts the digits into as many pieces. */
  lemma ThreePieces(l1: string, h1: string, l2: string, h2: string, l3: string, h3: string, digits: string)
    requires '#' !in l1 && '#' !in l2 && '#' !in l3 && AllHoles(h1) && AllHoles(h2) && AllHoles(h3)
    requires |h1| == 3 == |h2| && |digits| > 6
    ensures Merge(l1 + (h1 + (l2 + (h2 + (l3 + h3)))), '#', digits)
         == l1 + (digits[..3] + (l2 + (digits[3..6] + (l3 + digits[6..]))))
  {
    hide Merge, AllHoles;
    var second := digits[3..];
    var third := second[3..];
    LiteralRun(l1, h1 + (l2 + (h2 + (l3 + h3))), digits);
    HoleRun(h1, l2 + (h2 + (l3 + h3)), digits);
    LiteralRun(l2, h2 + (l3 + h3), second);
    HoleRun(h2, l3 + h3, second);
    LiteralRun(l3, h3, third);
    OnlyHoles(h3, third);
    assert third == digits[6..] && second[..3] == digits[3..6];
  }

  lemma Punctuation()
    ensures '#' !in "(" && '#' !in ") " && '#' !in "-" && AllHoles("###") && AllHoles("####") && |"###"| == 3
  {
  }

  lemma ShortPieces()
    ensures SHORT_PATTERN == "(" + ("###" + (") " + ("###" + ("-" + "####"))))
  {
  }

  lemma LongPieces()
    ensures LONG_PATTERN == "+" + ("#" + (" " + SHORT_PATTERN))
  {
  }

  lemma AreaAndNumber(digits: string)
    requires |digits| > 6
    ensures Merge(SHORT_PATTERN, '#', digits)
         == "(" + (digits[..3] + (") " + (digits[3..6] + ("-" + digits[6..]))))
  {
    hide Merge, AllHoles, SHORT_PATTERN;
    ShortPieces();
    Punctuation();
    ThreePieces("(", "###", ") ", "###", "-", "####", digits);
  }

  lemma WithCountry(digits: string)
    requires |digits| > 7
    ensures Merge(LONG_PATTERN, '#', digits) == "+" + (digits[..1] + (" " + Merge(SHORT_PATTERN, '#', digits[1..])))
  {
    hide Merge;
    LongPieces();
    CountryPieces("+", "#", " ", SHORT_PATTERN, digits);
  }

  lemma CountryPieces(l1: string, h: string, l2: string, rest: string, digits: string)
    requires '#' !in l1 && '#' !in l2 && AllHoles(h) && |digits| > |h|
    ensures Merge(l1 + (h + (l2 + rest)), '#', digits)
         == l1 + (digits[..|h|] + (l2 + Merge(rest, '#', digits[|h|..])))
  {
    hide Merge;
    LiteralRun(l1, h + (l2 + rest), digits);
    HoleRun(h, l2 + rest, digits);
    LiteralRun(l2, rest, digits[|h|..]);
  }

  /** A full number the way a reader sees it: area code in parentheses, three digits, a dash, the rest. */
  function Spelled(d: string): string
    requires |d| >= 7
  {
    "(" + (d[..3] + (") " + (d[3..6] + ("-" + d[6..]))))
  }

  /** A text beyond ten characters gets its first digit split off as a country code. */
  lemma HandleText(phoneNumber: string)
    ensures var d := OnlyDigits(phoneNumber);
      && (|phoneNumber| <= 10 && |d| >= 7 ==> FormatHandle(phoneNumber) == Spelled(d))
      && (|phoneNumber| > 10 && |d| >= 8 ==> FormatHandle(phoneNumber) == "+" + (d[..1] + (" " + Spelled(d[1..]))))
  {
    hide Merge, OnlyDigits;
    var d := OnlyDigits(phoneNumber);
    if |phoneNumber| <= 10 {
      if |d| >= 7 { AreaAndNumber(d); }
    } else if |d| >= 8 {
      WithCountry(d);
      AreaAndNumber(d[1..]);
    }
  }

  /**
   The handle is not always stable: the pattern is chosen by the raw length, and
   formatting changes the raw length.  It is stable exactly under this condition; every
   plain ten-digit number fails it.
   */
  lemma HandleStable(phoneNumber: string)
    ensures var k := |OnlyDigits(phoneNumber)|;
      FormatHandle(FormatHandle(phoneNumber)) == FormatHandle(phoneNumber)
      <==> k == 0 || (if |phoneNumber| > 10 then k >= 6 else k <= 6)
  {
    var digits := OnlyDigits(phoneNumber);
    PatternFacts();
    HandleKeepsDigits(phoneNumber);
    LongerThanTen(SHORT_PATTERN, digits);
    LongerThanTen(LONG_PATTERN, digits);
    if digits != [] {
      assert Merge(SHORT_PATTERN, '#', digits)[0] == '(' != '+' == Merge(LONG_PATTERN, '#', digits)[0];
    }
  }

  /** A ten-digit number formatted twice changes its meaning to the reader. */
  lemma TenDigitsUnstable(phoneNumber: string)
    requires |phoneNumber| == 10 == |OnlyDigits(phoneNumber)|
    ensures FormatHandle(FormatHandle(phoneNumber)) != FormatHandle(phoneNumber)
  {
    HandleStable(phoneNumber);
  }
}
