/** The parts of Go's `strings` and `strconv` the service relies on: trimming, splitting and decimal integers. */
module Text {
  import opened Basics

  // ---------------------------------------------------------------- trimming

  /** `unicode.IsSpace`: the Latin-1 spaces and the characters with the White_Space property. */
  predicate IsSpace(c: char) {
    || c == ' ' || '\t' <= c <= '\r' || c == '\U{85}' || c == '\U{A0}'
    || c == '\U{1680}' || '\U{2000}' <= c <= '\U{200A}' || c == '\U{2028}' || c == '\U{2029}'
    || c == '\U{202F}' || c == '\U{205F}' || c == '\U{3000}'
  }

  /** The code points with the Unicode property White_Space. */
  const WHITE_SPACE := {
    0x09, 0x0A, 0x0B, 0x0C, 0x0D, 0x20, 0x85, 0xA0, 0x1680, 0x2000, 0x2001, 0x2002, 0x2003, 0x2004, 0x2005, 0x2006,
    0x2007, 0x2008, 0x2009, 0x200A, 0x2028, 0x2029, 0x202F, 0x205F, 0x3000}

  lemma SpacesAreWhiteSpace(c: char)
    ensures IsSpace(c) <==> c as int in WHITE_SPACE
  {
  }

  predicate AllSpace(s: string) {
    forall i :: 0 <= i < |s| ==> IsSpace(s[i])
  }

  /** Neither end is a space. */
  predicate Tight(s: string) {
    s != [] ==> !IsSpace(s[0]) && !IsSpace(s[|s| - 1])
  }

  function TrimLeft(s: string): string {
    if s != [] && IsSpace(s[0]) then TrimLeft(s[1..]) else s
  }

  function TrimRight(s: string): string {
    if s != [] && IsSpace(s[|s| - 1]) then TrimRight(s[..|s| - 1]) else s
  }

  function TrimSpace(s: string): string {
    TrimRight(TrimLeft(s))
  }

  ghost predicate Padded(s: string, left: string, core: string, right: string) {
    s == left + core + right && AllSpace(left) && AllSpace(right)
  }

  lemma {:induction false} TrimLeftDropsSpaces(left: string, s: string)
    requires AllSpace(left)
    ensures TrimLeft(left + s) == TrimLeft(s)
  {
    if left == [] {
      assert left + s == s;
    } else {
      assert (left + s)[1..] == left[1..] + s;
      TrimLeftDropsSpaces(left[1..], s);
    }
  }

  lemma {:induction false} TrimRightDropsSpaces(s: string, right: string)
    requires AllSpace(right)
    ensures TrimRight(s + right) == TrimRight(s)
  {
    if right == [] {
      assert s + right == s;
    } else {
      assert (s + right)[..|s + right| - 1] == s + right[..|right| - 1];
      TrimRightDropsSpaces(s, right[..|right| - 1]);
    }
  }

  lemma {:induction false} TrimLeftSplits(s: string) returns (left: string)
    ensures s == left + TrimLeft(s) && AllSpace(left)
    ensures TrimLeft(s) != [] ==> !IsSpace(TrimLeft(s)[0])
  {
    if s != [] && IsSpace(s[0]) {
      var rest := TrimLeftSplits(s[1..]);
      left := [s[0]] + rest;
    } else {
      left := [];
    }
  }

  lemma {:induction false} TrimRightSplits(s: string) returns (right: string)
    ensures s == TrimRight(s) + right && AllSpace(right)
    ensures TrimRight(s) != [] ==> !IsSpace(TrimRight(s)[|TrimRight(s)| - 1])
  {
    if s != [] && IsSpace(s[|s| - 1]) {
      var rest := TrimRightSplits(s[..|s| - 1]);
      right := rest + [s[|s| - 1]];
    } else {
      right := [];
    }
  }

  lemma TrimSpaceIsACore(s: string) returns (left: string, right: string)
    ensures Padded(s, left, TrimSpace(s), right) && Tight(TrimSpace(s))
  {
    left := TrimLeftSplits(s);
    right := TrimRightSplits(TrimLeft(s));
    if TrimSpace(s) != [] {
      assert TrimSpace(s)[0] == TrimLeft(s)[0];
    }
  }

  lemma CoreIsUnique(s: string, left: string, core: string, right: string)
    requires Padded(s, left, core, right) && Tight(core)
    ensures TrimSpace(s) == core
  {
    assert s == left + (core + right);
    TrimLeftDropsSpaces(left, core + right);
    if core == [] {
      assert core + right == right && right + [] == right;
      TrimLeftDropsSpaces(right, []);
    } else {
      assert TrimLeft(core + right) == core + right;
      TrimRightDropsSpaces(core, right);
    }
  }

  /** Trimming finds the one space-free-ended core that the text is a space-padding of. */
  lemma TrimSpaceIsTheCore(s: string, core: string)
    ensures TrimSpace(s) == core <==> Tight(core) && exists left, right :: Padded(s, left, core, right)
  {
    var l, r := TrimSpaceIsACore(s);
    forall left, right | Padded(s, left, core, right) && Tight(core)
      ensures TrimSpace(s) == core
    {
      CoreIsUnique(s, left, core, right);
    }
  }

  lemma TrimSpaceIsTight(s: string)
    ensures Tight(TrimSpace(s)) && TrimSpace(TrimSpace(s)) == TrimSpace(s)
  {
    TrimSpaceIsTheCore(s, TrimSpace(s));
    assert Padded(TrimSpace(s), [], TrimSpace(s), []);
    TrimSpaceIsTheCore(TrimSpace(s), TrimSpace(s));
  }

  // ---------------------------------------------------------------- splitting

  /** `strings.Split` on one separator character. */
  function Split(s: string, separator: char): (parts: seq<string>)
    ensures |parts| >= 1
  {
    if s == [] then [[]]
    else
      var rest := Split(s[1..], separator);
      if s[0] == separator then [[]] + rest else [[s[0]] + rest[0]] + rest[1..]
  }

  /** The parts with one separator between each two. */
  function Join(parts: seq<string>, separator: char): string
    requires |parts| >= 1
  {
    if |parts| == 1 then parts[0] else parts[0] + [separator] + Join(parts[1..], separator)
  }

  /** Splitting undoes joining of separator-free parts, and always yields such parts. */
  lemma {:induction false} SplitIsTheParts(s: string, separator: char)
    ensures Join(Split(s, separator), separator) == s
    ensures forall i :: 0 <= i < |Split(s, separator)| ==> separator !in Split(s, separator)[i]
  {
    if s != [] {
      var rest := Split(s[1..], separator);
      SplitIsTheParts(s[1..], separator);
      if s[0] == separator {
        assert ([[]] + rest)[1..] == rest;
      } else {
        assert ([[s[0]] + rest[0]] + rest[1..])[1..] == rest[1..];
      }
    }
  }

  // ---------------------------------------------------------------- decimal integers

  predicate IsDigit(c: char) {
    '0' <= c <= '9'
  }

  predicate AllDigits(s: string) {
    forall i :: 0 <= i < |s| ==> IsDigit(s[i])
  }

  function DigitsValue(s: string): nat
    requires AllDigits(s)
  {
    if s == [] then 0 else 10 * DigitsValue(s[..|s| - 1]) + (s[|s| - 1] as int - '0' as int)
  }

  function FormatNat(n: nat): string {
    var last := ('0' as int + n % 10) as char;
    if n < 10 then [last] else FormatNat(n / 10) + [last]
  }

  /** `strconv.FormatInt(v, 10)`. */
  function FormatInt(v: int): string {
    if v < 0 then "-" + FormatNat(-v) else FormatNat(v)
  }

  /** `strconv.ParseInt(s, 10, 64)`, which is also `strconv.Atoi` on 64-bit platforms. */
  function ParseInt(s: string): Option<Int64> {
    var negative := s != [] && s[0] == '-';
    var digits := if s != [] && (s[0] == '-' || s[0] == '+') then s[1..] else s;
    if digits == [] || !AllDigits(digits) then None
    else
      var magnitude: int := DigitsValue(digits);
      var v := if negative then -magnitude else magnitude;
      if INT64_MIN <= v <= INT64_MAX then Some(v) else None
  }

  /** What an optional sign and digits stand for. */
  function SignedValue(sign: string, digits: string): int
    requires AllDigits(digits)
  {
    if sign == "-" then 0 - DigitsValue(digits) else DigitsValue(digits)
  }

  ghost predicate SignedDigits(s: string, sign: string, digits: string) {
    s == sign + digits && sign in {"", "+", "-"} && digits != [] && AllDigits(digits)
  }

  lemma ParseTakesSignedDigits(s: string, sign: string, digits: string)
    requires SignedDigits(s, sign, digits)
    ensures var v := SignedValue(sign, digits);
            ParseInt(s) == if INT64_MIN <= v <= INT64_MAX then Some(v) else None
  {
    assert IsDigit(digits[0]);
    assert s[|sign|..] == digits;
  }

  lemma ParsedIsSignedDigits(s: string) returns (sign: string, digits: string)
    requires ParseInt(s).Some?
    ensures SignedDigits(s, sign, digits)
  {
    sign := if s[0] == '-' then "-" else if s[0] == '+' then "+" else "";
    digits := s[|sign|..];
    assert s == sign + digits;
  }

  /** A text is accepted as `v` exactly when it is an optional sign and digits that stand for `v`, in 64 bits. */
  lemma ParseIntIff(s: string, v: Int64)
    ensures ParseInt(s) == Some(v) <==>
              exists sign, digits :: SignedDigits(s, sign, digits) && SignedValue(sign, digits) == v
  {
    if ParseInt(s) == Some(v) {
      var sign, digits := ParsedIsSignedDigits(s);
      ParseTakesSignedDigits(s, sign, digits);
    }
    forall sign, digits | SignedDigits(s, sign, digits)
      ensures var w := SignedValue(sign, digits);
              ParseInt(s) == if INT64_MIN <= w <= INT64_MAX then Some(w) else None
    {
      ParseTakesSignedDigits(s, sign, digits);
    }
  }

  lemma {:induction false} FormatNatDigits(n: nat)
    ensures FormatNat(n) != [] && AllDigits(FormatNat(n)) && DigitsValue(FormatNat(n)) == n
    ensures FormatNat(n)[0] == '0' ==> FormatNat(n) == "0"
  {
    if n >= 10 {
      FormatNatDigits(n / 10);
      var front := FormatNat(n / 10);
      assert FormatNat(n)[..|front|] == front;
    }
  }

  /** Formatting then parsing returns every 64-bit integer, both extremes included. */
  lemma ParseFormatInt(v: Int64)
    ensures ParseInt(FormatInt(v)) == Some(v)
    ensures FormatInt(v)[0] == '-' <==> v < 0
    ensures FormatInt(v)[0] == '0' <==> FormatInt(v) == "0"
    ensures FormatInt(v)[0] != '+'
  {
    var magnitude: int := if v < 0 then 0 - v else v;
    FormatNatDigits(magnitude);
    ParseTakesSignedDigits(FormatInt(v), if v < 0 then "-" else "", FormatNat(magnitude));
  }
}
