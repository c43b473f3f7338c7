/**
 * The parts of Python's `str` behaviour that the backend's rules depend on:
 * ASCII case mapping, `in` (substring test), `strip`/`lstrip`/`rstrip`,
 * `replace(pattern, "")`, `split(" ")` and `join`, `str(int)` and `int(str)`.
 * Characters are Unicode scalar values, compared by code point as Python does.
 */
module PyStr {
  import opened Wrappers

  // ---------------------------------------------------------------------------
  // Case mapping (ASCII letters only)
  // ---------------------------------------------------------------------------

  predicate IsAsciiUpper(c: char) { 'A' <= c <= 'Z' }

  predicate IsAsciiLower(c: char) { 'a' <= c <= 'z' }

  function LowerChar(c: char): (r: char)
    ensures !IsAsciiUpper(r)
    ensures IsAsciiUpper(c) ==> IsAsciiLower(r) && r as int == c as int + 32
    ensures !IsAsciiUpper(c) ==> r == c
  {
    if IsAsciiUpper(c) then (c as int + 32) as char else c
  }

  function UpperChar(c: char): (r: char)
    ensures !IsAsciiLower(r)
    ensures IsAsciiLower(c) ==> IsAsciiUpper(r) && r as int == c as int - 32
    ensures !IsAsciiLower(c) ==> r == c
  {
    if IsAsciiLower(c) then (c as int - 32) as char else c
  }

  /** `s.lower()`, restricted to ASCII letters. */
  function Lower(s: string): (r: string)
    ensures |r| == |s|
    ensures forall i :: 0 <= i < |s| ==> r[i] == LowerChar(s[i])
  {
    if s == [] then [] else [LowerChar(s[0])] + Lower(s[1..])
  }

  /** `s.upper()`, restricted to ASCII letters. */
  function Upper(s: string): (r: string)
    ensures |r| == |s|
    ensures forall i :: 0 <= i < |s| ==> r[i] == UpperChar(s[i])
  {
    if s == [] then [] else [UpperChar(s[0])] + Upper(s[1..])
  }

  /** Lower-casing twice is lower-casing once. */
  lemma {:induction false} LowerIdempotent(s: string)
    ensures Lower(Lower(s)) == Lower(s)
  {
    if s != [] {
      LowerIdempotent(s[1..]);
      assert Lower(s)[1..] == Lower(s[1..]);
    }
  }

  lemma {:induction false} LowerConcat(a: string, b: string)
    ensures Lower(a + b) == Lower(a) + Lower(b)
  {
    if a != [] {
      assert (a + b)[1..] == a[1..] + b;
      LowerConcat(a[1..], b);
    }
  }

  // ---------------------------------------------------------------------------
  // Prefixes, suffixes and the `in` operator on strings
  // ---------------------------------------------------------------------------

  predicate StartsWith(s: string, p: string) { |p| <= |s| && s[..|p|] == p }

  predicate EndsWith(s: string, p: string) { |p| <= |s| && s[|s| - |p|..] == p }

  /** `p in s`: `p` occurs in `s` at some position (the empty string occurs everywhere). */
  predicate Contains(s: string, p: string)
    decreases |s|
  {
    StartsWith(s, p) || (|s| > 0 && Contains(s[1..], p))
  }

  /** `p` occurs in `s` starting at position `i`. */
  predicate OccursAt(s: string, p: string, i: nat) {
    i + |p| <= |s| && s[i..i + |p|] == p
  }

  /** `Contains` agrees with the positional definition of a substring. */
  lemma {:induction false} ContainsIffOccurs(s: string, p: string)
    ensures Contains(s, p) <==> exists i: nat :: OccursAt(s, p, i)
    decreases |s|
  {
    if |s| > 0 {
      ContainsIffOccurs(s[1..], p);
    }
    if Contains(s, p) {
      if StartsWith(s, p) {
        assert OccursAt(s, p, 0);
      } else {
        var i: nat :| OccursAt(s[1..], p, i);
        assert s[1..][i..i + |p|] == s[i + 1..i + 1 + |p|];
        assert OccursAt(s, p, i + 1);
      }
    }
    if exists i: nat :: OccursAt(s, p, i) {
      var i: nat :| OccursAt(s, p, i);
      if i > 0 {
        assert s[1..][i - 1..i - 1 + |p|] == s[i..i + |p|];
        assert OccursAt(s[1..], p, i - 1);
      } else {
        assert s[..|p|] == s[i..i + |p|];
      }
    }
  }

  /** A string occurs in any string built around it. */
  lemma ContainsInfix(a: string, p: string, b: string)
    ensures Contains(a + p + b, p)
  {
    assert OccursAt(a + p + b, p, |a|);
    ContainsIffOccurs(a + p + b, p);
  }

  /** An occurrence survives any extension of the string on either side. */
  lemma ContainsExtend(a: string, s: string, b: string, p: string)
    requires Contains(s, p)
    ensures Contains(a + s + b, p)
  {
    ContainsIffOccurs(s, p);
    var i: nat :| OccursAt(s, p, i);
    assert (a + s + b)[|a| + i..|a| + i + |p|] == s[i..i + |p|];
    assert OccursAt(a + s + b, p, |a| + i);
    ContainsIffOccurs(a + s + b, p);
  }

  /** Containment is transitive: what occurs in an infix of `s` occurs in `s`. */
  lemma ContainsTransitive(s: string, m: string, p: string)
    requires Contains(s, m) && Contains(m, p)
    ensures Contains(s, p)
  {
    ContainsIffOccurs(s, m);
    var i: nat :| OccursAt(s, m, i);
    assert s == s[..i] + m + s[i + |m|..];
    ContainsExtend(s[..i], m, s[i + |m|..], p);
  }

  /** An occurrence survives appending to the string. */
  lemma ContainsAppend(s: string, b: string, p: string)
    requires Contains(s, p)
    ensures Contains(s + b, p)
  {
    ContainsIffOccurs(s, p);
    var i: nat :| OccursAt(s, p, i);
    assert (s + b)[i..i + |p|] == s[i..i + |p|];
    assert OccursAt(s + b, p, i);
    ContainsIffOccurs(s + b, p);
  }

  /** A pattern longer than the string does not occur in it. */
  lemma {:induction false} NotContainsLonger(s: string, p: string)
    requires |p| > |s|
    ensures !Contains(s, p)
  {
    if |s| > 0 {
      NotContainsLonger(s[1..], p);
    }
  }

  /** A pattern whose first character is absent from the string does not occur in it. */
  lemma {:induction false} NotContainsFirstChar(s: string, p: string)
    requires |p| > 0 && p[0] !in s
    ensures !Contains(s, p)
  {
    if |s| > 0 {
      assert s[0] != p[0];
      NotContainsFirstChar(s[1..], p);
    }
  }

  // ---------------------------------------------------------------------------
  // strip, lstrip, rstrip
  // ---------------------------------------------------------------------------

  /** `str.isspace()` of one character: Python's whitespace characters. */
  predicate IsSpace(c: char) {
    var n := c as int;
    n == 0x20 || 0x09 <= n <= 0x0D || 0x1C <= n <= 0x1F || n == 0x85 || n == 0xA0 ||
    n == 0x1680 || 0x2000 <= n <= 0x200A || n == 0x2028 || n == 0x2029 ||
    n == 0x202F || n == 0x205F || n == 0x3000
  }

  /**
   * The whitespace `int()` skips around its digits: the ASCII characters " \t\n\v\f\r" and
   * the non-ASCII `isspace()` characters, but not the ASCII separators U+001C to U+001F.
   */
  predicate IsIntSpace(c: char) {
    IsSpace(c) && !(0x1C <= c as int <= 0x1F)
  }

  /**
   * The character sets the backend strips with: `strip()`, `rstrip("`")` and `lstrip("0")`,
   * and the whitespace `int()` skips.
   */
  datatype CharSet = Whitespace | Backtick | Zero | IntSpace

  predicate In(c: char, cs: CharSet) {
    match cs
    case Whitespace => IsSpace(c)
    case IntSpace => IsIntSpace(c)
    case Backtick => c == '`'
    case Zero => c == '0'
  }

  /** `s.lstrip(chars)`: drop the longest prefix of characters from `cs`. */
  function LStrip(s: string, cs: CharSet): (r: string)
    ensures |r| <= |s| && r == s[|s| - |r|..]
    ensures forall i :: 0 <= i < |s| - |r| ==> In(s[i], cs)
    ensures r == [] || !In(r[0], cs)
    decreases |s|
  {
    if s != [] && In(s[0], cs) then LStrip(s[1..], cs) else s
  }

  /** `s.rstrip(chars)`: drop the longest suffix of characters from `cs`. */
  function RStrip(s: string, cs: CharSet): (r: string)
    ensures |r| <= |s| && r == s[..|r|]
    ensures forall i :: |r| <= i < |s| ==> In(s[i], cs)
    ensures r == [] || !In(r[|r| - 1], cs)
    decreases |s|
  {
    if s != [] && In(s[|s| - 1], cs) then RStrip(s[..|s| - 1], cs) else s
  }

  /** `s.strip()` with no argument. */
  /** Neither end of `s` is whitespace. */
  predicate Trimmed(s: string) {
    s == [] || (!IsSpace(s[0]) && !IsSpace(s[|s| - 1]))
  }

  function Strip(s: string): (r: string)
    ensures |r| <= |s|
    ensures Trimmed(r)
  {
    var l := LStrip(s, Whitespace);
    var r := RStrip(l, Whitespace);
    assert r != [] ==> r[0] == l[0];
    r
  }

  /** A string that neither starts nor ends with whitespace is unchanged by `strip()`. */
  lemma StripOfStripped(s: string)
    requires s == [] || (!IsSpace(s[0]) && !IsSpace(s[|s| - 1]))
    ensures Strip(s) == s
  {
    assert LStrip(s, Whitespace) == s;
    assert RStrip(s, Whitespace) == s;
  }

  /** Stripping drops a dropped-only suffix and keeps what is before it. */
  lemma {:induction false} RStripDroppedSuffix(a: string, b: string, cs: CharSet)
    requires a == [] || !In(a[|a| - 1], cs)
    requires forall i :: 0 <= i < |b| ==> In(b[i], cs)
    ensures RStrip(a + b, cs) == a
    decreases |b|
  {
    if b != [] {
      assert (a + b)[..|a + b| - 1] == a + b[..|b| - 1];
      RStripDroppedSuffix(a, b[..|b| - 1], cs);
    } else {
      assert a + b == a;
    }
  }

  /** Stripping drops a dropped-only prefix and keeps what follows it. */
  lemma {:induction false} LStripDroppedPrefix(a: string, b: string, cs: CharSet)
    requires forall i :: 0 <= i < |a| ==> In(a[i], cs)
    requires b == [] || !In(b[0], cs)
    ensures LStrip(a + b, cs) == b
  {
    if a != [] {
      assert (a + b)[1..] == a[1..] + b;
      LStripDroppedPrefix(a[1..], b, cs);
    } else {
      assert a + b == b;
    }
  }

  // ---------------------------------------------------------------------------
  // s.replace(p, "")
  // ---------------------------------------------------------------------------

  /** `s.replace(p, "")`: remove every non-overlapping occurrence of `p`, scanning from the left. */
  function RemoveAll(s: string, p: string): (r: string)
    requires |p| > 0
    ensures |r| <= |s|
    decreases |s|
  {
    if |s| < |p| then s
    else if s[..|p|] == p then RemoveAll(s[|p|..], p)
    else [s[0]] + RemoveAll(s[1..], p)
  }

  /** Removing a pattern that cannot start anywhere in `s` leaves `s` as it is. */
  lemma {:induction false} RemoveAllAbsent(s: string, p: string)
    requires |p| > 0 && p[0] !in s
    ensures RemoveAll(s, p) == s
  {
    if |s| >= |p| {
      assert s[..|p|][0] == s[0] != p[0];
      RemoveAllAbsent(s[1..], p);
    }
  }

  /** Removing `p` from `d + p`, where `p` cannot start inside `d`, gives `d`. */
  lemma {:induction false} RemoveAllTrailing(d: string, p: string)
    requires |p| > 0 && p[0] !in d && p[0] !in p[1..]
    ensures RemoveAll(d + p, p) == d
  {
    if d == [] {
      assert (d + p)[..|p|] == p;
      assert (d + p)[|p|..] == [];
    } else {
      assert (d + p)[..|p|][0] == d[0] != p[0];
      assert (d + p)[1..] == d[1..] + p;
      RemoveAllTrailing(d[1..], p);
    }
  }

  /** A leading occurrence of `p` is removed and the scan continues after it. */
  lemma RemoveAllLeading(p: string, s: string)
    requires |p| > 0
    ensures RemoveAll(p + s, p) == RemoveAll(s, p)
  {
    assert (p + s)[..|p|] == p;
    assert (p + s)[|p|..] == s;
  }

  // ---------------------------------------------------------------------------
  // s.split(" ") and sep.join(parts)
  // ---------------------------------------------------------------------------

  /** `s.split(sep)` with an explicit one-character separator: empty pieces are kept. */
  function Split(s: string, sep: char): (r: seq<string>)
    ensures |r| >= 1
    ensures forall i :: 0 <= i < |r| ==> sep !in r[i]
  {
    if s == [] then [[]]
    else
      var rest := Split(s[1..], sep);
      if s[0] == sep then [[]] + rest else [[s[0]] + rest[0]] + rest[1..]
  }

  /** `sep.join(parts)`. */
  function Join(parts: seq<string>, sep: string): string {
    if |parts| == 0 then []
    else if |parts| == 1 then parts[0]
    else parts[0] + sep + Join(parts[1..], sep)
  }

  /** Joining the pieces of a split with the separator gives back the original string. */
  lemma {:induction false} JoinSplit(s: string, sep: char)
    ensures Join(Split(s, sep), [sep]) == s
  {
    if s != [] {
      var rest := Split(s[1..], sep);
      JoinSplit(s[1..], sep);
      if s[0] == sep {
        assert s == [sep] + s[1..];
      } else if |rest| == 1 {
        assert s == [s[0]] + s[1..];
      } else {
        assert ([[s[0]] + rest[0]] + rest[1..])[1..] == rest[1..];
        assert s == [s[0]] + s[1..];
      }
    }
  }

  /** Splitting the join of separator-free pieces gives back the pieces. */
  lemma {:induction false} SplitJoin(parts: seq<string>, sep: char)
    requires |parts| >= 1
    requires forall i :: 0 <= i < |parts| ==> sep !in parts[i]
    ensures Split(Join(parts, [sep]), sep) == parts
    decreases |parts|, |parts[0]|
  {
    if parts[0] == [] {
      if |parts| > 1 {
        assert Join(parts, [sep]) == [sep] + Join(parts[1..], [sep]);
        SplitJoin(parts[1..], sep);
        assert parts == [[]] + parts[1..];
      }
    } else {
      var w := parts[0];
      var parts' := [w[1..]] + parts[1..];
      forall i | 0 <= i < |parts'| ensures sep !in parts'[i] {
        if i == 0 {
          assert forall c :: c in w[1..] ==> c in w;
        }
      }
      SplitJoin(parts', sep);
      assert parts'[1..] == parts[1..];
      var j := Join(parts, [sep]);
      if |parts| == 1 {
        assert j == w && j[1..] == Join(parts', [sep]);
      } else {
        assert j == w + [sep] + Join(parts[1..], [sep]);
        assert j[1..] == Join(parts', [sep]);
      }
      assert j[0] == w[0] != sep;
      assert [w[0]] + w[1..] == w;
      assert [[w[0]] + w[1..]] + parts[1..] == parts;
    }
  }

  /** Each part occurs in the joined string. */
  lemma {:induction false} JoinContainsPart(parts: seq<string>, sep: string, i: nat)
    requires i < |parts|
    ensures Contains(Join(parts, sep), parts[i])
  {
    if |parts| == 1 {
      ContainsInfix([], parts[0], []);
      assert [] + parts[0] + [] == parts[0];
    } else if i == 0 {
      ContainsInfix([], parts[0], sep + Join(parts[1..], sep));
      assert [] + parts[0] + (sep + Join(parts[1..], sep)) == Join(parts, sep);
    } else {
      JoinContainsPart(parts[1..], sep, i - 1);
      ContainsExtend(parts[0] + sep, Join(parts[1..], sep), [], parts[i]);
      assert parts[0] + sep + Join(parts[1..], sep) + [] == Join(parts, sep);
    }
  }

  /** The concatenation of a sequence of strings, `"".join(parts)`. */
  function Concat(parts: seq<string>): string {
    if parts == [] then [] else parts[0] + Concat(parts[1..])
  }

  // ---------------------------------------------------------------------------
  // str(int) and int(str), base 10
  // ---------------------------------------------------------------------------

  predicate IsDigit(c: char) { '0' <= c <= '9' }

  predicate AllDigits(s: string) { forall i :: 0 <= i < |s| ==> IsDigit(s[i]) }

  function DigitChar(d: nat): (c: char)
    requires d < 10
    ensures IsDigit(c) && c as int - '0' as int == d
  {
    ('0' as int + d) as char
  }

  /** The value of a string of decimal digits (0 for the empty string). */
  function DigitsValue(d: string): nat
    requires AllDigits(d)
  {
    if d == [] then 0 else 10 * DigitsValue(d[..|d| - 1]) + (d[|d| - 1] as int - '0' as int)
  }

  /** `str(n)` for a non-negative integer: decimal, no leading zeros. */
  function NatToString(n: nat): (r: string)
    ensures |r| >= 1 && AllDigits(r)
    ensures r[0] == '0' <==> n == 0
    ensures n == 0 ==> r == "0"
  {
    if n < 10 then [DigitChar(n)] else NatToString(n / 10) + [DigitChar(n % 10)]
  }

  /** `str(i)` for any integer. */
  function IntToString(i: int): (r: string)
    ensures |r| >= 1
    ensures r[0] == '-' <==> i < 0
  {
    if i < 0 then "-" + NatToString(-i) else NatToString(i)
  }

  /** Reading back the decimal form of a number gives the number. */
  lemma {:induction false} DigitsValueOfNatToString(n: nat)
    ensures DigitsValue(NatToString(n)) == n
  {
    if n >= 10 {
      var r := NatToString(n);
      assert r[..|r| - 1] == NatToString(n / 10);
      DigitsValueOfNatToString(n / 10);
    }
  }

  /** Different numbers have different decimal forms. */
  lemma NatToStringInjective(m: nat, n: nat)
    requires NatToString(m) == NatToString(n)
    ensures m == n
  {
    DigitsValueOfNatToString(m);
    DigitsValueOfNatToString(n);
  }

  /** Leading zeros do not change the value of a digit string. */
  lemma {:induction false} DigitsValueLeadingZeros(z: string, d: string)
    requires forall i :: 0 <= i < |z| ==> z[i] == '0'
    requires AllDigits(d)
    ensures AllDigits(z + d) && DigitsValue(z + d) == DigitsValue(d)
  {
    assert AllDigits(z + d);
    if d == [] {
      assert z + d == z;
      AllZerosValue(z);
    } else {
      var d' := d[..|d| - 1];
      assert (z + d)[..|z + d| - 1] == z + d';
      DigitsValueLeadingZeros(z, d');
    }
  }

  lemma {:induction false} AllZerosValue(z: string)
    requires forall i :: 0 <= i < |z| ==> z[i] == '0'
    ensures AllDigits(z) && DigitsValue(z) == 0
  {
    if z != [] {
      AllZerosValue(z[..|z| - 1]);
    }
  }

  /** The characters `int()` accepts between the sign and the end: digits, single underscores. */
  predicate IsDigitGroup(b: string) {
    && |b| > 0
    && IsDigit(b[0]) && IsDigit(b[|b| - 1])
    && (forall i :: 0 <= i < |b| ==> IsDigit(b[i]) || b[i] == '_')
    && (forall i :: 0 <= i < |b| - 1 ==> b[i] == '_' ==> b[i + 1] != '_')
  }

  function DropUnderscores(s: string): (r: string)
    ensures (forall i :: 0 <= i < |s| ==> IsDigit(s[i]) || s[i] == '_') ==> AllDigits(r)
    ensures AllDigits(s) ==> r == s
  {
    if s == [] then []
    else if s[0] == '_' then DropUnderscores(s[1..])
    else [s[0]] + DropUnderscores(s[1..])
  }

  /** The ValueError `int()` raises on a string it rejects. */
  datatype IntError = InvalidLiteral(text: string)

  /** The sign `int()` accepts in front of the digits, if there is one, and what follows it. */
  function SplitSign(t: string): (r: (bool, string))
    ensures |r.1| <= |t|
  {
    if |t| > 0 && t[0] == '-' then (true, t[1..])
    else if |t| > 0 && t[0] == '+' then (false, t[1..])
    else (false, t)
  }

  /** `int(t)` of an already stripped string. */
  function ParseStripped(t: string, original: string): Result<int, IntError> {
    var (negative, body) := SplitSign(t);
    if IsDigitGroup(body) then
      var v: int := DigitsValue(DropUnderscores(body));
      Ok(if negative then -v else v)
    else Err(InvalidLiteral(original))
  }

  /** The whitespace `int()` skips, removed from both ends. */
  function IntStrip(s: string): string {
    RStrip(LStrip(s, IntSpace), IntSpace)
  }

  /**
   * `int(s)` with base 10: surrounding whitespace is ignored, one optional sign,
   * then decimal digits with single underscores between them; anything else is an error.
   */
  function ParseInt(s: string): (r: Result<int, IntError>)
    ensures r.Err? ==> r.error == InvalidLiteral(s)
  {
    ParseStripped(IntStrip(s), s)
  }

  /** A string of digits and signs has no whitespace for `int()` to skip. */
  lemma IntStripOfSigned(t: string)
    requires forall i :: 0 <= i < |t| ==> IsDigit(t[i]) || t[i] == '-'
    ensures IntStrip(t) == t
  {
    assert t == [] || !In(t[0], IntSpace);
    assert LStrip(t, IntSpace) == t;
    assert t == [] || !In(t[|t| - 1], IntSpace);
  }

  /** A non-empty digit string is a digit group with no underscores to drop. */
  lemma DigitsAreDigitGroup(d: string)
    requires |d| > 0 && AllDigits(d)
    ensures IsDigitGroup(d) && DropUnderscores(d) == d
  {
  }

  /** What follows a leading minus sign is the body `int()` reads. */
  lemma SplitSignMinus(d: string)
    ensures SplitSign("-" + d) == (true, d)
  {
    assert ("-" + d)[1..] == d;
  }

  /** A sign followed by a non-empty digit string is read as the signed value of the digits. */
  lemma ParseStrippedSigned(t: string, d: string, negative: bool, original: string)
    requires |d| > 0 && AllDigits(d) && SplitSign(t) == (negative, d)
    ensures ParseStripped(t, original)
         == Ok(if negative then 0 - DigitsValue(d) as int else DigitsValue(d) as int)
  {
    DigitsAreDigitGroup(d);
    assert SplitSign(t).1 == d;
    assert DigitsValue(DropUnderscores(d)) == DigitsValue(d);
  }

  /** A stripped signless digit string is read as its value. */
  lemma ParseStrippedDigits(d: string, original: string)
    requires |d| > 0 && AllDigits(d)
    ensures ParseStripped(d, original) == Ok(DigitsValue(d) as int)
  {
    assert IsDigit(d[0]);
    ParseStrippedSigned(d, d, false, original);
  }

  /** A stripped digit string after a minus sign is read as the negated value. */
  lemma ParseStrippedNegDigits(d: string, original: string)
    requires |d| > 0 && AllDigits(d)
    ensures ParseStripped("-" + d, original) == Ok(0 - DigitsValue(d) as int)
  {
    SplitSignMinus(d);
    ParseStrippedSigned("-" + d, d, true, original);
  }

  /** A plain non-empty digit string parses to its value. */
  lemma ParseIntDigits(d: string)
    requires |d| > 0 && AllDigits(d)
    ensures ParseInt(d) == Ok(DigitsValue(d) as int)
  {
    IntStripOfSigned(d);
    ParseStrippedDigits(d, d);
  }

  /** A minus sign in front of a non-empty digit string negates its value. */
  lemma ParseIntNegDigits(d: string)
    requires |d| > 0 && AllDigits(d)
    ensures ParseInt("-" + d) == Ok(0 - DigitsValue(d) as int)
  {
    assert forall i :: 1 <= i < |"-" + d| ==> ("-" + d)[i] == d[i - 1];
    IntStripOfSigned("-" + d);
    ParseStrippedNegDigits(d, "-" + d);
  }

  /** Reading back the decimal form of a number, with or without a minus sign. */
  lemma ParseIntOfNatToString(n: nat)
    ensures ParseInt(NatToString(n)) == Ok(n as int)
    ensures ParseInt("-" + NatToString(n)) == Ok(0 - n)
  {
    ParseIntDigits(NatToString(n));
    ParseIntNegDigits(NatToString(n));
    DigitsValueOfNatToString(n);
  }

  /** `int(str(i)) == i`. */
  lemma ParseIntOfIntToString(i: int)
    ensures ParseInt(IntToString(i)) == Ok(i)
  {
    var n: nat := if i < 0 then -i else i;
    ParseIntOfNatToString(n);
  }

  /** A string holding a character that `int()` never accepts is rejected. */
  lemma ParseIntRejects(s: string, k: nat)
    requires k < |s|
    requires !IsIntSpace(s[k]) && !IsDigit(s[k]) && s[k] !in "+-_"
    ensures ParseInt(s).Err?
  {
    var l := LStrip(s, IntSpace);
    var a := |s| - |l|;
    assert !In(s[k], IntSpace);
    assert k >= a;
    var t := RStrip(l, IntSpace);
    assert l[k - a] == s[k];
    assert k - a < |t|;
    assert t[k - a] == s[k];
    var body := SplitSign(t).1;
    var j := if body == t then k - a else k - a - 1;
    assert 0 <= j < |body| && body[j] == s[k];
    assert !IsDigitGroup(body);
  }

  /** `int()` does not skip the ASCII separators that `isspace()` accepts: `int("\x1c5")` raises. */
  lemma ParseIntKeepsSeparators()
    ensures IsSpace('\U{1C}')
    ensures ParseInt("\U{1C}5").Err?
  {
    ParseIntRejects("\U{1C}5", 0);
  }
}
