/**
 * The JavaScript string operations the views rely on: `trim`, `toLowerCase`,
 * `includes`, `Number.prototype.toString` on non-negative integers,
 * `padStart(2, '0')` and the `<` order on strings.
 */
module Text {

  /** ECMAScript WhiteSpace and LineTerminator code points: what `trim` removes. */
  const SpaceChars: set<char> := {
    ' ', '\t', '\n', '\r', '\U{000B}', '\U{000C}', '\U{00A0}', '\U{1680}',
    '\U{2000}', '\U{2001}', '\U{2002}', '\U{2003}', '\U{2004}', '\U{2005}',
    '\U{2006}', '\U{2007}', '\U{2008}', '\U{2009}', '\U{200A}',
    '\U{2028}', '\U{2029}', '\U{202F}', '\U{205F}', '\U{3000}', '\U{FEFF}'
  }

  predicate IsSpace(c: char) {
    c in SpaceChars
  }

  /** Empty or whitespace only: the strings whose `trim()` is falsy. */
  predicate IsBlank(s: string) {
    forall i :: 0 <= i < |s| ==> IsSpace(s[i])
  }

  function TrimStart(s: string): (r: string)
    ensures |r| <= |s| && r == s[|s| - |r|..]
    ensures r == [] || !IsSpace(r[0])
    ensures forall i :: 0 <= i < |s| - |r| ==> IsSpace(s[i])
  {
    if s != [] && IsSpace(s[0]) then TrimStart(s[1..]) else s
  }

  function TrimEnd(s: string): (r: string)
    ensures |r| <= |s| && r == s[..|r|]
    ensures r == [] || !IsSpace(r[|r| - 1])
    ensures forall i :: |r| <= i < |s| ==> IsSpace(s[i])
  {
    if s != [] && IsSpace(s[|s| - 1]) then TrimEnd(s[..|s| - 1]) else s
  }

  /** `s.trim()`: `s` without its leading and trailing whitespace. */
  function Trim(s: string): (r: string)
    ensures IsTrimOf(s, r)
  {
    TrimFacts(s);
    TrimEnd(TrimStart(s))
  }

  /**
   * What `trim` promises: `r` is empty exactly when `s` is blank, neither
   * starts nor ends with whitespace, and sits in `s` between two blank runs.
   */
  ghost predicate IsTrimOf(s: string, r: string) {
    && (r == [] <==> IsBlank(s))
    && (r != [] ==> !IsSpace(r[0]) && !IsSpace(r[|r| - 1]))
    && exists a :: TrimmedAt(s, r, a)
  }

  /** `r` sits in `s` at offset `a`, with only whitespace before and after it. */
  ghost predicate TrimmedAt(s: string, r: string, a: int) {
    0 <= a <= |s| - |r| && r == s[a..a + |r|] && IsBlank(s[..a]) && IsBlank(s[a + |r|..])
  }

  lemma TrimFacts(s: string)
    ensures IsTrimOf(s, TrimEnd(TrimStart(s)))
  {
    TrimPlacement(s);
    var t := TrimStart(s);
    var r := TrimEnd(t);
    var a := |s| - |t|;
    if r == [] {
      assert t == [];
      assert s[..a] == s;
    } else {
      assert r[0] == t[0] == s[a];
    }
    assert TrimmedAt(s, r, a);
  }

  /** The description pins the result down: at most one string is the trim of `s`. */
  lemma TrimUnique(s: string, r1: string, r2: string)
    requires IsTrimOf(s, r1) && IsTrimOf(s, r2)
    ensures r1 == r2
  {
    if r1 != [] {
      var a1 :| TrimmedAt(s, r1, a1);
      var a2 :| TrimmedAt(s, r2, a2);
      TrimOffsets(s, r1, a1, r2, a2);
      TrimOffsets(s, r2, a2, r1, a1);
    }
  }

  lemma TrimOffsets(s: string, r1: string, a1: int, r2: string, a2: int)
    requires r1 != [] && r2 != [] && !IsSpace(r1[0]) && !IsSpace(r1[|r1| - 1])
    requires TrimmedAt(s, r1, a1) && TrimmedAt(s, r2, a2)
    ensures a2 <= a1 && a1 + |r1| <= a2 + |r2|
  {
  }

  lemma TrimPlacement(s: string)
    ensures TrimmedAt(s, TrimEnd(TrimStart(s)), |s| - |TrimStart(s)|)
  {
    var t := TrimStart(s);
    var r := TrimEnd(t);
    var a := |s| - |t|;
    TrimStartBlank(s);
    TrimEndBlank(t);
    Placement(s, t, r);
  }

  /** A prefix `r` of a suffix `t` of `s`, each cut off only whitespace, sits in `s` between blank runs. */
  lemma Placement(s: string, t: string, r: string)
    requires |t| <= |s| && t == s[|s| - |t|..] && IsBlank(s[..|s| - |t|])
    requires |r| <= |t| && r == t[..|r|] && IsBlank(t[|r|..])
    ensures TrimmedAt(s, r, |s| - |t|)
  {
    var a := |s| - |t|;
    assert s[a..][..|r|] == s[a..a + |r|];
    assert s[a..][|r|..] == s[a + |r|..];
  }

  lemma TrimStartBlank(s: string)
    ensures IsBlank(s[..|s| - |TrimStart(s)|])
  {
    var before := s[..|s| - |TrimStart(s)|];
    forall i | 0 <= i < |before| ensures IsSpace(before[i]) {
      assert before[i] == s[i];
    }
  }

  lemma TrimEndBlank(t: string)
    ensures IsBlank(t[|TrimEnd(t)|..])
  {
    var after := t[|TrimEnd(t)|..];
    forall k | 0 <= k < |after| ensures IsSpace(after[k]) {
      assert after[k] == t[|TrimEnd(t)| + k];
    }
  }

  /** Trimming twice is trimming once. */
  lemma TrimIdempotent(s: string)
    ensures Trim(Trim(s)) == Trim(s)
  {
    var t := Trim(s);
    assert TrimStart(t) == t;
    assert TrimEnd(t) == t;
  }

  /** `toLowerCase` on one code point: ASCII and Latin-1 capitals, every other code point unchanged. */
  function LowerChar(c: char): (r: char)
    ensures IsUpper(c) ==> r as int == c as int + 32 && !IsUpper(r)
    ensures !IsUpper(c) ==> r == c
  {
    if IsUpper(c) then (c as int + 32) as char else c
  }

  predicate IsUpper(c: char) {
    ('A' <= c <= 'Z') || ('\U{00C0}' <= c <= '\U{00DE}' && c != '\U{00D7}')
  }

  function ToLower(s: string): (r: string)
    ensures |r| == |s|
    ensures forall i :: 0 <= i < |s| ==> r[i] == LowerChar(s[i])
  {
    seq(|s|, i requires 0 <= i < |s| => LowerChar(s[i]))
  }

  /** `s.includes(q)`: `q` occurs in `s` as a contiguous infix (the empty string always does). */
  predicate Contains(s: string, q: string) {
    exists i | 0 <= i <= |s| - |q| :: OccursAt(s, q, i)
  }

  predicate OccursAt(s: string, q: string, i: int) {
    0 <= i && i + |q| <= |s| && s[i..i + |q|] == q
  }

  // ---- decimal numbers ----

  predicate IsDigit(c: char) { '0' <= c <= '9' }

  predicate AllDigits(s: string) { forall i :: 0 <= i < |s| ==> IsDigit(s[i]) }

  function DigitChar(d: nat): (c: char)
    requires d < 10
    ensures IsDigit(c)
  {
    ('0' as int + d) as char
  }

  /** The value of a string of decimal digits (the empty string has value 0). */
  function DigitsValue(s: string): nat
    requires AllDigits(s)
  {
    if s == [] then 0 else 10 * DigitsValue(s[..|s| - 1]) + (s[|s| - 1] as int - '0' as int)
  }

  /** `n.toString()` for a non-negative integer: decimal digits without leading zeros. */
  function Decimal(n: nat): (r: string)
    ensures |r| >= 1 && AllDigits(r)
    ensures DigitsValue(r) == n
    ensures |r| > 1 ==> r[0] != '0'
    ensures n < 10 <==> |r| == 1
  {
    if n < 10 then [DigitChar(n)]
    else
      var r := Decimal(n / 10) + [DigitChar(n % 10)];
      assert r[..|r| - 1] == Decimal(n / 10);
      r
  }

  /** `s.padStart(2, '0')`. */
  function PadStart2(s: string): (r: string)
    ensures |r| == if |s| >= 2 then |s| else 2
    ensures r[|r| - |s|..] == s
    ensures forall i :: 0 <= i < |r| - |s| ==> r[i] == '0'
  {
    if |s| >= 2 then s else if |s| == 1 then ['0'] + s else "00"
  }

  /** A number below 100 printed and padded to two digits: its tens digit, then its units digit. */
  function TwoDigits(n: nat): (r: string)
    requires n < 100
    ensures |r| == 2 && AllDigits(r) && DigitsValue(r) == n
    ensures r == PadStart2(Decimal(n))
  {
    TwoDigitsFacts(n);
    [DigitChar(n / 10), DigitChar(n % 10)]
  }

  lemma TwoDigitsFacts(n: nat)
    requires n < 100
    ensures DigitsValue([DigitChar(n / 10), DigitChar(n % 10)]) == n
    ensures [DigitChar(n / 10), DigitChar(n % 10)] == PadStart2(Decimal(n))
  {
    var hi, lo := n / 10, n % 10;
    var r := [DigitChar(hi), DigitChar(lo)];
    assert r[..1] == [DigitChar(hi)];
    assert DigitsValue([DigitChar(hi)]) == hi by {
      assert [DigitChar(hi)][..0] == [];
    }
    assert DigitsValue(r) == 10 * hi + lo;
    if n >= 10 {
      assert Decimal(n) == Decimal(hi) + [DigitChar(lo)];
    }
  }

  // ---- the `<` order on strings ----

  /** JavaScript `a < b` on strings: lexicographic, a proper prefix first. */
  predicate LexLess(a: string, b: string) {
    if a == [] then b != []
    else if b == [] then false
    else if a[0] != b[0] then a[0] < b[0]
    else LexLess(a[1..], b[1..])
  }

  lemma {:induction false} LexLessIrreflexive(a: string)
    ensures !LexLess(a, a)
  {
    if a != [] { LexLessIrreflexive(a[1..]); }
  }

  lemma {:induction false} LexLessTransitive(a: string, b: string, c: string)
    requires LexLess(a, b) && LexLess(b, c)
    ensures LexLess(a, c)
  {
    if a != [] && b != [] && c != [] && a[0] == b[0] && b[0] == c[0] {
      LexLessTransitive(a[1..], b[1..], c[1..]);
    }
  }

  /** Any two different strings are ordered one way or the other. */
  lemma {:induction false} LexLessTotal(a: string, b: string)
    requires a != b
    ensures LexLess(a, b) || LexLess(b, a)
  {
    if a != [] && b != [] && a[0] == b[0] {
      assert a == [a[0]] + a[1..] && b == [b[0]] + b[1..];
      LexLessTotal(a[1..], b[1..]);
    }
  }

  lemma LexLessAsymmetric(a: string, b: string)
    requires LexLess(a, b)
    ensures !LexLess(b, a)
  {
    if LexLess(b, a) {
      LexLessTransitive(a, b, a);
      LexLessIrreflexive(a);
    }
  }

  /** "Not before" is transitive too: `a >= b` and `b >= c` give `a >= c`. */
  lemma LexNotLessTransitive(a: string, b: string, c: string)
    requires !LexLess(a, b) && !LexLess(b, c)
    ensures !LexLess(a, c)
  {
    if LexLess(a, c) {
      if a != b { LexLessTotal(a, b); }
      if b != c { LexLessTotal(b, c); }
      if a == b {
        assert false;
      } else if b == c {
        assert false;
      } else {
        LexLessTransitive(c, b, a);
        LexLessAsymmetric(a, c);
      }
    }
  }

  /** `parts.join(sep)`. */
  function Join(parts: seq<string>, sep: string): (r: string)
    ensures parts == [] ==> r == []
    ensures |parts| == 1 ==> r == parts[0]
  {
    if parts == [] then []
    else if |parts| == 1 then parts[0]
    else parts[0] + sep + Join(parts[1..], sep)
  }

  /** With two parts or more, the last part follows the join of the others after one separator. */
  lemma {:induction false} JoinSnoc(parts: seq<string>, sep: string)
    requires |parts| >= 2
    ensures Join(parts, sep) == Join(parts[..|parts| - 1], sep) + sep + parts[|parts| - 1]
  {
    var n := |parts|;
    var rest := parts[1..];
    if n > 2 {
      JoinSnoc(rest, sep);
      assert parts[..n - 1][1..] == rest[..|rest| - 1];
      assert rest[|rest| - 1] == parts[n - 1];
      var a, b := Join(rest[..|rest| - 1], sep), parts[n - 1];
      assert Join(parts, sep) == parts[0] + sep + (a + sep + b);
      assert Join(parts[..n - 1], sep) == parts[0] + sep + a;
    } else {
      assert parts[..n - 1] == [parts[0]];
    }
  }
}
