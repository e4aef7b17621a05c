/**
 * Strings as JavaScript sees them in this application: case mapping, trimming,
 * substring search, first-occurrence replacement, the ordering that stands
 * for the default one of `Array.prototype.sort`, and decimal digit strings.
 * Characters are Unicode scalar values, so that ordering is code-point order;
 * JavaScript compares UTF-16 code units, which differs only between
 * characters above U+FFFF and those from U+E000 to U+FFFF.
 */
module Text {

  // ---------------------------------------------------------------------------
  // Character classes
  // ---------------------------------------------------------------------------

  /** JavaScript's WhiteSpace and LineTerminator characters: what `trim`, the
      regular-expression class `\s` and `parseFloat` skip. */
  predicate IsSpace(c: char) {
    c == ' ' || c == '\t' || c == '\n' || c == '\r' || c == '\U{000B}' || c == '\U{000C}'
    || c == '\U{00A0}' || c == '\U{1680}' || ('\U{2000}' <= c <= '\U{200A}')
    || c == '\U{2028}' || c == '\U{2029}' || c == '\U{202F}' || c == '\U{205F}'
    || c == '\U{3000}' || c == '\U{FEFF}'
  }

  predicate IsDigit(c: char) {
    '0' <= c <= '9'
  }

  /** Upper-case letters of Basic Latin and Latin-1 that have a one-character
      lower-case partner 32 code points above (so 'Ã' and 'É' are covered). */
  predicate IsUpperLetter(c: char) {
    ('A' <= c <= 'Z') || ('\U{00C0}' <= c <= '\U{00DE}' && c != '\U{00D7}')
  }

  predicate IsLowerLetter(c: char) {
    ('a' <= c <= 'z') || ('\U{00E0}' <= c <= '\U{00FE}' && c != '\U{00F7}')
  }

  function LowerChar(c: char): char {
    if IsUpperLetter(c) then (c as int + 32) as char else c
  }

  function UpperChar(c: char): char {
    if IsLowerLetter(c) then (c as int - 32) as char else c
  }

  /** `String.prototype.toLowerCase`, restricted to the letters above. */
  function Lower(s: string): string {
    seq(|s|, i requires 0 <= i < |s| => LowerChar(s[i]))
  }

  /** `String.prototype.toUpperCase`, restricted to the letters above. */
  function Upper(s: string): string {
    seq(|s|, i requires 0 <= i < |s| => UpperChar(s[i]))
  }

  lemma CaseMappingKeepsSpaces(c: char)
    ensures IsSpace(LowerChar(c)) <==> IsSpace(c)
    ensures IsSpace(UpperChar(c)) <==> IsSpace(c)
  {
  }

  lemma UpperIdempotent(s: string)
    ensures Upper(Upper(s)) == Upper(s)
  {
  }

  lemma LowerIdempotent(s: string)
    ensures Lower(Lower(s)) == Lower(s)
  {
  }

  /** Lower-casing first does not change what upper-casing gives. */
  lemma UpperOfLower(s: string)
    ensures Upper(Lower(s)) == Upper(s)
  {
  }

  /** Upper-casing first does not change what lower-casing gives. */
  lemma LowerOfUpper(s: string)
    ensures Lower(Upper(s)) == Lower(s)
  {
  }

  // ---------------------------------------------------------------------------
  // Trimming
  // ---------------------------------------------------------------------------

  function TrimStart(s: string): string
  {
    if |s| > 0 && IsSpace(s[0]) then TrimStart(s[1..]) else s
  }

  function TrimEnd(s: string): string
  {
    if |s| > 0 && IsSpace(s[|s| - 1]) then TrimEnd(s[..|s| - 1]) else s
  }

  /** `String.prototype.trim`. */
  function Trim(s: string): string {
    TrimEnd(TrimStart(s))
  }

  predicate AllSpace(s: string) {
    forall i :: 0 <= i < |s| ==> IsSpace(s[i])
  }

  /** TrimStart drops exactly a leading run of white space. */
  lemma {:induction false} TrimStartShape(s: string)
    ensures exists k :: 0 <= k <= |s| && TrimStart(s) == s[k..] && (forall i :: 0 <= i < k ==> IsSpace(s[i]))
    ensures TrimStart(s) == [] || !IsSpace(TrimStart(s)[0])
  {
    if |s| > 0 && IsSpace(s[0]) {
      TrimStartShape(s[1..]);
      var k :| 0 <= k <= |s[1..]| && TrimStart(s[1..]) == s[1..][k..] && (forall i :: 0 <= i < k ==> IsSpace(s[1..][i]));
      assert TrimStart(s) == s[k + 1..];
      assert forall i :: 0 <= i < k + 1 ==> IsSpace(s[i]) by {
        forall i | 0 <= i < k + 1 ensures IsSpace(s[i]) {
          if i > 0 { assert s[i] == s[1..][i - 1]; }
        }
      }
    } else {
      assert TrimStart(s) == s[0..];
    }
  }

  /** TrimEnd drops exactly a trailing run of white space. */
  lemma {:induction false} TrimEndShape(s: string)
    ensures exists k :: 0 <= k <= |s| && TrimEnd(s) == s[..k] && (forall i :: k <= i < |s| ==> IsSpace(s[i]))
    ensures TrimEnd(s) == [] || !IsSpace(TrimEnd(s)[|TrimEnd(s)| - 1])
  {
    if |s| > 0 && IsSpace(s[|s| - 1]) {
      var t := s[..|s| - 1];
      TrimEndShape(t);
      var k :| 0 <= k <= |t| && TrimEnd(t) == t[..k] && (forall i :: k <= i < |t| ==> IsSpace(t[i]));
      assert TrimEnd(s) == s[..k];
    } else {
      assert TrimEnd(s) == s[..|s|];
    }
  }

  lemma {:induction false} TrimStartBlank(s: string)
    requires AllSpace(s)
    ensures TrimStart(s) == []
  {
    if |s| > 0 { TrimStartBlank(s[1..]); }
  }

  lemma {:induction false} TrimEndEmpty(s: string)
    requires TrimEnd(s) == []
    ensures AllSpace(s)
  {
    if |s| > 0 {
      TrimEndEmpty(s[..|s| - 1]);
      assert forall i :: 0 <= i < |s| - 1 ==> s[i] == s[..|s| - 1][i];
    }
  }

  lemma {:induction false} TrimStartAllSpace(s: string)
    requires AllSpace(TrimStart(s))
    ensures AllSpace(s)
  {
    if |s| > 0 && IsSpace(s[0]) {
      TrimStartAllSpace(s[1..]);
      assert forall i :: 1 <= i < |s| ==> s[i] == s[1..][i - 1];
    }
  }

  lemma TrimEmptyOnlyIfBlank(s: string)
    requires Trim(s) == []
    ensures AllSpace(s)
  {
    TrimEndEmpty(TrimStart(s));
    TrimStartAllSpace(s);
  }

  /** A string trims to nothing exactly when it is all white space. */
  lemma TrimEmptyIffBlank(s: string)
    ensures Trim(s) == [] <==> AllSpace(s)
  {
    if AllSpace(s) { TrimStartBlank(s); }
    if Trim(s) == [] { TrimEmptyOnlyIfBlank(s); }
  }

  /** Trimming and upper-casing commute: the normalised name of the model. */
  lemma {:induction false} UpperTrimStartCommute(s: string)
    ensures Upper(TrimStart(s)) == TrimStart(Upper(s))
  {
    if |s| > 0 {
      CaseMappingKeepsSpaces(s[0]);
      if IsSpace(s[0]) {
        assert Upper(s)[1..] == Upper(s[1..]);
        UpperTrimStartCommute(s[1..]);
      }
    }
  }

  lemma {:induction false} UpperTrimEndCommute(s: string)
    ensures Upper(TrimEnd(s)) == TrimEnd(Upper(s))
  {
    if |s| > 0 {
      CaseMappingKeepsSpaces(s[|s| - 1]);
      if IsSpace(s[|s| - 1]) {
        assert Upper(s)[..|s| - 1] == Upper(s[..|s| - 1]);
        UpperTrimEndCommute(s[..|s| - 1]);
      }
    }
  }

  lemma UpperTrimCommute(s: string)
    ensures Upper(Trim(s)) == Trim(Upper(s))
  {
    UpperTrimStartCommute(s);
    UpperTrimEndCommute(TrimStart(s));
  }

  lemma {:induction false} TrimStartIdempotent(s: string)
    ensures TrimStart(TrimStart(s)) == TrimStart(s)
  {
    if |s| > 0 && IsSpace(s[0]) { TrimStartIdempotent(s[1..]); }
  }

  lemma {:induction false} TrimEndIdempotent(s: string)
    ensures TrimEnd(TrimEnd(s)) == TrimEnd(s)
  {
    if |s| > 0 && IsSpace(s[|s| - 1]) { TrimEndIdempotent(s[..|s| - 1]); }
  }

  /** TrimEnd never exposes leading white space that TrimStart removed. */
  lemma {:induction false} TrimStartOfTrimEnd(s: string)
    requires s == [] || !IsSpace(s[0])
    ensures TrimStart(TrimEnd(s)) == TrimEnd(s)
  {
    if |s| > 0 && IsSpace(s[|s| - 1]) {
      TrimStartOfTrimEnd(s[..|s| - 1]);
    }
  }

  lemma TrimIdempotent(s: string)
    ensures Trim(Trim(s)) == Trim(s)
  {
    TrimStartShape(s);
    TrimStartOfTrimEnd(TrimStart(s));
    TrimEndIdempotent(TrimStart(s));
  }

  /** The key under which doctors, laboratories and imaging filters compare
      names: `name.toUpperCase().trim()` (equal to `trim().toUpperCase()`). */
  function NameKey(s: string): string {
    Trim(Upper(s))
  }

  lemma NameKeyIdempotent(s: string)
    ensures NameKey(NameKey(s)) == NameKey(s)
  {
    UpperTrimCommute(Upper(s));
    UpperIdempotent(s);
    TrimIdempotent(Upper(s));
  }

  // ---------------------------------------------------------------------------
  // Substrings and replacement
  // ---------------------------------------------------------------------------

  /** `s.includes(p)`. */
  predicate Contains(s: string, p: string)
    decreases |s|
  {
    |p| <= |s| && (s[..|p|] == p || Contains(s[1..], p))
  }

  predicate OccursAt(s: string, p: string, i: int) {
    0 <= i <= |s| - |p| && s[i..i + |p|] == p
  }

  /** Contains means an occurrence at some index. */
  lemma {:induction false} ContainsIff(s: string, p: string)
    ensures Contains(s, p) <==> exists i :: OccursAt(s, p, i)
  {
    if |p| <= |s| && s[..|p|] != p {
      ContainsIff(s[1..], p);
      if exists i :: OccursAt(s, p, i) {
        var i :| OccursAt(s, p, i);
        assert i > 0;
        assert OccursAt(s[1..], p, i - 1);
      }
      if Contains(s[1..], p) {
        var i :| OccursAt(s[1..], p, i);
        assert s[i + 1..i + 1 + |p|] == s[1..][i..i + |p|];
        assert OccursAt(s, p, i + 1);
      }
    } else if |p| <= |s| {
      assert OccursAt(s, p, 0);
    }
  }

  lemma ContainsAt(s: string, p: string, i: int)
    requires OccursAt(s, p, i)
    ensures Contains(s, p)
  {
    ContainsIff(s, p);
  }

  /** A pattern holding a character the text lacks does not occur in it. */
  lemma MissingCharNotContained(s: string, p: string, j: nat)
    requires j < |p| && p[j] !in s
    ensures !Contains(s, p)
  {
    forall i | 0 <= i <= |s| - |p| ensures !OccursAt(s, p, i) {
      assert s[i..i + |p|][j] == s[i + j];
    }
    ContainsIff(s, p);
  }

  /** `s.startsWith(p)`. */
  predicate StartsWith(s: string, p: string) {
    |p| <= |s| && s[..|p|] == p
  }

  /** Index of the first occurrence of c, or |s| when there is none. */
  function IndexOf(s: string, c: char): (k: nat)
    ensures k <= |s|
    ensures k < |s| ==> s[k] == c
    ensures forall j :: 0 <= j < k ==> s[j] != c
  {
    if s == [] then 0 else if s[0] == c then 0 else 1 + IndexOf(s[1..], c)
  }

  /** The first `c` of `p + [c] + q`, when `p` has none, is the one after `p`. */
  lemma {:induction false} IndexOfSplit(p: string, c: char, q: string)
    requires c !in p
    ensures IndexOf(p + [c] + q, c) == |p|
  {
    if p != [] {
      assert (p + [c] + q)[1..] == p[1..] + [c] + q;
      IndexOfSplit(p[1..], c, q);
    }
  }

  /** `s.replace(from, to)` with a one-character string pattern: only the
      first occurrence is replaced. */
  function ReplaceFirst(s: string, from: char, to: char): string
  {
    if s == [] then []
    else if s[0] == from then [to] + s[1..]
    else [s[0]] + ReplaceFirst(s[1..], from, to)
  }

  /** Exactly the first occurrence changes; every other character stays. */
  lemma {:induction false} ReplaceFirstSpec(s: string, from: char, to: char)
    ensures |ReplaceFirst(s, from, to)| == |s|
    ensures forall j :: 0 <= j < |s| && j != IndexOf(s, from) ==> ReplaceFirst(s, from, to)[j] == s[j]
    ensures IndexOf(s, from) < |s| ==> ReplaceFirst(s, from, to)[IndexOf(s, from)] == to
  {
    if s != [] && s[0] != from {
      ReplaceFirstSpec(s[1..], from, to);
      var r := ReplaceFirst(s, from, to);
      forall j | 0 <= j < |s| && j != IndexOf(s, from) ensures r[j] == s[j] {
        if j > 0 { assert r[j] == ReplaceFirst(s[1..], from, to)[j - 1]; }
      }
    }
  }

  /** Replacing in a + from + b, where a has no `from`, changes exactly
      the character between them; later occurrences in b stay. */
  lemma {:induction false} ReplaceFirstSplit(a: string, b: string, from: char, to: char)
    requires from !in a
    ensures ReplaceFirst(a + [from] + b, from, to) == a + [to] + b
  {
    if a != [] {
      assert from !in a[1..];
      ReplaceFirstSplit(a[1..], b, from, to);
      assert (a + [from] + b)[1..] == a[1..] + [from] + b;
    } else {
      assert a + [from] + b == [from] + b;
    }
  }

  lemma {:induction false} ReplaceFirstAbsent(s: string, from: char, to: char)
    requires from !in s
    ensures ReplaceFirst(s, from, to) == s
  {
    if s != [] {
      assert from !in s[1..];
      ReplaceFirstAbsent(s[1..], from, to);
    }
  }

  // ---------------------------------------------------------------------------
  // The default sort order of JavaScript strings
  // ---------------------------------------------------------------------------

  /** Lexicographic order on code points: the order of `Array.prototype.sort()`
      without a comparator (and the model's stand-in for `localeCompare`). */
  predicate StrLe(a: string, b: string)
    decreases |a|
  {
    |a| == 0 || (|b| > 0 && (a[0] < b[0] || (a[0] == b[0] && StrLe(a[1..], b[1..]))))
  }

  lemma {:induction false} StrLeRefl(a: string)
    ensures StrLe(a, a)
  {
    if |a| > 0 { StrLeRefl(a[1..]); }
  }

  lemma {:induction false} StrLeTotal(a: string, b: string)
    ensures StrLe(a, b) || StrLe(b, a)
  {
    if |a| > 0 && |b| > 0 && a[0] == b[0] { StrLeTotal(a[1..], b[1..]); }
  }

  lemma {:induction false} StrLeTrans(a: string, b: string, c: string)
    requires StrLe(a, b) && StrLe(b, c)
    ensures StrLe(a, c)
  {
    if |a| > 0 && a[0] == b[0] && b[0] == c[0] { StrLeTrans(a[1..], b[1..], c[1..]); }
  }

  lemma {:induction false} StrLeAntisym(a: string, b: string)
    requires StrLe(a, b) && StrLe(b, a)
    ensures a == b
  {
    if |a| > 0 {
      StrLeAntisym(a[1..], b[1..]);
      assert a == [a[0]] + a[1..];
      assert b == [b[0]] + b[1..];
    }
  }

  // ---------------------------------------------------------------------------
  // Decimal digit strings
  // ---------------------------------------------------------------------------

  function DigitChar(d: nat): char
    requires d < 10
  {
    ('0' as int + d) as char
  }

  function DigitOf(c: char): nat
    requires IsDigit(c)
  {
    c as int - '0' as int
  }

  predicate AllDigits(s: string) {
    forall i :: 0 <= i < |s| ==> IsDigit(s[i])
  }

  /** The value of a run of decimal digits (most significant first). */
  function DigitsValue(s: string): nat
    requires AllDigits(s)
  {
    if s == [] then 0 else DigitsValue(s[..|s| - 1]) * 10 + DigitOf(s[|s| - 1])
  }

  function Pow10(k: nat): (r: nat)
    ensures r >= 1
  {
    if k == 0 then 1 else 10 * Pow10(k - 1)
  }

  /** The canonical decimal rendering of a natural number (`String(n)`). */
  function NatStr(n: nat): (r: string)
    ensures |r| >= 1 && AllDigits(r)
    decreases n
  {
    if n < 10 then [DigitChar(n)] else NatStr(n / 10) + [DigitChar(n % 10)]
  }

  /** Reading back a rendered number gives the number. */
  lemma {:induction false} DigitsValueNatStr(n: nat)
    ensures DigitsValue(NatStr(n)) == n
    decreases n
  {
    if n >= 10 {
      var s := NatStr(n);
      assert s[..|s| - 1] == NatStr(n / 10);
      DigitsValueNatStr(n / 10);
    }
  }
}
