/**
 * The health-status classifier `getHealthStatus` and its `statusLabels`
 * (components/Exams.tsx). A result string is judged against a free-text
 * reference range: numeric results by three regular-expression patterns tried
 * in order (an interval, a lower bound, an upper bound), qualitative results by
 * substring tables. Numbers are exact `real`s, not the doubles JavaScript
 * rounds to, so a value exactly on a 20% margin can be judged differently;
 * `parseFloat` is a decimal-prefix parser and JavaScript's NaN is `None`
 * (every comparison with NaN is false).
 */
module ExamStatus {
  import opened Wrappers
  import opened Text

  datatype HealthStatus = Success | Warning | Danger | Neutral | Info

  /** `statusLabels`: the text shown (and exported) for each status. */
  function StatusLabel(s: HealthStatus): string {
    match s
    case Success => "Normal"
    case Warning => "Atenção"
    case Danger => "Crítico"
    case Neutral => "Indefinido"
    case Info => "Informativo"
  }

  lemma StatusLabelInjective(a: HealthStatus, b: HealthStatus)
    requires StatusLabel(a) == StatusLabel(b)
    ensures a == b
  {
  }

  // ---------------------------------------------------------------------------
  // Character runs: `\s*`, `\d*` and `[\d.]+` are greedy runs of one class
  // ---------------------------------------------------------------------------

  datatype CharClass = Space | Digit | DigitOrDot

  predicate InClass(c: char, cls: CharClass) {
    match cls
    case Space => IsSpace(c)
    case Digit => IsDigit(c)
    case DigitOrDot => IsDigit(c) || c == '.'
  }

  /** Length of the longest run of `cls` characters starting at i. */
  function Run(s: string, i: nat, cls: CharClass): (n: nat)
    requires i <= |s|
    ensures i + n <= |s|
    decreases |s| - i
  {
    if i < |s| && InClass(s[i], cls) then 1 + Run(s, i + 1, cls) else 0
  }

  /** The run consists of class characters and stops at a character outside
      the class or at the end. */
  lemma {:induction false} RunAllInClass(s: string, i: nat, cls: CharClass)
    requires i <= |s|
    ensures forall j :: i <= j < i + Run(s, i, cls) ==> InClass(s[j], cls)
    ensures i + Run(s, i, cls) == |s| || !InClass(s[i + Run(s, i, cls)], cls)
    decreases |s| - i
  {
    if i < |s| && InClass(s[i], cls) { RunAllInClass(s, i + 1, cls); }
  }

  /** The value of the digit run starting at i. */
  function DigitRunValue(s: string, i: nat): nat
    requires i <= |s|
  {
    DigitRunAllDigits(s, i);
    DigitsValue(s[i..i + Run(s, i, Digit)])
  }

  lemma DigitRunAllDigits(s: string, i: nat)
    requires i <= |s|
    ensures AllDigits(s[i..i + Run(s, i, Digit)])
  {
    RunAllInClass(s, i, Digit);
    var t := s[i..i + Run(s, i, Digit)];
    assert forall j :: 0 <= j < |t| ==> t[j] == s[i + j];
  }

  /** A run is exactly the stretch of class characters that ends at a
      non-class character or at the end of the string. */
  lemma {:induction false} RunIs(s: string, i: nat, cls: CharClass, k: nat)
    requires i + k <= |s|
    requires forall j :: i <= j < i + k ==> InClass(s[j], cls)
    requires i + k == |s| || !InClass(s[i + k], cls)
    ensures Run(s, i, cls) == k
    decreases k
  {
    if k > 0 { RunIs(s, i + 1, cls, k - 1); }
  }

  // ---------------------------------------------------------------------------
  // parseFloat
  // ---------------------------------------------------------------------------

  /** `parseFloat`: skip leading white space, read an optional sign, digits, and
      an optional '.' with digits; at least one digit is needed. The longest such
      prefix is converted and the rest ignored ("1.2.3" reads as 1.2). */
  function ParseFloat(s: string): Option<real>
  {
    var i := Run(s, 0, Space);
    var hasSign := i < |s| && (s[i] == '-' || s[i] == '+');
    Signed(hasSign && s[i] == '-', ParseUnsigned(s, if hasSign then i + 1 else i))
  }

  /** The number read after the sign, negated when the sign was '-'. */
  function Signed(negative: bool, m: Option<real>): Option<real> {
    if m.None? then None else Some(if negative then -m.value else m.value)
  }

  /** Digits, then an optional '.' with digits, from position j. */
  function ParseUnsigned(s: string, j: nat): Option<real>
    requires j <= |s|
  {
    var intLen := Run(s, j, Digit);
    var k := j + intLen;
    var fracLen := if k < |s| && s[k] == '.' then Run(s, k + 1, Digit) else 0;
    if intLen == 0 && fracLen == 0 then None
    else
      var frac := if fracLen == 0 then 0 else DigitRunValue(s, k + 1);
      Some(DecimalValue(DigitRunValue(s, j), frac, fracLen))
  }

  /** whole.frac, where frac has fracLen digits. */
  function DecimalValue(whole: nat, frac: nat, fracLen: nat): real {
    whole as real + frac as real / Pow10(fracLen) as real
  }

  /** A plain digit string reads back as its value. */
  lemma ParseFloatNatStr(n: nat)
    ensures ParseFloat(NatStr(n)) == Some(n as real)
  {
    var s := NatStr(n);
    RunIs(s, 0, Space, 0);
    RunIs(s, 0, Digit, |s|);
    ParseUnsignedNatStr(n);
  }

  lemma ParseUnsignedNatStr(n: nat)
    ensures ParseUnsigned(NatStr(n), 0) == Some(n as real)
  {
    var s := NatStr(n);
    RunIs(s, 0, Digit, |s|);
    assert s[0..|s|] == s;
    DigitsValueNatStr(n);
  }

  /** A run that reaches the end of p stops there in p + x when x starts
      outside the class. */
  lemma {:induction false} RunPrefix(p: string, x: string, i: nat, cls: CharClass)
    requires i <= |p| && x != [] && !InClass(x[0], cls)
    ensures Run(p + x, i, cls) == Run(p, i, cls)
    decreases |p| - i
  {
    if i < |p| {
      assert (p + x)[i] == p[i];
      RunPrefix(p, x, i + 1, cls);
    } else {
      assert (p + x)[i] == x[0];
    }
  }

  lemma DigitRunValuePrefix(p: string, x: string, i: nat)
    requires i <= |p| && x != [] && !IsDigit(x[0])
    ensures DigitRunValue(p + x, i) == DigitRunValue(p, i)
  {
    RunPrefix(p, x, i, Digit);
    var n := Run(p, i, Digit);
    assert (p + x)[i..i + n] == p[i..i + n];
  }

  /** Two texts on which every step of the unsigned reading sees the same
      thing are read alike. */
  lemma ParseUnsignedSameSteps(s: string, t: string, j: nat, k: nat)
    requires j <= |s| && j <= |t|
    requires Run(s, j, Digit) == Run(t, j, Digit) && DigitRunValue(s, j) == DigitRunValue(t, j)
    requires k == j + Run(s, j, Digit)
    requires (k < |s| && s[k] == '.') == (k < |t| && t[k] == '.')
    requires k < |s| && s[k] == '.' ==>
      (k + 1 <= |t| && Run(s, k + 1, Digit) == Run(t, k + 1, Digit)
       && DigitRunValue(s, k + 1) == DigitRunValue(t, k + 1))
    ensures ParseUnsigned(s, j) == ParseUnsigned(t, j)
  {
  }

  lemma ParseFloatSameSteps(s: string, t: string, i: nat, j: nat)
    requires i == Run(s, 0, Space) == Run(t, 0, Space)
    requires (i < |s| && (s[i] == '-' || s[i] == '+')) == (i < |t| && (t[i] == '-' || t[i] == '+'))
    requires i < |s| && (s[i] == '-' || s[i] == '+') ==> s[i] == t[i]
    requires j == (if i < |s| && (s[i] == '-' || s[i] == '+') then i + 1 else i)
    requires j <= |s| && j <= |t| && ParseUnsigned(s, j) == ParseUnsigned(t, j)
    ensures ParseFloat(s) == ParseFloat(t)
  {
  }

  /** `parseFloat` stops at a character that cannot continue a number, so
      whatever follows it is ignored. */
  lemma ParseFloatStopsAt(p: string, x: string)
    requires x != [] && !IsSpace(x[0]) && !IsDigit(x[0])
    requires x[0] != '-' && x[0] != '+' && x[0] != '.'
    ensures ParseFloat(p + x) == ParseFloat(p)
  {
    var s := p + x;
    RunPrefix(p, x, 0, Space);
    var i := Run(p, 0, Space);
    if i < |p| { assert s[i] == p[i]; } else { assert s[i] == x[0]; }
    var j := if i < |p| && (p[i] == '-' || p[i] == '+') then i + 1 else i;
    ParseUnsignedStopsAt(p, x, j);
    ParseFloatSameSteps(s, p, i, j);
  }

  /** The unsigned reading from j <= |p| stops at the same character. */
  lemma ParseUnsignedStopsAt(p: string, x: string, j: nat)
    requires j <= |p| && x != [] && !IsDigit(x[0]) && x[0] != '.'
    ensures ParseUnsigned(p + x, j) == ParseUnsigned(p, j)
  {
    var s := p + x;
    RunPrefix(p, x, j, Digit);
    DigitRunValuePrefix(p, x, j);
    var k := j + Run(p, j, Digit);
    if k < |p| { assert s[k] == p[k]; } else { assert s[k] == x[0]; }
    if k < |p| && p[k] == '.' {
      RunPrefix(p, x, k + 1, Digit);
      DigitRunValuePrefix(p, x, k + 1);
    }
    ParseUnsignedSameSteps(s, p, j, k);
  }

  /** Only the first comma of a result becomes a dot: "a,b,c" is read as
      "a.b" and the second comma ends the number. */
  lemma NumericValueFirstCommaOnly(a: string, b: string, c: string)
    requires ',' !in a && ',' !in b
    ensures NumericValue(a + "," + b + "," + c) == ParseFloat(a + "." + b)
  {
    ReplaceFirstSplit(a, b + "," + c, ',', '.');
    assert a + [','] + (b + "," + c) == a + "," + b + "," + c;
    assert a + ['.'] + (b + "," + c) == (a + "." + b) + ("," + c);
    ParseFloatStopsAt(a + "." + b, "," + c);
  }

  /** No digit before the first non-blank character that is not a sign or a
      dot means NaN. */
  lemma ParseFloatNeedsDigit(s: string)
    requires forall j :: 0 <= j < |s| ==> !IsDigit(s[j])
    ensures ParseFloat(s) == None
  {
    var i := Run(s, 0, Space);
    var j := if i < |s| && (s[i] == '-' || s[i] == '+') then i + 1 else i;
    RunIs(s, j, Digit, 0);
    var k := j;
    if k < |s| && s[k] == '.' { RunIs(s, k + 1, Digit, 0); }
  }

  // ---------------------------------------------------------------------------
  // The three patterns
  // ---------------------------------------------------------------------------

  /** Alternatives of `(?:-|a|até|—)`, in the order the regex tries them. */
  const IntervalSeparators: seq<string> := ["-", "a", "até", "—"]

  /** Alternatives of `(?:>|acima de|superior a)`. */
  const LowerBoundWords: seq<string> := [">", "acima de", "superior a"]

  /** Alternatives of `(?:<|abaixo de|inferior a|até)`. */
  const UpperBoundWords: seq<string> := ["<", "abaixo de", "inferior a", "até"]

  predicate LiteralAt(s: string, b: nat, w: string) {
    b + |w| <= |s| && s[b..b + |w|] == w
  }

  /** Matches `(?:alt0|alt1|...)\s*([\d.]+)` at b, trying the alternatives in
      order; the result is the bounds (d, e) of the captured number. Every
      quantifier is greedy and each run is followed by a character of another
      class, so backtracking into a run can never help: the greedy reading is
      the regex's reading. */
  function AltThenNumber(s: string, b: nat, alts: seq<string>): (r: Option<(nat, nat)>)
    requires b <= |s|
    ensures r.Some? ==> b <= r.value.0 < r.value.1 <= |s|
    ensures r.Some? ==> InClass(s[r.value.0], DigitOrDot)
    decreases |alts|
  {
    if alts == [] then None
    else if LiteralAt(s, b, alts[0]) then
      var c := b + |alts[0]|;
      var d := c + Run(s, c, Space);
      var e := d + Run(s, d, DigitOrDot);
      if e > d then Some((d, e)) else AltThenNumber(s, b, alts[1..])
    else AltThenNumber(s, b, alts[1..])
  }

  /** The interval pattern's match: its start and its two captured numbers. */
  datatype IntervalMatch = IntervalMatch(start: nat, low: string, high: string)

  /** `([\d.]+)\s*(?:sep0|sep1|...)\s*([\d.]+)` anchored at i; the
      classifier's separators are `IntervalSeparators`. */
  function IntervalAt(s: string, i: nat, seps: seq<string>): (r: Option<IntervalMatch>)
    requires i <= |s|
    ensures r.Some? ==> r.value.start == i && r.value.low != [] && r.value.high != []
  {
    var a := i + Run(s, i, DigitOrDot);
    if a == i then None else IntervalFrom(s, i, a, a + Run(s, a, Space), seps)
  }

  /** The rest of the interval pattern once the first number s[i..a] and the
      spaces up to b have been read. */
  function IntervalFrom(s: string, i: nat, a: nat, b: nat, seps: seq<string>): (r: Option<IntervalMatch>)
    requires i < a <= b <= |s|
    ensures r.Some? ==> r.value.start == i && r.value.low != [] && r.value.high != []
  {
    var r := AltThenNumber(s, b, seps);
    if r.None? then None else Some(IntervalMatch(i, s[i..a], s[r.value.0..r.value.1]))
  }

  /** `String.prototype.match` for the interval pattern: the leftmost start
      at which the anchored pattern matches. */
  function FindInterval(s: string, i: nat, seps: seq<string>): (r: Option<IntervalMatch>)
    requires i <= |s|
    ensures r.Some? ==> i <= r.value.start <= |s| && IntervalAt(s, r.value.start, seps) == r
    ensures r.Some? ==> forall k :: i <= k < r.value.start ==> IntervalAt(s, k, seps).None?
    ensures r.None? ==> forall k :: i <= k <= |s| ==> IntervalAt(s, k, seps).None?
    decreases |s| - i
  {
    var here := IntervalAt(s, i, seps);
    if here.Some? then here
    else if i == |s| then None
    else FindInterval(s, i + 1, seps)
  }

  /** `(?:alt0|...)\s*([\d.]+)` anchored at i: the captured number. */
  function BoundAt(s: string, i: nat, words: seq<string>): Option<string>
    requires i <= |s|
  {
    var r := AltThenNumber(s, i, words);
    if r.None? then None else Some(s[r.value.0..r.value.1])
  }

  /** Leftmost match of a bound pattern: its start and captured number. */
  function FindBound(s: string, i: nat, words: seq<string>): (r: Option<(nat, string)>)
    requires i <= |s|
    ensures r.Some? ==> i <= r.value.0 <= |s| && BoundAt(s, r.value.0, words) == Some(r.value.1)
    ensures r.Some? ==> forall k :: i <= k < r.value.0 ==> BoundAt(s, k, words).None?
    ensures r.None? ==> forall k :: i <= k <= |s| ==> BoundAt(s, k, words).None?
    decreases |s| - i
  {
    match BoundAt(s, i, words)
    case Some(t) => Some((i, t))
    case None => if i == |s| then None else FindBound(s, i + 1, words)
  }

  // ---------------------------------------------------------------------------
  // The decision table
  // ---------------------------------------------------------------------------

  /** Case 1: the value against an interval [min, max] and 20% margins. */
  function IntervalStatus(v: real, min: Option<real>, max: Option<real>): HealthStatus
  {
    if min.None? || max.None? then Danger
    else
      var lo := min.value;
      var hi := max.value;
      if v >= lo && v <= hi then
        // the source singles out the middle 10% of the range, with the same result
        var mid := (lo + hi) / 2.0;
        var dist := if v - mid < 0.0 then mid - v else v - mid;
        if dist < (hi - lo) * 0.05 then Success else Success
      else
        var margin := (hi - lo) * 0.2;
        if (v >= lo - margin && v < lo) || (v > hi && v <= hi + margin) then Warning
        else Danger
  }

  /** Case 2: "> t": above is healthy, the 20% below t is a warning. */
  function LowerBoundStatus(v: real, threshold: Option<real>): HealthStatus
  {
    if threshold.None? then Danger
    else
      var t := threshold.value;
      if v > t then Success
      else if v <= t && v >= t * 0.8 then Warning
      else Danger
  }

  /** Case 3: "< t": below is healthy, the 20% above t is a warning. */
  function UpperBoundStatus(v: real, threshold: Option<real>): HealthStatus
  {
    if threshold.None? then Danger
    else
      var t := threshold.value;
      if v < t then Success
      else if v >= t && v <= t * 1.2 then Warning
      else Danger
  }

  const HealthyPatterns: seq<string> := ["não reagente", "negativo", "ausente", "normal", "não detectado"]
  const UnhealthyPatterns: seq<string> := ["reagente", "positivo", "presente", "alterado", "detectado"]
  const InfoPatterns: seq<string> := ["indeterminado", "repetir", "aguardar"]

  /** `patterns.some(p => v.includes(p))`. */
  predicate ContainsAny(v: string, patterns: seq<string>)
    decreases |patterns|
  {
    patterns != [] && (Contains(v, patterns[0]) || ContainsAny(v, patterns[1..]))
  }

  /** Qualitative results: healthy phrases first, then unhealthy, then
      inconclusive. */
  function TextStatus(v: string): HealthStatus {
    if ContainsAny(v, HealthyPatterns) then Success
    else if ContainsAny(v, UnhealthyPatterns) then Danger
    else if ContainsAny(v, InfoPatterns) then Info
    else Neutral
  }

  /** Numeric results: interval, then lower bound, then upper bound. */
  function NumericStatus(v: real, cleanRange: string): HealthStatus {
    match FindInterval(cleanRange, 0, IntervalSeparators)
    case Some(m) => IntervalStatus(v, ParseFloat(m.low), ParseFloat(m.high))
    case None =>
      match FindBound(cleanRange, 0, LowerBoundWords)
      case Some((_, t)) => LowerBoundStatus(v, ParseFloat(t))
      case None =>
        match FindBound(cleanRange, 0, UpperBoundWords)
        case Some((_, t)) => UpperBoundStatus(v, ParseFloat(t))
        case None => Neutral
  }

  /** A range that gives no verdict at all. */
  predicate BlankRange(referenceRange: string) {
    referenceRange == "" || referenceRange == "N/A" || Trim(referenceRange) == ""
  }

  /** The value as `parseFloat(valueStr.replace(',', '.'))` reads it. */
  function NumericValue(valueStr: string): Option<real> {
    ParseFloat(ReplaceFirst(valueStr, ',', '.'))
  }

  /** The range as the patterns see it: first comma to dot, lower case. */
  function CleanRange(referenceRange: string): string {
    Lower(ReplaceFirst(referenceRange, ',', '.'))
  }

  /** `getHealthStatus(valueStr, referenceRange)`. */
  function GetHealthStatus(valueStr: string, referenceRange: string): HealthStatus
  {
    if BlankRange(referenceRange) then Neutral
    else
      var v := NumericValue(valueStr);
      if v.Some? then NumericStatus(v.value, CleanRange(referenceRange))
      else TextStatus(Trim(Lower(valueStr)))
  }

  /** An empty, all-blank or "N/A" range gives no verdict, whatever the
      result; any other range does not stop at the guard. */
  lemma BlankRangeIsNeutral(valueStr: string, r: string)
    ensures BlankRange(r) <==> r == "" || r == "N/A" || AllSpace(r)
    ensures BlankRange(r) ==> GetHealthStatus(valueStr, r) == Neutral
  {
    TrimEmptyIffBlank(r);
  }

  // ---------------------------------------------------------------------------
  // The greedy reading is the regular expression's reading
  // ---------------------------------------------------------------------------

  /** Every character of s[i..j] is of class cls. */
  ghost predicate AllIn(s: string, i: nat, j: nat, cls: CharClass)
    requires i <= j <= |s|
  {
    forall k :: i <= k < j ==> InClass(s[k], cls)
  }

  /** One way `w\s*([\d.]+)` can match at b under backtracking: the literal
      w, spaces up to d, and the captured number s[d..e]. */
  ghost predicate AltNumberParse(s: string, b: nat, w: string, d: nat, e: nat) {
    LiteralAt(s, b, w) && b + |w| <= d < e <= |s|
    && AllIn(s, b + |w|, d, Space) && AllIn(s, d, e, DigitOrDot)
  }

  /** One way the interval pattern can match at i: the first number s[i..a],
      spaces up to b, a separator w, and the second number s[d..e]. */
  ghost predicate IntervalParse(s: string, i: nat, a: nat, b: nat, w: string, d: nat, e: nat, seps: seq<string>) {
    i < a <= b <= |s| && AllIn(s, i, a, DigitOrDot) && AllIn(s, a, b, Space)
    && w in seps && AltNumberParse(s, b, w, d, e)
  }

  /** One way a bound pattern can match at i. */
  ghost predicate BoundParse(s: string, i: nat, words: seq<string>, w: string, d: nat, e: nat) {
    w in words && AltNumberParse(s, i, w, d, e)
  }

  /** The greedy attempt after a literal ending at c finds no number. */
  predicate NothingAfter(s: string, c: nat)
    requires c <= |s|
  {
    Run(s, c + Run(s, c, Space), DigitOrDot) == 0
  }

  /** Every word is non-empty and starts with neither a space nor a number
      character. */
  predicate WordsStartWell(alts: seq<string>)
    decreases |alts|
  {
    alts == [] ||
    (|alts[0]| > 0 && !InClass(alts[0][0], Space) && !InClass(alts[0][0], DigitOrDot)
     && WordsStartWell(alts[1..]))
  }

  /** Where the later word v matches, the earlier word w cannot lead to a
      number: either the two words disagree at a shared position, or w is a
      proper prefix of v and v continues with neither a space nor a number
      character. */
  predicate Yields(w: string, v: string)
    decreases |w|
  {
    if w == [] then v != [] && !InClass(v[0], Space) && !InClass(v[0], DigitOrDot)
    else v != [] && (w[0] != v[0] || Yields(w[1..], v[1..]))
  }

  predicate YieldsToAll(w: string, later: seq<string>)
    decreases |later|
  {
    later == [] || (Yields(w, later[0]) && YieldsToAll(w, later[1..]))
  }

  /** Trying the words in order never hides a later word's match. */
  predicate Unambiguous(alts: seq<string>)
    decreases |alts|
  {
    alts == [] || (YieldsToAll(alts[0], alts[1..]) && Unambiguous(alts[1..]))
  }

  lemma SeparatorsWellFormed()
    ensures WordsStartWell(IntervalSeparators) && Unambiguous(IntervalSeparators)
  {
  }

  lemma LowerBoundWordsWellFormed()
    ensures WordsStartWell(LowerBoundWords) && Unambiguous(LowerBoundWords)
  {
  }

  lemma UpperBoundWordsWellFormed()
    ensures WordsStartWell(UpperBoundWords) && Unambiguous(UpperBoundWords)
  {
  }

  /** The three word lists of the classifier have both properties. */
  lemma WordListsWellFormed()
    ensures WordsStartWell(IntervalSeparators) && Unambiguous(IntervalSeparators)
    ensures WordsStartWell(LowerBoundWords) && Unambiguous(LowerBoundWords)
    ensures WordsStartWell(UpperBoundWords) && Unambiguous(UpperBoundWords)
  {
    SeparatorsWellFormed();
    LowerBoundWordsWellFormed();
    UpperBoundWordsWellFormed();
  }

  lemma {:induction false} WordStartsWell(alts: seq<string>, k: nat)
    requires WordsStartWell(alts) && k < |alts|
    ensures |alts[k]| > 0 && !InClass(alts[k][0], Space) && !InClass(alts[k][0], DigitOrDot)
  {
    if k > 0 {
      WordStartsWell(alts[1..], k - 1);
      assert alts[1..][k - 1] == alts[k];
    }
  }

  lemma {:induction false} UnambiguousPair(alts: seq<string>, j: nat, k: nat)
    requires Unambiguous(alts) && j < k < |alts|
    ensures Yields(alts[j], alts[k])
  {
    if j > 0 {
      UnambiguousPair(alts[1..], j - 1, k - 1);
      assert alts[1..][j - 1] == alts[j] && alts[1..][k - 1] == alts[k];
    } else {
      YieldsToAllAt(alts[0], alts[1..], k - 1);
      assert alts[1..][k - 1] == alts[k];
    }
  }

  lemma {:induction false} YieldsToAllAt(w: string, later: seq<string>, m: nat)
    requires YieldsToAll(w, later) && m < |later|
    ensures Yields(w, later[m])
  {
    if m > 0 {
      YieldsToAllAt(w, later[1..], m - 1);
      assert later[1..][m - 1] == later[m];
    }
  }

  lemma LiteralChar(s: string, b: nat, w: string, j: nat)
    requires LiteralAt(s, b, w) && j < |w|
    ensures s[b + j] == w[j]
  {
    assert s[b..b + |w|][j] == s[b + j];
  }

  lemma LiteralTail(s: string, b: nat, w: string)
    requires LiteralAt(s, b, w) && w != []
    ensures LiteralAt(s, b + 1, w[1..])
  {
    assert s[b + 1..b + |w|] == s[b..b + |w|][1..];
  }

  /** Where a later word v matches, an earlier word w that yields to it and
      matches too is followed by no number. */
  lemma {:induction false} YieldsMeansNothingAfter(s: string, b: nat, w: string, v: string)
    requires Yields(w, v) && LiteralAt(s, b, w) && LiteralAt(s, b, v)
    ensures NothingAfter(s, b + |w|)
    decreases |w|
  {
    LiteralChar(s, b, v, 0);
    if w == [] {
      RunIs(s, b, Space, 0);
      RunIs(s, b, DigitOrDot, 0);
    } else {
      LiteralChar(s, b, w, 0);
      LiteralTail(s, b, w);
      LiteralTail(s, b, v);
      YieldsMeansNothingAfter(s, b + 1, w[1..], v[1..]);
    }
  }

  lemma EarlierAlternativesFail(s: string, b: nat, alts: seq<string>, k: nat)
    requires Unambiguous(alts) && k < |alts| && LiteralAt(s, b, alts[k])
    ensures forall j :: 0 <= j < k ==> !LiteralAt(s, b, alts[j]) || NothingAfter(s, b + |alts[j]|)
  {
    forall j | 0 <= j < k && LiteralAt(s, b, alts[j]) ensures NothingAfter(s, b + |alts[j]|) {
      UnambiguousPair(alts, j, k);
      YieldsMeansNothingAfter(s, b, alts[j], alts[k]);
    }
  }

  /** After the literal, the greedy runs find the parse's number start, and a
      number at least as long. */
  lemma AltNumberGreedy(s: string, b: nat, w: string, d: nat, e: nat)
    requires AltNumberParse(s, b, w, d, e)
    ensures b + |w| + Run(s, b + |w|, Space) == d
    ensures d + Run(s, d, DigitOrDot) >= e
  {
    RunIs(s, b + |w|, Space, d - (b + |w|));
    RunAllInClass(s, d, DigitOrDot);
  }

  /** Alternatives are tried in order: the parse with alternative k is what
      `AltThenNumber` finds when no earlier alternative leads anywhere. */
  lemma {:induction false} AltThenNumberComplete(s: string, b: nat, alts: seq<string>, k: nat, d: nat, e: nat)
    requires b <= |s| && k < |alts| && AltNumberParse(s, b, alts[k], d, e)
    requires forall j :: 0 <= j < k ==> !LiteralAt(s, b, alts[j]) || NothingAfter(s, b + |alts[j]|)
    ensures AltThenNumber(s, b, alts).Some?
    ensures AltThenNumber(s, b, alts).value.0 == d && AltThenNumber(s, b, alts).value.1 >= e
    decreases k
  {
    if k == 0 {
      AltThenNumberFirst(s, b, alts, d, e);
    } else {
      assert alts[1..][k - 1] == alts[k];
      forall j | 0 <= j < k - 1
        ensures !LiteralAt(s, b, alts[1..][j]) || NothingAfter(s, b + |alts[1..][j]|)
      {
        assert alts[1..][j] == alts[j + 1];
      }
      AltThenNumberComplete(s, b, alts[1..], k - 1, d, e);
      AltThenNumberSkip(s, b, alts);
    }
  }

  /** A parse with the first alternative is what `AltThenNumber` finds. */
  lemma AltThenNumberFirst(s: string, b: nat, alts: seq<string>, d: nat, e: nat)
    requires b <= |s| && alts != [] && AltNumberParse(s, b, alts[0], d, e)
    ensures AltThenNumber(s, b, alts).Some?
    ensures AltThenNumber(s, b, alts).value.0 == d && AltThenNumber(s, b, alts).value.1 >= e
  {
    AltNumberGreedy(s, b, alts[0], d, e);
  }

  /** An alternative that is absent, or after which no number follows, passes
      the attempt on to the next one. */
  lemma AltThenNumberSkip(s: string, b: nat, alts: seq<string>)
    requires b <= |s| && alts != []
    requires !LiteralAt(s, b, alts[0]) || NothingAfter(s, b + |alts[0]|)
    ensures AltThenNumber(s, b, alts) == AltThenNumber(s, b, alts[1..])
  {
  }

  /** Whatever `AltThenNumber` finds is a parse with one of the alternatives. */
  lemma {:induction false} AltThenNumberSound(s: string, b: nat, alts: seq<string>)
    requires b <= |s| && AltThenNumber(s, b, alts).Some?
    ensures exists k :: (0 <= k < |alts| &&
      AltNumberParse(s, b, alts[k], AltThenNumber(s, b, alts).value.0, AltThenNumber(s, b, alts).value.1))
    decreases |alts|
  {
    var r := AltThenNumber(s, b, alts);
    if LiteralAt(s, b, alts[0]) {
      var c := b + |alts[0]|;
      var d := c + Run(s, c, Space);
      var e := d + Run(s, d, DigitOrDot);
      if e > d {
        RunAllInClass(s, c, Space);
        RunAllInClass(s, d, DigitOrDot);
        assert AltNumberParse(s, b, alts[0], d, e);
        return;
      }
    }
    AltThenNumberSound(s, b, alts[1..]);
    var k :| 0 <= k < |alts[1..]| && AltNumberParse(s, b, alts[1..][k], r.value.0, r.value.1);
    assert AltNumberParse(s, b, alts[k + 1], r.value.0, r.value.1);
  }

  lemma IndexOfWord(alts: seq<string>, w: string) returns (k: nat)
    requires w in alts
    ensures k < |alts| && alts[k] == w
  {
    k :| 0 <= k < |alts| && alts[k] == w;
  }

  lemma PrefixOfSlice(s: string, d: nat, e: nat, f: nat)
    requires d <= e <= f <= |s|
    ensures s[d..f][..e - d] == s[d..e]
  {
  }

  /** `IntervalAt` reads on from the end of its two leading runs. */
  lemma IntervalAtRuns(s: string, i: nat, seps: seq<string>)
    requires i <= |s| && Run(s, i, DigitOrDot) > 0
    ensures var a := i + Run(s, i, DigitOrDot);
            IntervalAt(s, i, seps) == IntervalFrom(s, i, a, a + Run(s, a, Space), seps)
  {
  }

  /** `IntervalAt` once its two leading runs are known. */
  lemma {:induction false} IntervalAtFrom(s: string, i: nat, a: nat, b: nat, d: nat, f: nat, seps: seq<string>)
    requires i < a <= b <= |s| && i + Run(s, i, DigitOrDot) == a && a + Run(s, a, Space) == b
    requires AltThenNumber(s, b, seps) == Some((d, f))
    ensures IntervalAt(s, i, seps) == Some(IntervalMatch(i, s[i..a], s[d..f]))
  {
    IntervalAtRuns(s, i, seps);
    IntervalFromFound(s, i, a, b, d, f, seps);
  }

  lemma IntervalFromFound(s: string, i: nat, a: nat, b: nat, d: nat, f: nat, seps: seq<string>)
    requires i < a <= b <= |s| && AltThenNumber(s, b, seps) == Some((d, f))
    ensures IntervalFrom(s, i, a, b, seps) == Some(IntervalMatch(i, s[i..a], s[d..f]))
  {
  }

  /** Any backtracking parse of the interval pattern at i is read by
      `IntervalAt`: same first number, same start of the second number, and
      a second number at least as long (the greedy `[\d.]+` takes the longest). */
  lemma {:induction false} IntervalAtComplete(s: string, i: nat, a: nat, b: nat, w: string, d: nat, e: nat, seps: seq<string>)
    requires WordsStartWell(seps) && Unambiguous(seps)
    requires IntervalParse(s, i, a, b, w, d, e, seps)
    ensures IntervalAt(s, i, seps).Some?
    ensures IntervalAt(s, i, seps).value.low == s[i..a]
    ensures |IntervalAt(s, i, seps).value.high| >= e - d
    ensures IntervalAt(s, i, seps).value.high[..e - d] == s[d..e]
    ensures d + |IntervalAt(s, i, seps).value.high| <= |s|
    ensures IntervalAt(s, i, seps).value.high == s[d..d + |IntervalAt(s, i, seps).value.high|]
  {
    var k := IndexOfWord(seps, w);
    WordStartsWell(seps, k);
    LiteralChar(s, b, w, 0);
    RunIs(s, i, DigitOrDot, a - i);
    RunIs(s, a, Space, b - a);
    EarlierAlternativesFail(s, b, seps, k);
    AltThenNumberComplete(s, b, seps, k, d, e);
    var f := AltThenNumber(s, b, seps).value.1;
    IntervalAtFrom(s, i, a, b, d, f, seps);
    PrefixOfSlice(s, d, e, f);
  }

  /** Whatever `IntervalAt` reads is a parse of the interval pattern. */
  lemma {:induction false} IntervalAtSound(s: string, i: nat, seps: seq<string>)
    requires i <= |s| && IntervalAt(s, i, seps).Some?
    ensures exists a: nat, b: nat, w: string, d: nat, e: nat :: (IntervalParse(s, i, a, b, w, d, e, seps)
      && IntervalAt(s, i, seps).value.low == s[i..a] && IntervalAt(s, i, seps).value.high == s[d..e])
  {
    var a := i + Run(s, i, DigitOrDot);
    var b := a + Run(s, a, Space);
    RunAllInClass(s, i, DigitOrDot);
    RunAllInClass(s, a, Space);
    AltThenNumberSound(s, b, seps);
    var r := AltThenNumber(s, b, seps);
    var k :| 0 <= k < |seps| && AltNumberParse(s, b, seps[k], r.value.0, r.value.1);
    IntervalAtFrom(s, i, a, b, r.value.0, r.value.1, seps);
    assert IntervalParse(s, i, a, b, seps[k], r.value.0, r.value.1, seps);
  }

  /** `match` for the interval: if the pattern can match anywhere, a match is
      reported, and it starts no later than that place (with `FindInterval`'s
      own contract: nothing matches before it). */
  lemma FindIntervalLeftmost(s: string, i: nat, a: nat, b: nat, w: string, d: nat, e: nat, seps: seq<string>)
    requires WordsStartWell(seps) && Unambiguous(seps)
    requires IntervalParse(s, i, a, b, w, d, e, seps)
    ensures FindInterval(s, 0, seps).Some? && FindInterval(s, 0, seps).value.start <= i
  {
    IntervalAtComplete(s, i, a, b, w, d, e, seps);
  }

  /** A match at the first position is the one reported. */
  lemma FindIntervalAtStart(s: string, seps: seq<string>)
    requires IntervalAt(s, 0, seps).Some?
    ensures FindInterval(s, 0, seps) == IntervalAt(s, 0, seps)
  {
  }

  /** Any backtracking parse of a bound pattern at i is read by `BoundAt`. */
  lemma BoundAtComplete(s: string, i: nat, words: seq<string>, w: string, d: nat, e: nat)
    requires Unambiguous(words) && BoundParse(s, i, words, w, d, e)
    ensures BoundAt(s, i, words).Some?
    ensures |BoundAt(s, i, words).value| >= e - d
    ensures BoundAt(s, i, words).value[..e - d] == s[d..e]
    ensures d + |BoundAt(s, i, words).value| <= |s|
    ensures BoundAt(s, i, words).value == s[d..d + |BoundAt(s, i, words).value|]
  {
    var k := IndexOfWord(words, w);
    EarlierAlternativesFail(s, i, words, k);
    AltThenNumberComplete(s, i, words, k, d, e);
    var f := AltThenNumber(s, i, words).value.1;
    PrefixOfSlice(s, d, e, f);
  }

  /** `match` for a bound: a match is reported no later than any place where
      the pattern can match. */
  lemma FindBoundLeftmost(s: string, i: nat, words: seq<string>, w: string, d: nat, e: nat)
    requires Unambiguous(words) && BoundParse(s, i, words, w, d, e)
    ensures FindBound(s, 0, words).Some? && FindBound(s, 0, words).value.0 <= i
  {
    BoundAtComplete(s, i, words, w, d, e);
  }

  // ---------------------------------------------------------------------------
  // What the classifier concludes for ranges of the usual shapes
  // ---------------------------------------------------------------------------

  /** Text that the range normalisation leaves alone and in which no number
      can start: no upper-case letter, no comma, no digit and no dot. */
  predicate PlainText(p: string)
    decreases |p|
  {
    p == [] || (!IsUpperLetter(p[0]) && p[0] != ',' && !InClass(p[0], DigitOrDot) && PlainText(p[1..]))
  }

  lemma {:induction false} PlainTextChars(p: string)
    requires PlainText(p)
    ensures forall k :: 0 <= k < |p| ==> !IsUpperLetter(p[k]) && p[k] != ',' && !InClass(p[k], DigitOrDot)
  {
    if p != [] {
      PlainTextChars(p[1..]);
      assert forall k :: 1 <= k < |p| ==> p[k] == p[1..][k - 1];
    }
  }

  /** No upper-case letter and no comma. */
  predicate Tame(s: string) {
    forall k :: 0 <= k < |s| ==> !IsUpperLetter(s[k]) && s[k] != ','
  }

  lemma TameConcat(x: string, y: string)
    requires Tame(x) && Tame(y)
    ensures Tame(x + y)
  {
    forall k | 0 <= k < |x + y| ensures !IsUpperLetter((x + y)[k]) && (x + y)[k] != ',' {
      if k >= |x| { assert (x + y)[k] == y[k - |x|]; }
    }
  }

  lemma TameDigits(s: string)
    requires AllDigits(s)
    ensures Tame(s)
  {
  }

  lemma TamePlain(s: string)
    requires PlainText(s)
    ensures Tame(s)
  {
    PlainTextChars(s);
  }

  /** A text with no upper-case letter and no comma is its own clean range. */
  lemma CleanRangeUnchanged(r: string)
    requires Tame(r)
    ensures CleanRange(r) == r
  {
    ReplaceFirstAbsent(r, ',', '.');
  }

  /** A range that starts with a visible character is not blank. */
  lemma NotBlankRange(r: string)
    requires r != [] && !IsSpace(r[0]) && r[0] != 'N'
    ensures !BlankRange(r)
  {
    TrimEmptyIffBlank(r);
  }

  /** A plain digit string is read by `parseFloat` after the comma step. */
  lemma NumericValueNatStr(n: nat)
    ensures NumericValue(NatStr(n)) == Some(n as real)
  {
    ReplaceFirstAbsent(NatStr(n), ',', '.');
    ParseFloatNatStr(n);
  }

  lemma {:induction false} AltAtEnd(s: string, alts: seq<string>)
    requires WordsStartWell(alts)
    ensures AltThenNumber(s, |s|, alts).None?
    decreases |alts|
  {
    if alts != [] { AltAtEnd(s, alts[1..]); }
  }

  /** Without any digit or dot, none of the three patterns can match. */
  lemma NoNumberNoMatch(s: string, seps: seq<string>, words: seq<string>)
    requires forall k :: 0 <= k < |s| ==> !InClass(s[k], DigitOrDot)
    ensures FindInterval(s, 0, seps).None?
    ensures FindBound(s, 0, words).None?
  {
    forall k | 0 <= k <= |s| ensures IntervalAt(s, k, seps).None? && BoundAt(s, k, words).None? {
      RunIs(s, k, DigitOrDot, 0);
    }
  }

  /** Words followed by a number: no interval can be read, because the only
      number runs to the end of the text. */
  lemma NoIntervalIn(p: string, n: string, seps: seq<string>)
    requires forall k :: 0 <= k < |p| ==> !InClass(p[k], DigitOrDot)
    requires AllDigits(n) && WordsStartWell(seps)
    ensures FindInterval(p + n, 0, seps).None?
  {
    var r := p + n;
    forall k | 0 <= k <= |r| ensures IntervalAt(r, k, seps).None? {
      if k < |p| {
        RunIs(r, k, DigitOrDot, 0);
      } else {
        assert forall j :: k <= j < |r| ==> r[j] == n[j - |p|];
        RunIs(r, k, DigitOrDot, |r| - k);
        RunIs(r, |r|, Space, 0);
        AltAtEnd(r, seps);
      }
    }
  }

  /** None of `words` occurs in p, and none holds a number character. */
  predicate NoneOccurIn(p: string, words: seq<string>)
    decreases |words|
  {
    words == [] ||
    (words[0] != [] && PlainText(words[0]) && !Contains(p, words[0]) && NoneOccurIn(p, words[1..]))
  }

  lemma {:induction false} NoneOccurInAt(p: string, words: seq<string>, j: nat)
    requires NoneOccurIn(p, words) && j < |words|
    ensures words[j] != [] && PlainText(words[j]) && !Contains(p, words[j])
  {
    if j > 0 {
      NoneOccurInAt(p, words[1..], j - 1);
      assert words[1..][j - 1] == words[j];
    }
  }

  /** No bound pattern starts at k in words followed by a number. */
  lemma NoBoundAt(p: string, n: string, words: seq<string>, k: nat)
    requires NoneOccurIn(p, words) && AllDigits(n) && k <= |p + n|
    ensures AltThenNumber(p + n, k, words).None?
  {
    var r := p + n;
    if AltThenNumber(r, k, words).Some? {
      AltThenNumberSound(r, k, words);
      var x := AltThenNumber(r, k, words).value;
      var j :| 0 <= j < |words| && AltNumberParse(r, k, words[j], x.0, x.1);
      NoneOccurInAt(p, words, j);
      NoWordAt(p, n, words[j], k);
    }
  }

  /** A word that does not occur in p and holds no number character is not
      written at any k of p + n when n is all digits. */
  lemma NoWordAt(p: string, n: string, w: string, k: nat)
    requires w != [] && PlainText(w) && !Contains(p, w) && AllDigits(n)
    ensures !LiteralAt(p + n, k, w)
  {
    var r := p + n;
    if LiteralAt(r, k, w) {
      if k + |w| <= |p| {
        assert r[k..k + |w|] == p[k..k + |w|];
        ContainsAt(p, w, k);
      } else {
        var q := if k < |p| then |p| else k;
        LiteralChar(r, k, w, q - k);
        PlainTextChars(w);
      }
    }
  }

  /** Words followed by a number, where none of a bound pattern's words
      occurs: that pattern cannot match. */
  lemma NoBoundIn(p: string, n: string, words: seq<string>)
    requires NoneOccurIn(p, words) && AllDigits(n)
    ensures FindBound(p + n, 0, words).None?
  {
    forall k | 0 <= k <= |p + n| ensures BoundAt(p + n, k, words).None? {
      NoBoundAt(p, n, words, k);
    }
  }

  lemma SeparatorsPlain(sep: string)
    requires sep in IntervalSeparators
    ensures PlainText(sep)
  {
    assert sep == "-" || sep == "a" || sep == "até" || sep == "—";
  }

  /** "lo sep hi" is kept as it is by the normalisation and is not blank. */
  lemma DigitsRangeClean(a: string, sep: string, z: string)
    requires |a| >= 1 && AllDigits(a) && AllDigits(z) && PlainText(sep)
    ensures !BlankRange(a + " " + sep + " " + z)
    ensures CleanRange(a + " " + sep + " " + z) == a + " " + sep + " " + z
  {
    TameDigits(a);
    TameDigits(z);
    TamePlain(sep);
    assert Tame(" ");
    TameConcat(a, " ");
    TameConcat(a + " ", sep);
    TameConcat(a + " " + sep, " ");
    TameConcat(a + " " + sep + " ", z);
    CleanRangeUnchanged(a + " " + sep + " " + z);
    assert (a + " " + sep + " " + z)[0] == a[0];
    NotBlankRange(a + " " + sep + " " + z);
  }

  /** The range "lo sep hi" (one space on each side of the separator) is
      read as the interval [lo, hi]. */
  lemma DigitsIntervalRead(a: string, sep: string, z: string, seps: seq<string>)
    requires WordsStartWell(seps) && Unambiguous(seps) && sep in seps
    requires |a| >= 1 && |z| >= 1 && AllDigits(a) && AllDigits(z)
    ensures FindInterval(a + " " + sep + " " + z, 0, seps) == Some(IntervalMatch(0, a, z))
  {
    var pre := a + " " + sep + " ";
    var r := pre + z;
    assert r == a + " " + sep + " " + z;
    var L := |a|;
    var d := |pre|;
    assert pre[..L] == a && pre[L] == ' ' && pre[L + 1..d - 1] == sep && pre[d - 1] == ' ';
    assert r[..d] == pre && r[d..] == z;
    IntervalReadByIndex(r, a, sep, z, seps, L, d);
  }

  /** The same reading, for a text described position by position. */
  lemma IntervalReadByIndex(r: string, a: string, sep: string, z: string, seps: seq<string>, L: nat, d: nat)
    requires WordsStartWell(seps) && Unambiguous(seps) && sep in seps
    requires |a| == L >= 1 && |z| >= 1 && AllDigits(a) && AllDigits(z)
    requires d == L + |sep| + 2 && |r| == d + |z|
    requires r[..d][..L] == a && r[..d][L] == ' ' && r[..d][L + 1..d - 1] == sep && r[..d][d - 1] == ' '
    requires r[d..] == z
    ensures FindInterval(r, 0, seps) == Some(IntervalMatch(0, a, z))
  {
    assert r[0..L] == a;
    assert AllIn(r, 0, L, DigitOrDot) by {
      forall k | 0 <= k < L ensures InClass(r[k], DigitOrDot) { assert r[k] == a[k]; }
    }
    assert r[L] == ' ' && r[d - 1] == ' ';
    assert r[L + 1..L + 1 + |sep|] == sep;
    assert AllIn(r, d, |r|, DigitOrDot) by {
      forall k | d <= k < |r| ensures InClass(r[k], DigitOrDot) { assert r[k] == z[k - d]; }
    }
    assert IntervalParse(r, 0, L, L + 1, sep, d, |r|, seps);
    IntervalAtComplete(r, 0, L, L + 1, sep, d, |r|, seps);
    var m := IntervalAt(r, 0, seps).value;
    assert m.low == a;
    assert m.high == z by {
      assert |m.high| == |r| - d;
      assert r[d..|r|] == z;
    }
    assert m == IntervalMatch(0, a, z);
    FindIntervalAtStart(r, seps);
  }

  /** Once the normalised range is known to hold an interval, wherever it
      starts, the verdict is the interval decision for the two bounds. */
  lemma IntervalVerdict(valueStr: string, r: string, p: nat, low: string, high: string, v: real)
    requires !BlankRange(r) && NumericValue(valueStr) == Some(v)
    requires FindInterval(CleanRange(r), 0, IntervalSeparators) == Some(IntervalMatch(p, low, high))
    ensures GetHealthStatus(valueStr, r) == IntervalStatus(v, ParseFloat(low), ParseFloat(high))
  {
  }

  /** The interval decision, spelled out: inside the closed range is normal,
      within 20% of its width outside either end is a warning, farther away
      (or a range with a bound that is not a number) is critical. */
  lemma IntervalStatusMeaning(v: real, lo: real, hi: real)
    ensures var st := IntervalStatus(v, Some(lo), Some(hi));
      var margin := (hi - lo) * 0.2;
      && (st == Success <==> lo <= v <= hi)
      && (st == Warning <==> (lo - margin <= v < lo) || (hi < v <= hi + margin))
      && (st == Success || st == Warning || st == Danger)
  {
  }

  /** "lo sep hi" with a separator of the list is read as that interval. */
  lemma StandardIntervalRead(a: string, sep: string, z: string)
    requires sep in IntervalSeparators
    requires |a| >= 1 && |z| >= 1 && AllDigits(a) && AllDigits(z)
    ensures FindInterval(a + " " + sep + " " + z, 0, IntervalSeparators) == Some(IntervalMatch(0, a, z))
  {
    WordListsWellFormed();
    DigitsIntervalRead(a, sep, z, IntervalSeparators);
  }

  /** A range "lo sep hi" of natural numbers, with any of the separators and
      a space on each side, and a natural value: the verdict is the interval
      decision for lo and hi. */
  lemma NaturalIntervalVerdict(v: nat, lo: nat, sep: string, hi: nat)
    requires sep in IntervalSeparators
    ensures GetHealthStatus(NatStr(v), NatStr(lo) + " " + sep + " " + NatStr(hi))
         == IntervalStatus(v as real, Some(lo as real), Some(hi as real))
  {
    var r := NatStr(lo) + " " + sep + " " + NatStr(hi);
    SeparatorsPlain(sep);
    DigitsRangeClean(NatStr(lo), sep, NatStr(hi));
    StandardIntervalRead(NatStr(lo), sep, NatStr(hi));
    NumericValueNatStr(v);
    ParseFloatNatStr(lo);
    ParseFloatNatStr(hi);
    IntervalVerdict(NatStr(v), r, 0, NatStr(lo), NatStr(hi), v as real);
  }

  /** End to end: in range is normal, within 20% of the width outside either
      end is a warning, farther is critical. */
  lemma NaturalIntervalStatus(v: nat, lo: nat, sep: string, hi: nat)
    requires sep in IntervalSeparators
    ensures var st := GetHealthStatus(NatStr(v), NatStr(lo) + " " + sep + " " + NatStr(hi));
      var margin := (hi as real - lo as real) * 0.2;
      && (st == Success <==> lo <= v <= hi)
      && (st == Warning <==> (lo as real - margin <= v as real < lo as real)
                              || (hi as real < v as real <= hi as real + margin))
      && (st == Success || st == Warning || st == Danger)
  {
    NaturalIntervalVerdict(v, lo, sep, hi);
    IntervalStatusMeaning(v as real, lo as real, hi as real);
  }

  /** "w n" with a word of the list is read as the bound n, found at 0. */
  lemma BoundReadByIndex(r: string, w: string, n: string, words: seq<string>, d: nat)
    requires Unambiguous(words) && w in words
    requires |n| >= 1 && AllDigits(n)
    requires d == |w| + 1 && |r| == d + |n|
    requires r[..d][..|w|] == w && r[..d][|w|] == ' '
    requires r[d..] == n
    ensures FindBound(r, 0, words) == Some((0, n))
  {
    assert r[0..|w|] == w;
    assert r[|w|] == ' ';
    assert AllIn(r, d, |r|, DigitOrDot) by {
      forall k | d <= k < |r| ensures InClass(r[k], DigitOrDot) { assert r[k] == n[k - d]; }
    }
    assert BoundParse(r, 0, words, w, d, |r|);
    BoundAtComplete(r, 0, words, w, d, |r|);
    var t := BoundAt(r, 0, words).value;
    assert t == n by {
      assert |t| == |r| - d;
      assert r[d..|r|] == n;
    }
  }

  lemma WordNumberRead(w: string, n: string, words: seq<string>)
    requires Unambiguous(words) && w in words
    requires |n| >= 1 && AllDigits(n)
    ensures FindBound(w + " " + n, 0, words) == Some((0, n))
  {
    var p := w + " ";
    var r := p + n;
    assert r == w + " " + n;
    assert p[..|w|] == w && p[|w|] == ' ';
    assert r[..|p|] == p && r[|p|..] == n;
    BoundReadByIndex(r, w, n, words, |p|);
  }

  /** "w n" is kept as it is by the normalisation, is not blank, and holds
      no interval. */
  lemma WordNumberRange(w: string, n: string)
    requires w != [] && w[0] != 'N' && !IsSpace(w[0]) && PlainText(w)
    requires |n| >= 1 && AllDigits(n)
    ensures !BlankRange(w + " " + n) && CleanRange(w + " " + n) == w + " " + n
    ensures FindInterval(w + " " + n, 0, IntervalSeparators).None?
  {
    TamePlain(w);
    TameDigits(n);
    assert Tame(" ");
    TameConcat(w, " ");
    TameConcat(w + " ", n);
    CleanRangeUnchanged(w + " " + n);
    assert (w + " " + n)[0] == w[0];
    NotBlankRange(w + " " + n);
    PlainTextChars(w);
    var p := w + " ";
    assert forall k :: 0 <= k < |p| ==> !InClass(p[k], DigitOrDot) by {
      forall k | 0 <= k < |p| ensures !InClass(p[k], DigitOrDot) {
        if k < |w| { assert p[k] == w[k]; }
      }
    }
    WordListsWellFormed();
    NoIntervalIn(p, n, IntervalSeparators);
  }

  /** Once the normalised range is known to hold no interval and a lower
      bound t, wherever it starts, the verdict is the lower-bound decision. */
  lemma LowerBoundVerdict(valueStr: string, r: string, p: nat, t: string, v: real)
    requires !BlankRange(r) && NumericValue(valueStr) == Some(v)
    requires FindInterval(CleanRange(r), 0, IntervalSeparators).None?
    requires FindBound(CleanRange(r), 0, LowerBoundWords) == Some((p, t))
    ensures GetHealthStatus(valueStr, r) == LowerBoundStatus(v, ParseFloat(t))
  {
  }

  /** Likewise with no lower bound and an upper bound t. */
  lemma UpperBoundVerdict(valueStr: string, r: string, p: nat, t: string, v: real)
    requires !BlankRange(r) && NumericValue(valueStr) == Some(v)
    requires FindInterval(CleanRange(r), 0, IntervalSeparators).None?
    requires FindBound(CleanRange(r), 0, LowerBoundWords).None?
    requires FindBound(CleanRange(r), 0, UpperBoundWords) == Some((p, t))
    ensures GetHealthStatus(valueStr, r) == UpperBoundStatus(v, ParseFloat(t))
  {
  }

  /** The lower-bound decision, spelled out. */
  lemma LowerBoundStatusMeaning(v: real, t: real)
    ensures var st := LowerBoundStatus(v, Some(t));
      && (st == Success <==> v > t)
      && (st == Warning <==> t * 0.8 <= v <= t)
      && (st == Success || st == Warning || st == Danger)
  {
  }

  /** The upper-bound decision, spelled out. */
  lemma UpperBoundStatusMeaning(v: real, t: real)
    ensures var st := UpperBoundStatus(v, Some(t));
      && (st == Success <==> v < t)
      && (st == Warning <==> t <= v <= t * 1.2)
      && (st == Success || st == Warning || st == Danger)
  {
  }

  lemma LowerWordsPlainEach()
    ensures PlainText(">") && PlainText("acima de")
  {
  }

  lemma LowerWordsPlainLast()
    ensures PlainText("superior a")
  {
  }

  lemma LowerWordsPlain(w: string)
    requires w in LowerBoundWords
    ensures PlainText(w)
  {
    if w == ">" || w == "acima de" {
      LowerWordsPlainEach();
    } else {
      assert w == "superior a";
      LowerWordsPlainLast();
    }
  }

  lemma LowerWordsStart(w: string)
    requires w in LowerBoundWords
    ensures w != [] && w[0] != 'N' && !IsSpace(w[0])
  {
    assert w == ">" || w == "acima de" || w == "superior a";
  }

  lemma UpperWordsPlainEach()
    ensures PlainText("<") && PlainText("até")
  {
  }

  lemma UpperWordsPlainBelow()
    ensures PlainText("abaixo de")
  {
  }

  lemma UpperWordsPlainLower()
    ensures PlainText("inferior a")
  {
  }

  lemma UpperWordsPlain(w: string)
    requires w in UpperBoundWords
    ensures PlainText(w)
  {
    if w == "<" || w == "até" {
      UpperWordsPlainEach();
    } else {
      assert w == "abaixo de" || w == "inferior a";
      UpperWordsPlainBelow();
      UpperWordsPlainLower();
    }
  }

  lemma UpperWordsStart(w: string)
    requires w in UpperBoundWords
    ensures w != [] && w[0] != 'N' && !IsSpace(w[0])
  {
    assert w == "<" || w == "abaixo de" || w == "inferior a" || w == "até";
  }

  /** A text without '>', 'c' or 'u' holds none of the lower-bound phrases. */
  lemma NoLowerWordIn(p: string)
    requires '>' !in p && 'c' !in p && 'u' !in p
    ensures NoneOccurIn(p, LowerBoundWords)
  {
    LowerWordsPlainEach();
    LowerWordsPlainLast();
    MissingCharNotContained(p, ">", 0);
    MissingCharNotContained(p, "acima de", 1);
    MissingCharNotContained(p, "superior a", 1);
    NoneOccurInCons(p, "superior a", []);
    NoneOccurInCons(p, "acima de", ["superior a"]);
    NoneOccurInCons(p, ">", ["acima de", "superior a"]);
  }

  lemma NoneOccurInCons(p: string, w: string, rest: seq<string>)
    requires w != [] && PlainText(w) && !Contains(p, w) && NoneOccurIn(p, rest)
    ensures NoneOccurIn(p, [w] + rest)
  {
    assert ([w] + rest)[1..] == rest;
  }

  /** No upper-bound phrase contains a lower-bound phrase. */
  lemma UpperWordsAvoidLower(w: string)
    requires w in UpperBoundWords
    ensures NoneOccurIn(w + " ", LowerBoundWords)
  {
    assert w == "<" || w == "abaixo de" || w == "inferior a" || w == "até";
    assert '>' !in w + " " && 'c' !in w + " " && 'u' !in w + " ";
    NoLowerWordIn(w + " ");
  }

  /** A range "w t" with a lower-bound phrase and a natural value: above t is
      normal, from 80% of t up to t is a warning, lower is critical. */
  lemma NaturalLowerBoundStatus(v: nat, w: string, t: nat)
    requires w in LowerBoundWords
    ensures var st := GetHealthStatus(NatStr(v), w + " " + NatStr(t));
      && (st == Success <==> v > t)
      && (st == Warning <==> t as real * 0.8 <= v as real <= t as real)
      && (st == Success || st == Warning || st == Danger)
  {
    LowerWordsPlain(w);
    LowerWordsStart(w);
    WordNumberRange(w, NatStr(t));
    WordListsWellFormed();
    WordNumberRead(w, NatStr(t), LowerBoundWords);
    NumericValueNatStr(v);
    ParseFloatNatStr(t);
    LowerBoundVerdict(NatStr(v), w + " " + NatStr(t), 0, NatStr(t), v as real);
    LowerBoundStatusMeaning(v as real, t as real);
  }

  /** A range "w t" with an upper-bound phrase and a natural value: below t is
      normal, from t up to 120% of t is a warning, higher is critical. */
  lemma NaturalUpperBoundStatus(v: nat, w: string, t: nat)
    requires w in UpperBoundWords
    ensures var st := GetHealthStatus(NatStr(v), w + " " + NatStr(t));
      && (st == Success <==> v < t)
      && (st == Warning <==> t as real <= v as real <= t as real * 1.2)
      && (st == Success || st == Warning || st == Danger)
  {
    UpperWordsPlain(w);
    UpperWordsStart(w);
    WordNumberRange(w, NatStr(t));
    WordListsWellFormed();
    WordNumberRead(w, NatStr(t), UpperBoundWords);
    UpperWordsAvoidLower(w);
    NoBoundIn(w + " ", NatStr(t), LowerBoundWords);
    NumericValueNatStr(v);
    ParseFloatNatStr(t);
    UpperBoundVerdict(NatStr(v), w + " " + NatStr(t), 0, NatStr(t), v as real);
    UpperBoundStatusMeaning(v as real, t as real);
  }

  // ---------------------------------------------------------------------------
  // Only the first comma becomes a dot; a range without numbers is neutral
  // ---------------------------------------------------------------------------

  /** In the range too only the first comma becomes a dot: later commas stay
      and end the number that precedes them. */
  lemma CleanRangeFirstCommaOnly(a: string, b: string)
    requires ',' !in a
    ensures CleanRange(a + "," + b) == Lower(a + "." + b)
    ensures forall j :: |a| < j < |a| + 1 + |b| && b[j - |a| - 1] == ',' ==> CleanRange(a + "," + b)[j] == ','
  {
    ReplaceFirstSplit(a, b, ',', '.');
    assert a + [','] + b == a + "," + b;
    assert a + ['.'] + b == a + "." + b;
    forall j | |a| < j < |a| + 1 + |b| && b[j - |a| - 1] == ','
      ensures CleanRange(a + "," + b)[j] == ','
    {
      assert (a + "." + b)[j] == b[j - |a| - 1];
    }
  }

  /** A result that reads as a number, against a range holding no digit, dot
      or comma, matches none of the three patterns and gets no verdict. */
  lemma NumberlessRangeIsNeutral(valueStr: string, r: string)
    requires NumericValue(valueStr).Some?
    requires forall k :: 0 <= k < |r| ==> !InClass(r[k], DigitOrDot) && r[k] != ','
    ensures GetHealthStatus(valueStr, r) == Neutral
  {
    if !BlankRange(r) {
      ReplaceFirstAbsent(r, ',', '.');
      var c := CleanRange(r);
      assert c == Lower(r);
      assert forall k :: 0 <= k < |c| ==> !InClass(c[k], DigitOrDot) by {
        forall k | 0 <= k < |c| ensures !InClass(c[k], DigitOrDot) {
          assert c[k] == LowerChar(r[k]);
        }
      }
      NoNumberNoMatch(c, IntervalSeparators, LowerBoundWords);
      NoNumberNoMatch(c, IntervalSeparators, UpperBoundWords);
    }
  }

  // ---------------------------------------------------------------------------
  // What the classifier concludes for qualitative results
  // ---------------------------------------------------------------------------

  lemma {:induction false} ContainsAnyIff(v: string, patterns: seq<string>)
    ensures ContainsAny(v, patterns) <==> exists k :: 0 <= k < |patterns| && Contains(v, patterns[k])
    decreases |patterns|
  {
    if patterns != [] {
      ContainsAnyIff(v, patterns[1..]);
      if ContainsAny(v, patterns[1..]) {
        var k :| 0 <= k < |patterns[1..]| && Contains(v, patterns[1..][k]);
        assert Contains(v, patterns[k + 1]);
      }
      if exists k :: 0 <= k < |patterns| && Contains(v, patterns[k]) {
        var k :| 0 <= k < |patterns| && Contains(v, patterns[k]);
        if k > 0 { assert patterns[1..][k - 1] == patterns[k]; }
      }
    }
  }

  /** The qualitative decision: a healthy phrase anywhere wins; otherwise an
      unhealthy phrase means critical; otherwise an inconclusive phrase means
      informative; otherwise there is no verdict. */
  lemma TextStatusMeaning(v: string)
    ensures var healthy := exists k :: 0 <= k < |HealthyPatterns| && Contains(v, HealthyPatterns[k]);
      var unhealthy := exists k :: 0 <= k < |UnhealthyPatterns| && Contains(v, UnhealthyPatterns[k]);
      var info := exists k :: 0 <= k < |InfoPatterns| && Contains(v, InfoPatterns[k]);
      && (TextStatus(v) == Success <==> healthy)
      && (TextStatus(v) == Danger <==> !healthy && unhealthy)
      && (TextStatus(v) == Info <==> !healthy && !unhealthy && info)
      && (TextStatus(v) == Neutral <==> !healthy && !unhealthy && !info)
  {
    ContainsAnyIff(v, HealthyPatterns);
    ContainsAnyIff(v, UnhealthyPatterns);
    ContainsAnyIff(v, InfoPatterns);
  }

  /** A result with no digit is not a number, so against a non-blank range it
      is judged by the phrase table on its trimmed lower-case text. */
  lemma TextualVerdict(valueStr: string, r: string)
    requires !BlankRange(r) && NoDigit(valueStr)
    ensures GetHealthStatus(valueStr, r) == TextStatus(Trim(Lower(valueStr)))
  {
    ReplaceFirstSpec(valueStr, ',', '.');
    var t := ReplaceFirst(valueStr, ',', '.');
    forall j | 0 <= j < |t| ensures !IsDigit(t[j]) {
      if j != IndexOf(valueStr, ',') { assert t[j] == valueStr[j]; }
    }
    ParseFloatNeedsDigit(t);
  }

  /** A text that neither starts nor ends with white space is its own trim. */
  lemma TrimNoEdgeSpace(s: string)
    requires s != [] && !IsSpace(s[0]) && !IsSpace(s[|s| - 1])
    ensures Trim(s) == s
  {
  }

  /** No digit anywhere in s. */
  predicate NoDigit(s: string) {
    forall j :: 0 <= j < |s| ==> !IsDigit(s[j])
  }

  lemma AbnormalNormalised()
    ensures NoDigit("ANORMAL") && Trim(Lower("ANORMAL")) == "anormal"
  {
    assert Lower("ANORMAL") == "anormal";
    TrimNoEdgeSpace("anormal");
  }

  lemma AbnormalPhrase()
    ensures TextStatus("anormal") == Success
  {
    assert "anormal"[1..7] == "normal";
    ContainsAt("anormal", "normal", 1);
    assert Contains("anormal", HealthyPatterns[3]);
    TextStatusMeaning("anormal");
  }

  /** "ANORMAL" contains "normal", and healthy phrases are checked first:
      it is read as normal. */
  lemma AbnormalReadsNormal(r: string)
    requires !BlankRange(r)
    ensures GetHealthStatus("ANORMAL", r) == Success
  {
    AbnormalNormalised();
    TextualVerdict("ANORMAL", r);
    AbnormalPhrase();
  }

  lemma NonReactiveNormalised()
    ensures NoDigit("NÃO REAGENTE") && Trim(Lower("NÃO REAGENTE")) == "não reagente"
  {
    assert Lower("NÃO REAGENTE") == "não reagente";
    TrimNoEdgeSpace("não reagente");
  }

  lemma NonReactivePhrase()
    ensures TextStatus("não reagente") == Success
  {
    ContainsAt("não reagente", HealthyPatterns[0], 0);
    TextStatusMeaning("não reagente");
  }

  /** "NÃO REAGENTE" is normal, although it contains "reagente". */
  lemma NonReactiveIsNormal(r: string)
    requires !BlankRange(r)
    ensures GetHealthStatus("NÃO REAGENTE", r) == Success
  {
    NonReactiveNormalised();
    TextualVerdict("NÃO REAGENTE", r);
    NonReactivePhrase();
  }

  lemma NotDetectedNormalised()
    ensures NoDigit("NÃO DETECTADO") && Trim(Lower("NÃO DETECTADO")) == "não detectado"
  {
    assert Lower("NÃO DETECTADO") == "não detectado";
    TrimNoEdgeSpace("não detectado");
  }

  lemma NotDetectedPhrase()
    ensures TextStatus("não detectado") == Success
  {
    ContainsAt("não detectado", HealthyPatterns[4], 0);
    TextStatusMeaning("não detectado");
  }

  /** "NÃO DETECTADO" is normal, although it contains "detectado". */
  lemma NotDetectedIsNormal(r: string)
    requires !BlankRange(r)
    ensures GetHealthStatus("NÃO DETECTADO", r) == Success
  {
    NotDetectedNormalised();
    TextualVerdict("NÃO DETECTADO", r);
    NotDetectedPhrase();
  }

  lemma ReactiveNormalised()
    ensures NoDigit("REAGENTE") && Trim(Lower("REAGENTE")) == "reagente"
  {
    assert Lower("REAGENTE") == "reagente";
    TrimNoEdgeSpace("reagente");
  }

  /** Each pattern holds a character (at the given index) that v lacks, so
      none of them occurs in v. */
  lemma NoneContained(v: string, patterns: seq<string>, at: seq<nat>)
    requires |at| == |patterns|
    requires forall k :: 0 <= k < |patterns| ==> at[k] < |patterns[k]| && patterns[k][at[k]] !in v
    ensures forall k :: 0 <= k < |patterns| ==> !Contains(v, patterns[k])
  {
    forall k | 0 <= k < |patterns| ensures !Contains(v, patterns[k]) {
      MissingCharNotContained(v, patterns[k], at[k]);
    }
  }

  lemma ReactivePhrase()
    ensures TextStatus("reagente") == Danger
  {
    var v := "reagente";
    NoneContained(v, HealthyPatterns, [1, 5, 1, 1, 1]);
    ContainsAt(v, UnhealthyPatterns[0], 0);
    TextStatusMeaning(v);
  }

  /** "REAGENTE" alone is critical. */
  lemma ReactiveIsCritical(r: string)
    requires !BlankRange(r)
    ensures GetHealthStatus("REAGENTE", r) == Danger
  {
    ReactiveNormalised();
    TextualVerdict("REAGENTE", r);
    ReactivePhrase();
  }

  lemma IndeterminateNormalised()
    ensures NoDigit("INDETERMINADO") && Trim(Lower("INDETERMINADO")) == "indeterminado"
  {
    assert Lower("INDETERMINADO") == "indeterminado";
    TrimNoEdgeSpace("indeterminado");
  }

  lemma IndeterminateNotHealthy()
    ensures forall k :: 0 <= k < |HealthyPatterns| ==> !Contains("indeterminado", HealthyPatterns[k])
  {
    NoneContained("indeterminado", HealthyPatterns, [1, 2, 1, 5, 1]);
  }

  lemma IndeterminateNotUnhealthy()
    ensures forall k :: 0 <= k < |UnhealthyPatterns| ==> !Contains("indeterminado", UnhealthyPatterns[k])
  {
    NoneContained("indeterminado", UnhealthyPatterns, [3, 0, 0, 1, 4]);
  }

  lemma IndeterminatePhrase()
    ensures TextStatus("indeterminado") == Info
  {
    IndeterminateNotHealthy();
    IndeterminateNotUnhealthy();
    ContainsAt("indeterminado", InfoPatterns[0], 0);
    TextStatusMeaning("indeterminado");
  }

  /** "INDETERMINADO" is informative. */
  lemma IndeterminateIsInfo(r: string)
    requires !BlankRange(r)
    ensures GetHealthStatus("INDETERMINADO", r) == Info
  {
    IndeterminateNormalised();
    TextualVerdict("INDETERMINADO", r);
    IndeterminatePhrase();
  }
}
