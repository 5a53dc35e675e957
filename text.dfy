/**
 * String primitives shared by the model: the subset of Rust's `str` API
 * (`find`, `contains`, `replace`, `trim`, `lines`, `split`,
 * `split_whitespace`, `parse::<uN>`) and of Python's `str` API (`lower`)
 * that the modelled code uses, each written out over `seq<char>`.
 */
module Text {

  datatype Option<+T> = None | Some(value: T) {
    function GetOr(default: T): T {
      match this
      case Some(v) => v
      case None => default
    }
  }

  datatype Result<+T, +E> = Ok(value: T) | Err(error: E)

  // ---------------------------------------------------------------------------
  // Prefixes, suffixes and occurrences
  // ---------------------------------------------------------------------------

  predicate StartsWith(s: string, p: string) {
    |p| <= |s| && s[..|p|] == p
  }

  predicate EndsWith(s: string, p: string) {
    |p| <= |s| && s[|s| - |p|..] == p
  }

  /** `p` occurs in `s` starting at index `i`. */
  predicate OccursAt(s: string, p: string, i: int) {
    0 <= i && i + |p| <= |s| && s[i..i + |p|] == p
  }

  /** Rust's `s[from..].find(p)`, as an absolute index: the first occurrence at or after `from`. */
  function FindFrom(s: string, p: string, from: nat): (r: Option<nat>)
    requires from <= |s|
    ensures r.Some? ==> from <= r.value && OccursAt(s, p, r.value)
    ensures r.Some? ==> forall j :: from <= j < r.value ==> !OccursAt(s, p, j)
    ensures r.None? ==> forall j :: from <= j ==> !OccursAt(s, p, j)
    decreases |s| - from
  {
    if from + |p| > |s| then None
    else if s[from..from + |p|] == p then Some(from)
    else if from == |s| then None
    else FindFrom(s, p, from + 1)
  }

  /** Rust's `s.find(p)`: the index of the first occurrence. */
  function Find(s: string, p: string): Option<nat> {
    FindFrom(s, p, 0)
  }

  /** Rust's `s.contains(p)`. */
  predicate Contains(s: string, p: string) {
    Find(s, p).Some?
  }

  lemma ContainsIffOccurs(s: string, p: string)
    ensures Contains(s, p) <==> exists i :: OccursAt(s, p, i)
  {
    if Contains(s, p) {
      assert OccursAt(s, p, Find(s, p).value);
    }
  }

  lemma OccursGivesContains(s: string, p: string, i: int)
    requires OccursAt(s, p, i)
    ensures Contains(s, p)
  {
    ContainsIffOccurs(s, p);
  }

  /** An occurrence in a piece is an occurrence in any text that contains the piece at an offset. */
  lemma OccursInConcat(a: string, b: string, c: string, p: string, i: int)
    requires OccursAt(b, p, i)
    ensures OccursAt(a + b + c, p, |a| + i)
  {
    var t := a + b + c;
    forall k | 0 <= k < |p|
      ensures t[|a| + i + k] == p[k]
    {
      assert t[|a| + i + k] == b[i + k] == b[i..i + |p|][k];
    }
    assert t[|a| + i..|a| + i + |p|] == p;
  }

  lemma ContainsInLeft(a: string, b: string, p: string)
    requires Contains(a, p)
    ensures Contains(a + b, p)
  {
    var i := Find(a, p).value;
    OccursInConcat([], a, b, p, i);
    assert [] + a + b == a + b;
    OccursGivesContains(a + b, p, i);
  }

  lemma ContainsInRight(a: string, b: string, p: string)
    requires Contains(b, p)
    ensures Contains(a + b, p)
  {
    var i := Find(b, p).value;
    OccursInConcat(a, b, [], p, i);
    assert a + b + [] == a + b;
    OccursGivesContains(a + b, p, |a| + i);
  }

  lemma ContainsInTail(s: string, p: string)
    requires |s| > 0 && Contains(s[1..], p)
    ensures Contains(s, p)
  {
    var i := Find(s[1..], p).value;
    assert s[1..][i..i + |p|] == s[i + 1..i + 1 + |p|];
    OccursGivesContains(s, p, i + 1);
  }

  // ---------------------------------------------------------------------------
  // Replace-all
  // ---------------------------------------------------------------------------

  /**
   * Rust's `s.replace(p, r)` for a non-empty pattern: every non-overlapping
   * occurrence of `p`, scanning left to right, is replaced by `r`.
   */
  function ReplaceAll(s: string, p: string, r: string): string
    requires |p| > 0
    decreases |s|
  {
    if |s| < |p| then s
    else if s[..|p|] == p then r + ReplaceAll(s[|p|..], p, r)
    else [s[0]] + ReplaceAll(s[1..], p, r)
  }

  /** Replacing a pattern that does not occur leaves the text unchanged. */
  lemma {:induction false} ReplaceAllAbsent(s: string, p: string, r: string)
    requires |p| > 0 && !Contains(s, p)
    ensures ReplaceAll(s, p, r) == s
  {
    if |s| < |p| {
    } else if s[..|p|] == p {
      OccursGivesContains(s, p, 0);
    } else {
      if Contains(s[1..], p) {
        ContainsInTail(s, p);
      }
      ReplaceAllAbsent(s[1..], p, r);
    }
  }

  /** When the pattern occurs, whatever the replacement contains ends up in the result. */
  lemma {:induction false} ReplaceAllKeepsReplacement(s: string, p: string, r: string, w: string)
    requires |p| > 0 && Contains(s, p) && Contains(r, w)
    ensures Contains(ReplaceAll(s, p, r), w)
    decreases |s|
  {
    var i := Find(s, p).value;
    if s[..|p|] == p {
      ContainsInLeft(r, ReplaceAll(s[|p|..], p, r), w);
    } else {
      assert i > 0 && OccursAt(s, p, i);
      assert s[1..][i - 1..i - 1 + |p|] == s[i..i + |p|];
      OccursGivesContains(s[1..], p, i - 1);
      ReplaceAllKeepsReplacement(s[1..], p, r, w);
      ContainsInRight([s[0]], ReplaceAll(s[1..], p, r), w);
    }
  }

  lemma OccursInTail(s: string, p: string, j: int)
    requires |s| > 0 && 0 <= j
    ensures OccursAt(s[1..], p, j) <==> OccursAt(s, p, j + 1)
  {
    if j + |p| <= |s| - 1 {
      assert s[1..][j..j + |p|] == s[j + 1..j + 1 + |p|];
    }
  }

  /** Where the pattern does not start, the first character is copied. */
  lemma ReplaceAllSkipFirst(s: string, p: string, r: string)
    requires |p| > 0 && |p| < |s| && !OccursAt(s, p, 0)
    ensures ReplaceAll(s, p, r) == [s[0]] + ReplaceAll(s[1..], p, r)
  {
  }

  /** Dropping the first character shifts every occurrence one place to the left. */
  lemma ShiftOccurrences(s: string, p: string, k: nat)
    requires 0 < k && OccursAt(s, p, k)
    requires forall j :: 0 <= j < k ==> !OccursAt(s, p, j)
    ensures OccursAt(s[1..], p, k - 1)
    ensures forall j :: 0 <= j < k - 1 ==> !OccursAt(s[1..], p, j)
  {
    forall j | 0 <= j < k - 1
      ensures !OccursAt(s[1..], p, j)
    {
      OccursInTail(s, p, j);
    }
    OccursInTail(s, p, k - 1);
  }

  /** Sequence algebra of one step, with the replaced texts as plain values. */
  lemma StepAlgebra(s: string, k: nat, r: string, z: string, x: string, y: string)
    requires 0 < k <= |s|
    requires z == [s[0]] + x && x == s[1..][..k - 1] + r + y
    ensures z == s[..k] + r + y
  {
    assert [s[0]] + s[1..][..k - 1] == s[..k];
  }

  lemma LeftmostAtStart(s: string, p: string, r: string)
    requires |p| > 0 && OccursAt(s, p, 0)
    ensures ReplaceAll(s, p, r) == s[..0] + r + ReplaceAll(s[|p|..], p, r)
  {
    assert s[..|p|] == p;
    assert s[..0] + r == r;
  }

  lemma LeftmostStep(s: string, p: string, r: string, k: nat)
    requires |p| > 0 && 0 < k && k + |p| <= |s| && !OccursAt(s, p, 0)
    requires ReplaceAll(s[1..], p, r) == s[1..][..k - 1] + r + ReplaceAll(s[1..][k - 1 + |p|..], p, r)
    ensures ReplaceAll(s, p, r) == s[..k] + r + ReplaceAll(s[k + |p|..], p, r)
  {
    ReplaceAllSkipFirst(s, p, r);
    assert s[1..][k - 1 + |p|..] == s[k + |p|..];
    StepAlgebra(s, k, r, ReplaceAll(s, p, r), ReplaceAll(s[1..], p, r), ReplaceAll(s[k + |p|..], p, r));
  }

  /**
   * The leftmost occurrence is the first one replaced: when `p` first occurs
   * at index `k`, the text before it is copied and scanning resumes after it.
   */
  lemma {:induction false} ReplaceAllLeftmost(s: string, p: string, r: string, k: nat)
    requires |p| > 0 && OccursAt(s, p, k)
    requires forall j :: 0 <= j < k ==> !OccursAt(s, p, j)
    ensures ReplaceAll(s, p, r) == s[..k] + r + ReplaceAll(s[k + |p|..], p, r)
    decreases k, 1
  {
    if k == 0 {
      LeftmostAtStart(s, p, r);
    } else {
      LeftmostAfterFirst(s, p, r, k);
    }
  }

  /** The inductive step: the first character is copied and the rest is scanned. */
  lemma {:induction false} LeftmostAfterFirst(s: string, p: string, r: string, k: nat)
    requires |p| > 0 && 0 < k && OccursAt(s, p, k)
    requires forall j :: 0 <= j < k ==> !OccursAt(s, p, j)
    ensures ReplaceAll(s, p, r) == s[..k] + r + ReplaceAll(s[k + |p|..], p, r)
    decreases k, 0
  {
    assert !OccursAt(s, p, 0);
    ShiftOccurrences(s, p, k);
    ReplaceAllLeftmost(s[1..], p, r, k - 1);
    LeftmostStep(s, p, r, k);
  }

  // ---------------------------------------------------------------------------
  // Whitespace and trimming
  // ---------------------------------------------------------------------------

  /** Rust's `char::is_whitespace`: the Unicode White_Space property. */
  predicate IsWhitespace(c: char) {
    ('\t' <= c <= '\r') || c == ' ' || c == '\U{85}' || c == '\U{A0}' || c == '\U{1680}'
    || ('\U{2000}' <= c <= '\U{200A}') || c == '\U{2028}' || c == '\U{2029}'
    || c == '\U{202F}' || c == '\U{205F}' || c == '\U{3000}'
  }

  /** Rust's `trim_start`. */
  function TrimStart(s: string): (r: string)
    ensures |r| <= |s| && r == s[|s| - |r|..]
    ensures forall i :: 0 <= i < |s| - |r| ==> IsWhitespace(s[i])
    ensures r == [] || !IsWhitespace(r[0])
  {
    if |s| > 0 && IsWhitespace(s[0]) then TrimStart(s[1..]) else s
  }

  /** Rust's `trim_end`. */
  function TrimEnd(s: string): (r: string)
    ensures |r| <= |s| && r == s[..|r|]
    ensures forall i :: |r| <= i < |s| ==> IsWhitespace(s[i])
    ensures r == [] || !IsWhitespace(r[|r| - 1])
  {
    if |s| > 0 && IsWhitespace(s[|s| - 1]) then TrimEnd(s[..|s| - 1]) else s
  }

  /** Rust's `trim`. */
  function Trim(s: string): string {
    TrimEnd(TrimStart(s))
  }

  /** Text without leading or trailing whitespace is its own trim. */
  lemma TrimOfTrimmed(s: string)
    requires s == [] || (!IsWhitespace(s[0]) && !IsWhitespace(s[|s| - 1]))
    ensures Trim(s) == s
  {
  }

  // ---------------------------------------------------------------------------
  // Splitting
  // ---------------------------------------------------------------------------

  /** Rust's `s.split(c)` for a single character: always at least one piece. */
  function Split(s: string, c: char): (parts: seq<string>)
    ensures |parts| >= 1
    ensures forall k :: 0 <= k < |parts| ==> c !in parts[k]
    decreases |s|
  {
    if c in s then
      var i := IndexOfChar(s, c);
      [s[..i]] + Split(s[i + 1..], c)
    else [s]
  }

  function IndexOfChar(s: string, c: char): (i: nat)
    requires c in s
    ensures i < |s| && s[i] == c && c !in s[..i]
  {
    if s[0] == c then 0 else 1 + IndexOfChar(s[1..], c)
  }

  /** The inverse of `Split`: the pieces glued back with the separator. */
  function Join(parts: seq<string>, c: char): string
    requires |parts| >= 1
  {
    if |parts| == 1 then parts[0] else parts[0] + [c] + Join(parts[1..], c)
  }

  lemma {:induction false} JoinSplit(s: string, c: char)
    ensures Join(Split(s, c), c) == s
    decreases |s|
  {
    if c in s {
      var i := IndexOfChar(s, c);
      var parts := Split(s, c);
      var rest := Split(s[i + 1..], c);
      assert parts == [s[..i]] + rest;
      JoinSplit(s[i + 1..], c);
      assert parts[1..] == rest;
      assert |parts| > 1;
      assert Join(parts, c) == s[..i] + [c] + Join(rest, c);
      assert s == s[..i] + [c] + s[i + 1..];
    } else {
      assert Split(s, c) == [s];
    }
  }

  /** The number of pieces is one more than the number of separators. */
  function CountChar(s: string, c: char): nat {
    if s == [] then 0 else (if s[0] == c then 1 else 0) + CountChar(s[1..], c)
  }

  lemma {:induction false} CountCharAppend(a: string, b: string, c: char)
    ensures CountChar(a + b, c) == CountChar(a, c) + CountChar(b, c)
  {
    if a != [] {
      assert (a + b)[1..] == a[1..] + b;
      CountCharAppend(a[1..], b, c);
    } else {
      assert a + b == b;
    }
  }

  lemma CountCharAbsent(s: string, c: char)
    requires c !in s
    ensures CountChar(s, c) == 0
  {
  }

  lemma {:induction false} SplitCount(s: string, c: char)
    ensures |Split(s, c)| == CountChar(s, c) + 1
    decreases |s|
  {
    if c in s {
      var i := IndexOfChar(s, c);
      SplitCount(s[i + 1..], c);
      assert |Split(s, c)| == 1 + |Split(s[i + 1..], c)|;
      CountAtFirst(s, i, c);
    } else {
      CountCharAbsent(s, c);
    }
  }

  /** The first `c` at `i` counts once more than those after it. */
  lemma CountAtFirst(s: string, i: nat, c: char)
    requires i < |s| && s[i] == c && c !in s[..i]
    ensures CountChar(s, c) == CountChar(s[i + 1..], c) + 1
  {
    assert s == s[..i] + [c] + s[i + 1..];
    CountCharAppend(s[..i] + [c], s[i + 1..], c);
    CountCharAppend(s[..i], [c], c);
    CountCharAbsent(s[..i], c);
  }

  /**
   * Rust's `s.lines()`: split at '\n'; a final line ending does not start an
   * extra empty line. (A '\r' before the '\n' stays on the line here; every
   * caller in the model trims lines, which removes it.)
   */
  function Lines(s: string): seq<string> {
    var parts := Split(s, '\n');
    if parts[|parts| - 1] == [] then parts[..|parts| - 1] else parts
  }

  /** The text with leading `c` characters removed (Rust's `trim_start_matches(c)`). */
  function TrimStartChar(s: string, c: char): (r: string)
    ensures |r| <= |s| && r == s[|s| - |r|..]
    ensures r == [] || r[0] != c
    ensures forall i :: 0 <= i < |s| - |r| ==> s[i] == c
  {
    if |s| > 0 && s[0] == c then TrimStartChar(s[1..], c) else s
  }

  /** The maximal run of non-whitespace characters at the start of `s`. */
  function TakeWord(s: string): (w: string)
    ensures |w| <= |s| && w == s[..|w|]
    ensures forall i :: 0 <= i < |w| ==> !IsWhitespace(w[i])
    ensures |w| == |s| || IsWhitespace(s[|w|])
  {
    if |s| == 0 || IsWhitespace(s[0]) then [] else [s[0]] + TakeWord(s[1..])
  }

  /** Rust's `s.split_whitespace().next()`. */
  function FirstWord(s: string): (r: Option<string>)
    ensures r.Some? ==> r.value != [] && forall i :: 0 <= i < |r.value| ==> !IsWhitespace(r.value[i])
    ensures r.None? <==> forall i :: 0 <= i < |s| ==> IsWhitespace(s[i])
  {
    var t := TrimStart(s);
    if t == [] then None else Some(TakeWord(t))
  }

  /** ASCII lower-casing (Rust's `to_lowercase` and Python's `lower` restricted to ASCII). */
  function LowerChar(c: char): char {
    if 'A' <= c <= 'Z' then (c as int + 32) as char else c
  }

  function ToLower(s: string): (r: string)
    ensures |r| == |s| && forall i :: 0 <= i < |s| ==> r[i] == LowerChar(s[i])
  {
    if s == [] then [] else [LowerChar(s[0])] + ToLower(s[1..])
  }

  // ---------------------------------------------------------------------------
  // Decimal numbers
  // ---------------------------------------------------------------------------

  predicate IsDigit(c: char) {
    '0' <= c <= '9'
  }

  predicate AllDigits(s: string) {
    forall i :: 0 <= i < |s| ==> IsDigit(s[i])
  }

  function DigitValue(c: char): nat
    requires IsDigit(c)
  {
    c as int - '0' as int
  }

  function DigitChar(d: nat): (c: char)
    requires d < 10
    ensures IsDigit(c) && DigitValue(c) == d
  {
    ('0' as int + d) as char
  }

  /** The value of a string of decimal digits, most significant first. */
  function DigitsValue(s: string): nat
    requires AllDigits(s)
  {
    if s == [] then 0 else 10 * DigitsValue(s[..|s| - 1]) + DigitValue(s[|s| - 1])
  }

  /** Rust's `n.to_string()` for an unsigned integer. */
  function NatToDecimal(n: nat): (s: string)
    ensures |s| >= 1 && AllDigits(s)
  {
    if n < 10 then [DigitChar(n)] else NatToDecimal(n / 10) + [DigitChar(n % 10)]
  }

  /**
   * Rust's `s.parse::<uN>()` where `limit` is 2^N: an optional '+', then one
   * or more decimal digits whose value is below `limit`; anything else fails.
   */
  function ParseUnsigned(s: string, limit: nat): Option<nat> {
    var digits := if |s| > 0 && s[0] == '+' then s[1..] else s;
    if digits == [] || !AllDigits(digits) then None
    else if DigitsValue(digits) < limit then Some(DigitsValue(digits))
    else None
  }

  const U32_LIMIT: nat := 0x1_0000_0000
  const U64_LIMIT: nat := 0x1_0000_0000_0000_0000

  lemma {:induction false} DecimalValue(n: nat)
    ensures DigitsValue(NatToDecimal(n)) == n
  {
    if n >= 10 {
      var s := NatToDecimal(n);
      assert s[..|s| - 1] == NatToDecimal(n / 10);
      DecimalValue(n / 10);
    }
  }

  /** Printing a number and parsing it back (after a trim) gives the number. */
  lemma DecimalRoundTrip(n: nat, limit: nat)
    requires n < limit
    ensures Trim(NatToDecimal(n)) == NatToDecimal(n)
    ensures ParseUnsigned(Trim(NatToDecimal(n)), limit) == Some(n)
  {
    var s := NatToDecimal(n);
    assert IsDigit(s[0]) && IsDigit(s[|s| - 1]);
    TrimOfTrimmed(s);
    DecimalValue(n);
  }
}
