/** String primitives shared by the forecast grammar and the feed code: the
    slices of Rust's `str` API and of nom's `bytes`/`character` parsers that
    the core uses. Strings are sequences of Unicode scalar values; positions
    are character positions. */
module Text {

  datatype Option<+T> = None | Some(value: T)

  /** What a nom parser returns: the unconsumed remainder and a value, a
      recoverable error, or (only for the `expect` in the older grammar) a
      panic that aborts the caller. */
  datatype IResult<+T> = Done(rest: string, value: T) | Fail | Panic

  /** A finished parse is determined by its remainder and its value. */
  lemma DoneOf<T>(r: IResult<T>, rest: string, v: T)
    requires r.Done? && r.rest == rest && r.value == v
    ensures r == Done(rest, v)
  {
  }

  /** `rest` is what is left of `s` after a prefix was consumed. */
  predicate IsSuffix(rest: string, s: string) {
    |rest| <= |s| && s[|s| - |rest|..] == rest
  }

  lemma SuffixTransitive(a: string, b: string, c: string)
    requires IsSuffix(a, b) && IsSuffix(b, c)
    ensures IsSuffix(a, c)
  {
    assert c[|c| - |a|..] == c[|c| - |b|..][|b| - |a|..];
  }

  predicate StartsWith(s: string, p: string) {
    |p| <= |s| && s[..|p|] == p
  }

  predicate OccursAt(s: string, p: string, i: int) {
    0 <= i && i + |p| <= |s| && s[i..i + |p|] == p
  }

  predicate Contains(s: string, p: string) {
    exists i :: 0 <= i <= |s| && OccursAt(s, p, i)
  }

  lemma Associate3(a: string, b: string, c: string)
    ensures a + b + c == a + (b + c)
  {
  }

  /** An occurrence at `i` is a prefix of the text from `i` on. */
  lemma OccursAtStart(s: string, p: string, i: nat)
    requires i <= |s|
    ensures OccursAt(s, p, i) <==> StartsWith(s[i..], p)
  {
    if i + |p| <= |s| {
      assert s[i..][..|p|] == s[i..i + |p|];
    }
  }

  lemma StartsWithOccurs(s: string, p: string)
    ensures StartsWith(s, p) <==> OccursAt(s, p, 0)
  {
  }

  /** First occurrence of `p` at or after `from` (nom's `take_until`, Rust's `find`). */
  function FindFrom(s: string, p: string, from: nat): (r: Option<nat>)
    requires from <= |s|
    ensures r.Some? ==> from <= r.value && OccursAt(s, p, r.value)
    ensures r.Some? ==> forall j :: from <= j < r.value ==> !OccursAt(s, p, j)
    ensures r.None? ==> forall j :: from <= j ==> !OccursAt(s, p, j)
    decreases |s| - from
  {
    if from + |p| > |s| then None
    else if OccursAt(s, p, from) then Some(from)
    else FindFrom(s, p, from + 1)
  }

  function FindFirst(s: string, p: string): (r: Option<nat>)
    ensures r.None? <==> !Contains(s, p)
    ensures r.Some? ==> OccursAt(s, p, r.value) && forall j :: 0 <= j < r.value ==> !OccursAt(s, p, j)
  {
    FindFrom(s, p, 0)
  }

  /** Last occurrence of `p` at or before `hi` (Rust's `rfind` when `hi == |s|`). */
  function FindLastUpTo(s: string, p: string, hi: nat): (r: Option<nat>)
    ensures r.Some? ==> r.value <= hi && OccursAt(s, p, r.value)
    ensures r.Some? ==> forall j :: r.value < j <= hi ==> !OccursAt(s, p, j)
    ensures r.None? ==> forall j :: 0 <= j <= hi ==> !OccursAt(s, p, j)
  {
    if OccursAt(s, p, hi) then Some(hi)
    else if hi == 0 then None
    else FindLastUpTo(s, p, hi - 1)
  }

  function FindLast(s: string, p: string): (r: Option<nat>)
    ensures r.None? <==> !Contains(s, p)
    ensures r.Some? ==> OccursAt(s, p, r.value) && forall j :: r.value < j ==> !OccursAt(s, p, j)
  {
    FindLastUpTo(s, p, |s|)
  }

  // ---------------------------------------------------------------------
  // Character classes

  /** Rust's `char::is_whitespace` (the Unicode White_Space property). */
  predicate IsWhitespace(c: char) {
    c == ' ' || c == '\t' || c == '\n' || c == '\r' || c == '\U{000B}' || c == '\U{000C}'
    || c == '\U{0085}' || c == '\U{00A0}' || c == '\U{1680}'
    || ('\U{2000}' <= c <= '\U{200A}')
    || c == '\U{2028}' || c == '\U{2029}' || c == '\U{202F}' || c == '\U{205F}' || c == '\U{3000}'
  }

  /** nom's `space0` accepts spaces and tabs only. */
  predicate IsBlank(c: char) {
    c == ' ' || c == '\t'
  }

  /** nom's `digit1` accepts ASCII digits only. */
  predicate IsDigit(c: char) {
    '0' <= c <= '9'
  }

  predicate AllBlank(s: string) {
    forall i :: 0 <= i < |s| ==> IsBlank(s[i])
  }

  predicate AllDigits(s: string) {
    forall i :: 0 <= i < |s| ==> IsDigit(s[i])
  }

  predicate AllWhitespace(s: string) {
    forall i :: 0 <= i < |s| ==> IsWhitespace(s[i])
  }

  /** Length of the run of blanks at the start of `s` (what `space0` consumes). */
  function BlankRun(s: string): (n: nat)
    ensures n <= |s| && AllBlank(s[..n])
    ensures n < |s| ==> !IsBlank(s[n])
  {
    if s == [] || !IsBlank(s[0]) then 0
    else
      var n := 1 + BlankRun(s[1..]);
      assert forall i :: 1 <= i < n ==> s[..n][i] == s[1..][..n - 1][i - 1];
      n
  }

  /** Length of the run of digits at the start of `s` (what `digit1` consumes when non-zero). */
  function DigitRun(s: string): (n: nat)
    ensures n <= |s| && AllDigits(s[..n])
    ensures n < |s| ==> !IsDigit(s[n])
  {
    if s == [] || !IsDigit(s[0]) then 0
    else
      var n := 1 + DigitRun(s[1..]);
      assert forall i :: 1 <= i < n ==> s[..n][i] == s[1..][..n - 1][i - 1];
      n
  }

  /** The two run functions are determined by their contracts. */
  lemma BlankRunOf(blanks: string, rest: string)
    requires AllBlank(blanks)
    requires rest == [] || !IsBlank(rest[0])
    ensures BlankRun(blanks + rest) == |blanks|
  {
    var s := blanks + rest;
    assert forall k :: 0 <= k < |blanks| ==> s[k] == blanks[k];
    assert |s| > |blanks| ==> s[|blanks|] == rest[0];
    assert forall k :: 0 <= k < BlankRun(s) ==> s[..BlankRun(s)][k] == s[k];
  }

  lemma DigitRunOf(digits: string, rest: string)
    requires AllDigits(digits)
    requires rest == [] || !IsDigit(rest[0])
    ensures DigitRun(digits + rest) == |digits|
  {
    var s := digits + rest;
    assert forall k :: 0 <= k < |digits| ==> s[k] == digits[k];
    assert |s| > |digits| ==> s[|digits|] == rest[0];
    assert forall k :: 0 <= k < DigitRun(s) ==> s[..DigitRun(s)][k] == s[k];
  }

  // ---------------------------------------------------------------------
  // Decimal numerals

  function DigitValue(c: char): nat
    requires IsDigit(c)
  {
    c as int - '0' as int
  }

  function DigitChar(d: nat): (c: char)
    requires d < 10
    ensures IsDigit(c) && DigitValue(c) == d
  {
    ('0' as int + d) as char
  }

  /** The value of a digit string, as Rust's `str::parse` reads it (leading zeros allowed). */
  function DigitsValue(ds: string): nat
    requires AllDigits(ds)
    decreases |ds|
  {
    if ds == [] then 0
    else DigitsValue(ds[..|ds| - 1]) * 10 + DigitValue(ds[|ds| - 1])
  }

  /** The decimal numeral of `n`, without leading zeros. */
  function ShowNat(n: nat): (r: string)
    ensures |r| > 0 && AllDigits(r) && DigitsValue(r) == n
  {
    if n < 10 then [DigitChar(n)]
    else
      var r := ShowNat(n / 10) + [DigitChar(n % 10)];
      assert r[..|r| - 1] == ShowNat(n / 10);
      r
  }

  /** The value of the digits after a decimal point: `.25` is 2/10 + 5/100. */
  function FractionValue(ds: string): (r: real)
    requires AllDigits(ds)
    ensures 0.0 <= r <= 1.0
  {
    if ds == [] then 0.0
    else (DigitValue(ds[0]) as real + FractionValue(ds[1..])) / 10.0
  }

  // ---------------------------------------------------------------------
  // Trimming (Rust's `str::trim`)

  /** Index of the first non-whitespace character at or after `lo`, or `|s|`. */
  function TrimStart(s: string, lo: nat): (i: nat)
    requires lo <= |s|
    ensures lo <= i <= |s|
    ensures forall k :: lo <= k < i ==> IsWhitespace(s[k])
    ensures i < |s| ==> !IsWhitespace(s[i])
    decreases |s| - lo
  {
    if lo == |s| || !IsWhitespace(s[lo]) then lo else TrimStart(s, lo + 1)
  }

  /** One past the last non-whitespace character in `s[lo..hi]`, or `lo`. */
  function TrimEnd(s: string, lo: nat, hi: nat): (j: nat)
    requires lo <= hi <= |s|
    ensures lo <= j <= hi
    ensures forall k :: j <= k < hi ==> IsWhitespace(s[k])
    ensures j > lo ==> !IsWhitespace(s[j - 1])
  {
    if hi == lo || !IsWhitespace(s[hi - 1]) then hi else TrimEnd(s, lo, hi - 1)
  }

  predicate IsTrimmed(t: string) {
    t == [] || (!IsWhitespace(t[0]) && !IsWhitespace(t[|t| - 1]))
  }

  function Trim(s: string): (r: string)
    ensures |r| <= |s| && IsTrimmed(r)
  {
    var i := TrimStart(s, 0);
    var j := TrimEnd(s, i, |s|);
    assert j > i ==> s[i..j][0] == s[i];
    s[i..j]
  }

  /** Trim removes exactly the surrounding whitespace and nothing else. */
  lemma {:induction false} TrimWrapped(a: string, t: string, b: string)
    requires AllWhitespace(a) && AllWhitespace(b) && IsTrimmed(t)
    ensures Trim(a + t + b) == t
  {
    var s := a + t + b;
    assert forall k :: 0 <= k < |a| ==> s[k] == a[k];
    assert forall k :: |a| + |t| <= k < |s| ==> s[k] == b[k - |a| - |t|];
    var i := TrimStart(s, 0);
    if t == [] {
      assert i == |s|;
    } else {
      assert s[|a|] == t[0];
      assert s[|a| + |t| - 1] == t[|t| - 1];
      assert i == |a|;
      var j := TrimEnd(s, i, |s|);
      assert j == |a| + |t|;
      assert s[i..j] == t;
    }
  }

  lemma TrimIdempotent(s: string)
    ensures Trim(Trim(s)) == Trim(s)
  {
    TrimWrapped([], Trim(s), []);
    assert [] + Trim(s) + [] == Trim(s);
  }

  // ---------------------------------------------------------------------
  // Replacement (Rust's `str::replace`: leftmost, non-overlapping matches)

  function ReplaceAll(s: string, p: string, rep: string): string
    requires |p| > 0
    decreases |s|
  {
    if |s| < |p| then s
    else if StartsWith(s, p) then rep + ReplaceAll(s[|p|..], p, rep)
    else [s[0]] + ReplaceAll(s[1..], p, rep)
  }

  lemma OccursShift(s: string, p: string, k: nat, i: int)
    requires k <= |s| && 0 <= i
    ensures OccursAt(s[k..], p, i) <==> OccursAt(s, p, i + k)
  {
    if 0 <= i && i + |p| <= |s| - k {
      assert s[k..][i..i + |p|] == s[i + k..i + k + |p|];
    }
  }

  /** A string with no occurrence of the pattern is left as it is. */
  lemma {:induction false} ReplaceAllAbsent(s: string, p: string, rep: string)
    requires |p| > 0 && !Contains(s, p)
    ensures ReplaceAll(s, p, rep) == s
  {
    if |s| >= |p| {
      assert !OccursAt(s, p, 0);
      forall i | OccursAt(s[1..], p, i) ensures false {
        OccursShift(s, p, 1, i);
      }
      ReplaceAllAbsent(s[1..], p, rep);
      assert [s[0]] + s[1..] == s;
    }
  }

  /** Text before the first occurrence is copied; each leading occurrence becomes `rep`. */
  lemma {:induction false} ReplaceAllSplit(a: string, p: string, rep: string, t: string)
    requires |p| > 0
    requires forall i :: 0 <= i < |a| ==> !OccursAt(a + p + t, p, i)
    ensures ReplaceAll(a + p + t, p, rep) == a + rep + ReplaceAll(t, p, rep)
  {
    var s := a + p + t;
    if a == [] {
      assert s == p + t && StartsWith(s, p);
      assert s[|p|..] == t;
    } else {
      assert !OccursAt(s, p, 0);
      assert s[1..] == a[1..] + p + t;
      forall i | 0 <= i < |a[1..]| ensures !OccursAt(a[1..] + p + t, p, i) {
        OccursShift(s, p, 1, i);
      }
      ReplaceAllSplit(a[1..], p, rep, t);
      assert [s[0]] + (a[1..] + rep + ReplaceAll(t, p, rep)) == a + rep + ReplaceAll(t, p, rep);
    }
  }
}
