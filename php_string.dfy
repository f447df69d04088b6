/**
 * PHP's string built-ins as the controllers use them. A PHP string is a string of
 * bytes; here each `char` stands for one byte, so `strlen` is `|s|` and `substr`
 * counts bytes.
 */
module PhpString {
  import opened Wrappers

  // ---------------------------------------------------------------------------
  // empty() and truthiness
  // ---------------------------------------------------------------------------

  /** PHP's `empty($s)` (and `!$s`) on a string: true for "" and for "0". */
  predicate IsEmpty(s: string)
  {
    s == "" || s == "0"
  }

  /** Only the empty text and the one-byte "0" are empty(): a longer text never is. */
  lemma IsEmptyMeaning(s: string)
    ensures IsEmpty(s) ==> |s| <= 1
    ensures |s| == 1 ==> (IsEmpty(s) <==> s[0] == '0')
    ensures !IsEmpty(" 0") && !IsEmpty("00")
  {
  }

  /** `empty($x)` on a value that may be null or unset. */
  predicate IsEmptyOpt(x: Option<string>) {
    x.None? || IsEmpty(x.value)
  }

  // ---------------------------------------------------------------------------
  // trim()
  // ---------------------------------------------------------------------------

  /** The characters trim() removes by default: space, tab, LF, CR, NUL and vertical tab. */
  predicate IsTrimSpace(c: char) {
    c == ' ' || c == '\t' || c == '\n' || c == '\r' || c == '\0' || c == '\U{000B}'
  }

  /** ltrim(): the suffix of `s` left after dropping the leading trim characters. */
  function TrimStart(s: string): (r: string)
    ensures |r| <= |s| && r == s[|s| - |r|..]
    ensures forall k :: 0 <= k < |s| - |r| ==> IsTrimSpace(s[k])
    ensures r == [] || !IsTrimSpace(r[0])
    decreases |s|
  {
    if |s| > 0 && IsTrimSpace(s[0]) then TrimStart(s[1..]) else s
  }

  /** rtrim(): the prefix of `s` left after dropping the trailing trim characters. */
  function TrimEnd(s: string): (r: string)
    ensures r <= s
    ensures forall k :: |r| <= k < |s| ==> IsTrimSpace(s[k])
    ensures r == [] || !IsTrimSpace(r[|r| - 1])
    decreases |s|
  {
    if |s| > 0 && IsTrimSpace(s[|s| - 1]) then TrimEnd(s[..|s| - 1]) else s
  }

  /** trim(): `s` without its leading and trailing trim characters. */
  function Trim(s: string): (r: string)
    ensures r == [] || (!IsTrimSpace(r[0]) && !IsTrimSpace(r[|r| - 1]))
    ensures exists i: nat :: TrimmedAt(s, r, i)
  {
    var t := TrimStart(s);
    var r := TrimEnd(t);
    TrimParts(s, t, r);
    r
  }

  /** `r` sits at offset `i` of `s`, and every byte of `s` around it is trim whitespace. */
  predicate TrimmedAt(s: string, r: string, i: nat) {
    OccursAt(s, r, i) && (forall k :: 0 <= k < i ==> IsTrimSpace(s[k]))
    && (forall k :: i + |r| <= k < |s| ==> IsTrimSpace(s[k]))
  }

  lemma TrimParts(s: string, t: string, r: string)
    requires t == TrimStart(s) && r == TrimEnd(t)
    ensures TrimmedAt(s, r, |s| - |t|)
  {
    WithinTrimmed(s, t, r);
  }

  /** A prefix `r` of a suffix `t` of `s`, with only trim whitespace cut from either, sits trimmed in `s`. */
  lemma WithinTrimmed(s: string, t: string, r: string)
    requires |t| <= |s| && t == s[|s| - |t|..]
    requires forall k :: 0 <= k < |s| - |t| ==> IsTrimSpace(s[k])
    requires r <= t
    requires forall k :: |r| <= k < |t| ==> IsTrimSpace(t[k])
    ensures TrimmedAt(s, r, |s| - |t|)
  {
    var i := |s| - |t|;
    assert t == s[i..];
    assert s[i..i + |r|] == t[..|r|] == r;
    forall k | i + |r| <= k < |s|
      ensures IsTrimSpace(s[k])
    {
      assert s[k] == t[k - i];
    }
  }

  /** trim() leaves a string it already trimmed as it is. */
  lemma TrimIdempotent(s: string)
    ensures Trim(Trim(s)) == Trim(s)
  {
    var r := Trim(s);
    assert TrimStart(r) == r;
    assert TrimEnd(r) == r;
  }

  /** A string that neither starts nor ends with a trim character is its own trim(). */
  lemma TrimOfUntrimmable(s: string)
    requires s == [] || (!IsTrimSpace(s[0]) && !IsTrimSpace(s[|s| - 1]))
    ensures Trim(s) == s
  {
    assert TrimStart(s) == s;
    assert TrimEnd(s) == s;
  }

  /** One space on each side of an untrimmable, non-empty text is what trim() removes. */
  lemma TrimPadded(x: string)
    requires x != [] && !IsTrimSpace(x[0]) && !IsTrimSpace(x[|x| - 1])
    ensures Trim(" " + x + " ") == x
  {
    var s := " " + x + " ";
    assert s[1..] == x + " ";
    assert TrimStart(x + " ") == x + " ";
    assert (x + " ")[..|x|] == x;
    assert TrimEnd(x) == x;
  }

  // ---------------------------------------------------------------------------
  // strpos(), stripos(), prefixes and suffixes
  // ---------------------------------------------------------------------------

  /** `p` is a prefix of `s`. */
  predicate StartsWith(s: string, p: string)
  {
    |p| <= |s| && s[..|p|] == p
  }

  /** `p` is a suffix of `s`. */
  predicate EndsWith(s: string, p: string) {
    |p| <= |s| && s[|s| - |p|..] == p
  }

  /** `p` occurs in `s` starting at byte position `i`. */
  predicate OccursAt(s: string, p: string, i: nat) {
    i + |p| <= |s| && s[i..i + |p|] == p
  }

  /** The first position at or after `from` where `p` occurs in `s`. */
  function IndexFrom(s: string, p: string, from: nat): (r: Option<nat>)
    ensures r.Some? ==> from <= r.value && OccursAt(s, p, r.value)
    ensures r.Some? ==> forall j :: from <= j < r.value ==> !OccursAt(s, p, j)
    ensures r.None? ==> forall j :: from <= j ==> !OccursAt(s, p, j)
    decreases |s| - from
  {
    if from + |p| > |s| then None
    else if s[from..from + |p|] == p then Some(from)
    else IndexFrom(s, p, from + 1)
  }

  /** strpos($s, $p): the first position of `p` in `s`, or None for PHP's `false`. */
  function IndexOf(s: string, p: string): (r: Option<nat>)
    ensures r.Some? ==> OccursAt(s, p, r.value) && forall j :: 0 <= j < r.value ==> !OccursAt(s, p, j)
    ensures r.None? ==> forall j :: !OccursAt(s, p, j)
  {
    IndexFrom(s, p, 0)
  }

  /** strpos($s, $c) for a one-byte needle. */
  function CharIndex(s: string, c: char): (r: Option<nat>)
    ensures r.None? <==> c !in s
    ensures r.Some? ==> r.value < |s| && s[r.value] == c && c !in s[..r.value]
    decreases |s|
  {
    if s == [] then None
    else if s[0] == c then Some(0)
    else
      var r := CharIndex(s[1..], c);
      if r.None? then None
      else
        assert s[..r.value + 1] == [s[0]] + s[1..][..r.value];
        Some(r.value + 1)
  }

  /** The first `c` of `a + [c] + t` is the one after `a` when `a` holds none. */
  lemma CharIndexAfter(a: string, c: char, t: string)
    requires c !in a
    ensures CharIndex(a + [c] + t, c) == Some(|a|)
  {
    var s := a + [c] + t;
    assert s[|a|] == c;
    var r := CharIndex(s, c);
    assert forall j :: 0 <= j < r.value ==> s[..r.value][j] == s[j];
    assert forall j :: 0 <= j < |a| ==> s[j] == a[j];
  }

  /** `strpos($s, $p) !== false`. */
  predicate Contains(s: string, p: string)
  {
    IndexOf(s, p).Some?
  }

  /**
   * strpos() finds `p` exactly when it occurs somewhere; a needle longer than the text
   * never occurs, and the empty needle is found (at 0, as PHP 8 answers).
   */
  lemma ContainsMeaning(s: string, p: string)
    ensures Contains(s, p) <==> exists j: nat :: OccursAt(s, p, j)
    ensures |p| > |s| ==> !Contains(s, p)
    ensures p == [] ==> Contains(s, p)
  {
    if p == [] {
      assert OccursAt(s, p, 0);
    }
  }

  /** A prefix occurs at 0, and so strpos() finds it. */
  lemma StartsWithMeaning(s: string, p: string)
    ensures StartsWith(s, p) <==> OccursAt(s, p, 0)
    ensures StartsWith(s, p) ==> Contains(s, p)
  {
  }

  /** strpos() finds no one-byte needle that the text does not hold. */
  lemma AbsentCharNotContained(s: string, c: char)
    requires c !in s
    ensures !Contains(s, [c])
  {
    forall j: nat ensures !OccursAt(s, [c], j) {
      if j + 1 <= |s| {
        assert s[j..j + 1][0] == s[j];
      }
    }
  }

  /** The ASCII lower-case form of a byte, as stripos() compares them. */
  function LowerChar(c: char): char {
    if 'A' <= c <= 'Z' then (c as int + 32) as char else c
  }

  function Lower(s: string): (r: string)
    ensures |r| == |s| && forall k :: 0 <= k < |s| ==> r[k] == LowerChar(s[k])
  {
    seq(|s|, k requires 0 <= k < |s| => LowerChar(s[k]))
  }

  /** `stripos($s, $p) !== false`. */
  predicate ContainsIgnoreCase(s: string, p: string) {
    Contains(Lower(s), Lower(p))
  }

  // ---------------------------------------------------------------------------
  // explode() and implode()
  // ---------------------------------------------------------------------------

  /** The pieces glued back together with `c` between them, the inverse of Split. */
  function Join(parts: seq<string>, c: char): string
    requires |parts| >= 1
    decreases |parts|
  {
    if |parts| == 1 then parts[0] else parts[0] + [c] + Join(parts[1..], c)
  }

  /** explode() on a one-byte delimiter: every piece between delimiters, empty ones included. */
  function Split(s: string, c: char): (r: seq<string>)
    ensures |r| >= 1
    ensures forall k :: 0 <= k < |r| ==> c !in r[k]
    ensures Join(r, c) == s
    decreases |s|
  {
    if |s| == 0 then [""]
    else
      var rest := Split(s[1..], c);
      if s[0] == c then
        [""] + rest
      else
        var r := [[s[0]] + rest[0]] + rest[1..];
        assert r[1..] == rest[1..];
        assert s == [s[0]] + s[1..];
        r
  }

  lemma {:induction false} SplitNoDelimiter(a: string, c: char)
    requires c !in a
    ensures Split(a, c) == [a]
    decreases |a|
  {
    if |a| > 0 {
      SplitNoDelimiter(a[1..], c);
      assert [a[0]] + a[1..] == a;
    }
  }

  lemma {:induction false} SplitAfterPiece(a: string, t: string, c: char)
    requires c !in a
    ensures Split(a + [c] + t, c) == [a] + Split(t, c)
    decreases |a|
  {
    if |a| == 0 {
      assert (a + [c] + t)[1..] == t;
    } else {
      assert (a + [c] + t)[1..] == a[1..] + [c] + t;
      SplitAfterPiece(a[1..], t, c);
      assert [a[0]] + a[1..] == a;
    }
  }

  /** explode() inverts implode() when no piece contains the glue byte. */
  lemma {:induction false} SplitJoin(parts: seq<string>, c: char)
    requires |parts| >= 1
    requires forall k :: 0 <= k < |parts| ==> c !in parts[k]
    ensures Split(Join(parts, c), c) == parts
    decreases |parts|
  {
    if |parts| == 1 {
      SplitNoDelimiter(parts[0], c);
    } else {
      SplitJoin(parts[1..], c);
      SplitAfterPiece(parts[0], Join(parts[1..], c), c);
      assert [parts[0]] + parts[1..] == parts;
    }
  }

  // ---------------------------------------------------------------------------
  // str_replace() and rtrim() with a character list
  // ---------------------------------------------------------------------------

  /** str_replace($from, $to, $s): every non-overlapping occurrence, scanned left to right. */
  function Replace(s: string, from: string, to: string): (r: string)
    ensures from == [] ==> r == s
    ensures |to| == |from| ==> |r| == |s|
    ensures |to| <= |from| ==> |r| <= |s|
    decreases |s|
  {
    if from == [] || |s| < |from| then s
    else if s[..|from|] == from then to + Replace(s[|from|..], from, to)
    else [s[0]] + Replace(s[1..], from, to)
  }

  /** A string in which `from` occurs nowhere is left unchanged by str_replace(). */
  lemma {:induction false} ReplaceAbsent(s: string, from: string, to: string)
    requires !Contains(s, from)
    ensures Replace(s, from, to) == s
    decreases |s|
  {
    if from != [] && |s| >= |from| {
      assert !OccursAt(s, from, 0);
      forall j: nat ensures !OccursAt(s[1..], from, j) {
        if OccursAt(s[1..], from, j) {
          assert s[1..][j..j + |from|] == s[j + 1..j + 1 + |from|];
          assert OccursAt(s, from, j + 1);
        }
      }
      ReplaceAbsent(s[1..], from, to);
      assert [s[0]] + s[1..] == s;
    }
  }

  /** Replacing a single byte by a text that does not hold it leaves no such byte. */
  lemma {:induction false} ReplaceRemovesChar(s: string, a: char, to: string)
    requires a !in to
    ensures a !in Replace(s, [a], to)
    decreases |s|
  {
    if |s| >= 1 {
      ReplaceRemovesChar(s[1..], a, to);
    }
  }

  /** A byte found neither in `s` nor in the replacement is not introduced by str_replace(). */
  lemma {:induction false} ReplaceKeepsAbsent(s: string, from: string, to: string, x: char)
    requires x !in s && x !in to
    ensures x !in Replace(s, from, to)
    decreases |s|
  {
    if from != [] && |s| >= |from| {
      if s[..|from|] == from {
        assert s[|from|..] == s[|from|..|s|];
        ReplaceKeepsAbsent(s[|from|..], from, to, x);
      } else {
        ReplaceKeepsAbsent(s[1..], from, to, x);
      }
    }
  }

  /**
   * When the first byte of `from` does not occur in `a`, str_replace() leaves the
   * prefix `a` alone and works on the rest.
   */
  lemma {:induction false} ReplaceAfterPrefix(a: string, t: string, from: string, to: string)
    requires from != [] && from[0] !in a
    ensures Replace(a + t, from, to) == a + Replace(t, from, to)
    decreases |a|
  {
    if |a| > 0 {
      var s := a + t;
      if |s| >= |from| {
        assert s[0] == a[0] && s[0] != from[0];
        assert s[..|from|] != from;
        assert s[1..] == a[1..] + t;
        ReplaceAfterPrefix(a[1..], t, from, to);
        assert Replace(s, from, to) == [s[0]] + Replace(s[1..], from, to);
        assert a == [a[0]] + a[1..];
      } else {
        assert |a + t| < |from|;
        ReplaceShort(t, from, to);
      }
    } else {
      assert a + t == t;
    }
  }

  /**
   * No occurrence of `p` starts inside `a` when `a` holds none and no later byte of `p`
   * equals the first byte of what follows.
   */
  lemma NoMatchBeforeJoin(a: string, t: string, p: string, j: nat)
    requires !Contains(a, p) && t != []
    requires forall k :: 0 < k < |p| ==> p[k] != t[0]
    requires j < |a|
    ensures !OccursAt(a + t, p, j)
  {
    var s := a + t;
    if j + |p| <= |a| {
      assert s[j..j + |p|] == a[j..j + |p|];
      assert !OccursAt(a, p, j);
    } else if j + |p| <= |s| {
      var k := |a| - j;
      assert s[j..j + |p|][k] == s[|a|] == t[0];
    }
  }

  /** A prefix in which no match starts passes through str_replace() unchanged. */
  lemma {:induction false} ReplaceAfterClear(a: string, t: string, from: string, to: string)
    requires from != []
    requires forall j :: 0 <= j < |a| ==> !OccursAt(a + t, from, j)
    ensures Replace(a + t, from, to) == a + Replace(t, from, to)
    decreases |a|
  {
    if |a| > 0 {
      var s := a + t;
      if |s| >= |from| {
        assert !OccursAt(s, from, 0);
        NoMatchInTail(a, t, from);
        ReplaceAfterClear(a[1..], t, from, to);
        ReplaceSkipsFirst(a, t, from, to);
        ConsAppend(a, Replace(t, from, to));
      } else {
        ReplaceShort(t, from, to);
      }
    } else {
      assert a + t == t;
    }
  }

  /** With no match at 0, str_replace() keeps the first byte and goes on with the rest. */
  lemma ReplaceSkipsFirst(a: string, t: string, from: string, to: string)
    requires from != [] && |a| > 0 && |a + t| >= |from| && !OccursAt(a + t, from, 0)
    ensures Replace(a + t, from, to) == [a[0]] + Replace(a[1..] + t, from, to)
  {
    var s := a + t;
    assert s[0] == a[0] && s[1..] == a[1..] + t;
  }

  lemma ConsAppend(a: string, r: string)
    requires |a| > 0
    ensures [a[0]] + (a[1..] + r) == a + r
  {
    assert a == [a[0]] + a[1..];
  }

  /** Dropping the first byte of a match-free prefix leaves a match-free prefix. */
  lemma NoMatchInTail(a: string, t: string, from: string)
    requires |a| > 0
    requires forall j :: 0 <= j < |a| ==> !OccursAt(a + t, from, j)
    ensures forall j :: 0 <= j < |a[1..]| ==> !OccursAt(a[1..] + t, from, j)
  {
    var s := a + t;
    forall j | 0 <= j < |a[1..]|
      ensures !OccursAt(a[1..] + t, from, j)
    {
      assert !OccursAt(s, from, j + 1);
      if j + |from| <= |s| - 1 {
        SliceOfTail(a, t, j, |from|);
      }
    }
  }

  lemma SliceOfTail(a: string, t: string, j: nat, n: nat)
    requires |a| > 0 && j + n <= |a + t| - 1
    ensures (a[1..] + t)[j..j + n] == (a + t)[j + 1..j + 1 + n]
  {
    assert a[1..] + t == (a + t)[1..];
  }

  lemma ReplaceShort(t: string, from: string, to: string)
    requires |t| < |from|
    ensures Replace(t, from, to) == t
  {
  }

  /** rtrim($s, $c) with a one-byte character list. */
  function TrimEndChar(s: string, c: char): (r: string)
    ensures r <= s
    ensures forall k :: |r| <= k < |s| ==> s[k] == c
    ensures r == [] || r[|r| - 1] != c
    decreases |s|
  {
    if |s| > 0 && s[|s| - 1] == c then TrimEndChar(s[..|s| - 1], c) else s
  }

  /** The bytes of `s` that `keep` accepts, in order (preg_replace with a negated class and ''). */
  function Filter(s: string, keep: char -> bool): (r: string)
    ensures |r| <= |s|
    ensures forall k :: 0 <= k < |r| ==> keep(r[k])
    ensures forall k :: 0 <= k < |s| && keep(s[k]) ==> s[k] in r
    decreases |s|
  {
    if |s| == 0 then ""
    else if keep(s[0]) then [s[0]] + Filter(s[1..], keep)
    else Filter(s[1..], keep)
  }

  /** Filtering a concatenation filters each part. */
  lemma {:induction false} FilterAppend(a: string, b: string, keep: char -> bool)
    ensures Filter(a + b, keep) == Filter(a, keep) + Filter(b, keep)
    decreases |a|
  {
    if |a| > 0 {
      assert (a + b)[0] == a[0] && (a + b)[1..] == a[1..] + b;
      FilterAppend(a[1..], b, keep);
    } else {
      assert a + b == b;
    }
  }

  /** One byte survives Filter exactly when it is kept. */
  lemma FilterOne(c: char, keep: char -> bool)
    ensures Filter([c], keep) == if keep(c) then [c] else []
  {
    assert [c][1..] == [];
  }

  /** A string whose every byte is kept passes through Filter unchanged. */
  lemma {:induction false} FilterKeepsAll(s: string, keep: char -> bool)
    requires forall k :: 0 <= k < |s| ==> keep(s[k])
    ensures Filter(s, keep) == s
    decreases |s|
  {
    if |s| > 0 {
      FilterKeepsAll(s[1..], keep);
      assert [s[0]] + s[1..] == s;
    }
  }

  // ---------------------------------------------------------------------------
  // Integers and their decimal text
  // ---------------------------------------------------------------------------

  predicate IsDigit(c: char) {
    '0' <= c <= '9'
  }

  function DigitChar(d: nat): (c: char)
    requires d < 10
    ensures IsDigit(c) && c as int - '0' as int == d
  {
    ('0' as int + d) as char
  }

  /** The decimal text of a natural number, as PHP's string conversion prints it. */
  function NatToString(n: nat): (r: string)
    ensures |r| >= 1 && forall k :: 0 <= k < |r| ==> IsDigit(r[k])
    decreases n
  {
    if n < 10 then [DigitChar(n)] else NatToString(n / 10) + [DigitChar(n % 10)]
  }

  /** The decimal text of an integer, with a leading '-' when negative. */
  function IntToString(i: int): string {
    if i < 0 then "-" + NatToString(-i) else NatToString(i)
  }

  function DigitValue(c: char): nat
    requires IsDigit(c)
  {
    c as int - '0' as int
  }

  /** The value of a text made of decimal digits. */
  function DecimalValue(s: string): nat
    requires forall k :: 0 <= k < |s| ==> IsDigit(s[k])
    decreases |s|
  {
    if |s| == 0 then 0
    else DecimalValue(s[..|s| - 1]) * 10 + DigitValue(s[|s| - 1])
  }

  /** Reading back the printed decimal text of `n` gives `n`. */
  lemma {:induction false} DecimalValueOfNatToString(n: nat)
    ensures DecimalValue(NatToString(n)) == n
    decreases n
  {
    if n >= 10 {
      var s := NatToString(n);
      var a := NatToString(n / 10);
      assert s == a + [DigitChar(n % 10)];
      assert s[..|s| - 1] == a;
      DecimalValueOfNatToString(n / 10);
    }
  }

  /** The longest prefix of `s` made of decimal digits. */
  function LeadingDigits(s: string): (r: string)
    ensures r <= s
    ensures forall k :: 0 <= k < |r| ==> IsDigit(r[k])
    ensures |r| == |s| || !IsDigit(s[|r|])
    decreases |s|
  {
    if |s| > 0 && IsDigit(s[0]) then [s[0]] + LeadingDigits(s[1..]) else ""
  }

  /** The white space a numeric string may start with: space, tab, LF, CR, vertical tab and form feed. */
  predicate IsNumericSpace(c: char) {
    c == ' ' || c == '\t' || c == '\n' || c == '\r' || c == '\U{000B}' || c == '\U{000C}'
  }

  function SkipNumericSpace(s: string): (r: string)
    ensures |r| <= |s| && r == s[|s| - |r|..]
    ensures r == [] || !IsNumericSpace(r[0])
    decreases |s|
  {
    if |s| > 0 && IsNumericSpace(s[0]) then SkipNumericSpace(s[1..]) else s
  }

  /** Ten to the power `e`. */
  function Pow10(e: nat): (r: nat)
    ensures r >= 1
  {
    if e == 0 then 1 else 10 * Pow10(e - 1)
  }

  /** `n` times ten to the power `k`, the fraction dropped when `k` is negative. */
  function Scale(n: nat, k: int): nat
    decreases if k >= 0 then k else -k
  {
    if k == 0 then n else if k > 0 then Scale(n * 10, k - 1) else Scale(n / 10, k + 1)
  }

  /** A non-negative scale multiplies by a power of ten. */
  lemma {:induction false} ScaleUp(n: nat, k: nat)
    ensures Scale(n, k) == n * Pow10(k)
    decreases k
  {
    if k > 0 {
      ScaleUp(n * 10, k - 1);
      assert n * 10 * Pow10(k - 1) == n * (10 * Pow10(k - 1));
    }
  }

  /**
   * The exponent a numeric string may continue with: 'e' or 'E', an optional sign and
   * at least one digit. Without a digit there is no exponent.
   */
  function ExponentOf(s: string): (r: Option<int>)
    ensures r.Some? ==> |s| >= 2 && (s[0] == 'e' || s[0] == 'E')
    ensures |s| >= 2 && (s[0] == 'e' || s[0] == 'E') && IsDigit(s[1]) ==> r.Some?
  {
    if |s| >= 2 && (s[0] == 'e' || s[0] == 'E') then
      var digits := LeadingDigits(if s[1] == '-' || s[1] == '+' then s[2..] else s[1..]);
      if digits == "" then None
      else if s[1] == '-' then Some(-(DecimalValue(digits) as int))
      else Some(DecimalValue(digits))
    else None
  }

  lemma DigitsConcat(a: string, b: string)
    requires forall k :: 0 <= k < |a| ==> IsDigit(a[k])
    requires forall k :: 0 <= k < |b| ==> IsDigit(b[k])
    ensures forall k :: 0 <= k < |a + b| ==> IsDigit((a + b)[k])
  {
  }

  /**
   * The magnitude `(int)` reads from the text after the sign: a run of digits, a '.'
   * and a run of digits (at least one digit in all), then an optional exponent; the
   * number is truncated toward zero. Text that starts with no such number reads as 0.
   */
  function NumericMagnitude(u: string): nat {
    var whole := LeadingDigits(u);
    MagnitudeAfter(whole, u[|whole|..])
  }

  /** The magnitude once the leading digits `whole` are read and `rest` follows them. */
  function MagnitudeAfter(whole: string, rest: string): nat
    requires forall k :: 0 <= k < |whole| ==> IsDigit(whole[k])
  {
    if |rest| > 0 && rest[0] == '.' && (whole != "" || (|rest| > 1 && IsDigit(rest[1]))) then
      var fraction := LeadingDigits(rest[1..]);
      DigitsConcat(whole, fraction);
      Scale(DecimalValue(whole + fraction), ExponentOf(rest[1 + |fraction|..]).GetOr(0) - |fraction|)
    else if whole == "" then 0
    else Scale(DecimalValue(whole), ExponentOf(rest).GetOr(0))
  }

  /**
   * PHP's `(int)` cast of a string: leading white space skipped, an optional sign, then
   * the numeric prefix, fraction and exponent included, truncated toward zero; a string
   * that does not start with a number gives 0.
   */
  function IntCast(s: string): (r: int)
    ensures r < 0 ==> |SkipNumericSpace(s)| > 0 && SkipNumericSpace(s)[0] == '-'
    ensures var t := SkipNumericSpace(s);
            var u := if |t| > 0 && (t[0] == '-' || t[0] == '+') then t[1..] else t;
            (u == [] || (!IsDigit(u[0]) && u[0] != '.')) ==> r == 0
  {
    var t := SkipNumericSpace(s);
    var u := if |t| > 0 && (t[0] == '-' || t[0] == '+') then t[1..] else t;
    NoNumberReadsZero(u);
    if |t| > 0 && t[0] == '-' then -(NumericMagnitude(t[1..]) as int)
    else if |t| > 0 && t[0] == '+' then NumericMagnitude(t[1..])
    else NumericMagnitude(t)
  }

  /** Text that starts with neither a digit nor '.' holds no number. */
  lemma NoNumberReadsZero(u: string)
    ensures u == [] || (!IsDigit(u[0]) && u[0] != '.') ==> NumericMagnitude(u) == 0
  {
    if u == [] || (!IsDigit(u[0]) && u[0] != '.') {
      assert LeadingDigits(u) == "";
      assert u[|LeadingDigits(u)|..] == u;
    }
  }

  /** Digits followed by anything that cannot continue a number read as those digits. */
  lemma MagnitudeOfDigits(d: string, rest: string)
    requires forall k :: 0 <= k < |d| ==> IsDigit(d[k])
    requires rest == [] || (!IsDigit(rest[0]) && rest[0] != '.' && rest[0] != 'e' && rest[0] != 'E')
    ensures NumericMagnitude(d + rest) == DecimalValue(d)
  {
    MagnitudeSplit(d, rest);
    assert ExponentOf(rest) == None;
  }

  lemma {:induction false} LeadingDigitsOfDigitsThen(d: string, rest: string)
    requires forall k :: 0 <= k < |d| ==> IsDigit(d[k])
    requires rest == [] || !IsDigit(rest[0])
    ensures LeadingDigits(d + rest) == d
    decreases |d|
  {
    if |d| > 0 {
      assert (d + rest)[1..] == d[1..] + rest;
      LeadingDigitsOfDigitsThen(d[1..], rest);
      assert [d[0]] + d[1..] == d;
    } else {
      assert d + rest == rest;
    }
  }

  /** Scaling down by the number of trailing digits drops exactly those digits. */
  lemma {:induction false} DropDigits(d: string, f: string)
    requires forall k :: 0 <= k < |d| ==> IsDigit(d[k])
    requires forall k :: 0 <= k < |f| ==> IsDigit(f[k])
    ensures Scale(DecimalValue(d + f), -|f|) == DecimalValue(d)
    decreases |f|
  {
    if |f| == 0 {
      assert d + f == d;
    } else {
      var n := |f| - 1;
      assert (d + f)[..|d + f| - 1] == d + f[..n];
      assert DecimalValue(d + f) / 10 == DecimalValue(d + f[..n]);
      DropDigits(d, f[..n]);
    }
  }

  /** Leading digits followed by a non-digit are read as the whole part. */
  lemma MagnitudeSplit(d: string, r: string)
    requires forall k :: 0 <= k < |d| ==> IsDigit(d[k])
    requires r == [] || !IsDigit(r[0])
    ensures NumericMagnitude(d + r) == MagnitudeAfter(d, r)
  {
    LeadingDigitsOfDigitsThen(d, r);
    assert (d + r)[|d|..] == r;
  }

  lemma FractionThen(d: string, f: string, rest: string)
    requires d != [] && forall k :: 0 <= k < |d| ==> IsDigit(d[k])
    requires forall k :: 0 <= k < |f| ==> IsDigit(f[k])
    requires rest == [] || (!IsDigit(rest[0]) && rest[0] != 'e' && rest[0] != 'E')
    ensures MagnitudeAfter(d, "." + f + rest) == Scale(DecimalValue(d + f), -|f|)
  {
    DotThen(f, rest);
    LeadingDigitsOfDigitsThen(f, rest);
    assert ExponentOf(rest) == None;
  }

  /** The pieces of "." + f + rest, for the lemmas that read past the '.'. */
  lemma DotThen(f: string, rest: string)
    ensures var r := "." + f + rest; |r| > 0 && r[0] == '.' && r[1..] == f + rest && r[1 + |f|..] == rest
  {
  }


  /** Digits, '.', digits and no exponent: the fraction's digits are read, then scaled away. */
  lemma FractionRead(d: string, f: string, rest: string)
    requires d != [] && forall k :: 0 <= k < |d| ==> IsDigit(d[k])
    requires forall k :: 0 <= k < |f| ==> IsDigit(f[k])
    requires rest == [] || (!IsDigit(rest[0]) && rest[0] != 'e' && rest[0] != 'E')
    ensures NumericMagnitude(d + "." + f + rest) == Scale(DecimalValue(d + f), -|f|)
  {
    var r := "." + f + rest;
    assert d + "." + f + rest == d + r;
    MagnitudeSplit(d, r);
    FractionThen(d, f, rest);
  }

  /** A fraction is dropped: digits, '.', digits and no exponent read as the whole part. */
  lemma FractionTruncated(d: string, f: string, rest: string)
    requires d != [] && forall k :: 0 <= k < |d| ==> IsDigit(d[k])
    requires forall k :: 0 <= k < |f| ==> IsDigit(f[k])
    requires rest == [] || (!IsDigit(rest[0]) && rest[0] != 'e' && rest[0] != 'E')
    ensures NumericMagnitude(d + "." + f + rest) == DecimalValue(d)
  {
    FractionRead(d, f, rest);
    DropDigits(d, f);
  }

  lemma ExponentThen(d: string, x: string)
    requires d != [] && forall k :: 0 <= k < |d| ==> IsDigit(d[k])
    requires x != [] && forall k :: 0 <= k < |x| ==> IsDigit(x[k])
    ensures MagnitudeAfter(d, "e" + x) == Scale(DecimalValue(d), DecimalValue(x))
  {
    var r := "e" + x;
    assert r[1..] == x && r[1] == x[0];
    LeadingDigitsOfDigits(x);
    assert ExponentOf(r) == Some(DecimalValue(x) as int);
  }

  /** An exponent multiplies: digits, 'e' and digits read as the digits times ten to the exponent. */
  lemma ExponentApplied(d: string, x: string)
    requires d != [] && forall k :: 0 <= k < |d| ==> IsDigit(d[k])
    requires x != [] && forall k :: 0 <= k < |x| ==> IsDigit(x[k])
    ensures NumericMagnitude(d + "e" + x) == DecimalValue(d) * Pow10(DecimalValue(x))
  {
    assert d + "e" + x == d + ("e" + x);
    MagnitudeSplit(d, "e" + x);
    ExponentThen(d, x);
    ScaleUp(DecimalValue(d), DecimalValue(x));
  }

  /** Text that starts with neither white space nor a sign is read as an unsigned number. */
  lemma IntCastUnsigned(u: string)
    requires u != [] ==> !IsNumericSpace(u[0]) && u[0] != '-' && u[0] != '+'
    ensures IntCast(u) == NumericMagnitude(u)
  {
  }

  /** `(int)` of a run of digits is its decimal value. */
  lemma IntCastDigits(d: string)
    requires forall k :: 0 <= k < |d| ==> IsDigit(d[k])
    ensures IntCast(d) == DecimalValue(d)
  {
    assert IntCast(d) == NumericMagnitude(d) by {
      assert d != [] ==> IsDigit(d[0]);
      IntCastUnsigned(d);
    }
    assert NumericMagnitude(d) == DecimalValue(d) by {
      MagnitudeOfDigitsAlone(d);
    }
  }

  /** `(int)` of a minus sign and digits is the negated decimal value. */
  lemma IntCastNegativeDigits(d: string)
    requires forall k :: 0 <= k < |d| ==> IsDigit(d[k])
    ensures IntCast("-" + d) == -(DecimalValue(d) as int)
  {
    MagnitudeOfDigitsAlone(d);
    IntCastMinus(d);
  }

  lemma MagnitudeOfDigitsAlone(d: string)
    requires forall k :: 0 <= k < |d| ==> IsDigit(d[k])
    ensures NumericMagnitude(d) == DecimalValue(d)
  {
    MagnitudeOfDigits(d, "");
    assert d + "" == d;
  }

  /** A leading minus sign negates the magnitude that follows it. */
  lemma IntCastMinus(u: string)
    ensures IntCast("-" + u) == -(NumericMagnitude(u) as int)
  {
    var s := "-" + u;
    assert SkipNumericSpace(s) == s;
    assert s[1..] == u;
  }

  /** `(int)` of digits with an exponent multiplies by that power of ten. */
  lemma IntCastExponent(d: string, x: string)
    requires d != [] && forall k :: 0 <= k < |d| ==> IsDigit(d[k])
    requires x != [] && forall k :: 0 <= k < |x| ==> IsDigit(x[k])
    ensures IntCast(d + "e" + x) == DecimalValue(d) * Pow10(DecimalValue(x))
  {
    assert (d + "e" + x)[0] == d[0];
    IntCastUnsigned(d + "e" + x);
    ExponentApplied(d, x);
  }

  /** `(int)` of digits with a fraction drops the fraction. */
  lemma IntCastFraction(d: string, f: string)
    requires d != [] && forall k :: 0 <= k < |d| ==> IsDigit(d[k])
    requires forall k :: 0 <= k < |f| ==> IsDigit(f[k])
    ensures IntCast(d + "." + f) == DecimalValue(d)
  {
    assert (d + "." + f)[0] == d[0];
    IntCastUnsigned(d + "." + f);
    FractionTruncated(d, f, "");
    assert d + "." + f + "" == d + "." + f;
  }

  /** "1e2" is 100, not 1. */
  lemma IntCastHundred()
    ensures IntCast("1e2") == 100
  {
    var u := "1e2";
    IntCastUnsigned(u);
    assert u == "1" + "e2";
    MagnitudeSplit("1", "e2");
    ExponentExample();
  }

  /** After '1', the text 'e2' reads as 100. */
  lemma ExponentExample()
    ensures MagnitudeAfter("1", "e2") == 100
  {
    var r := "e2";
    assert r == "e" + "2";
    ExponentThen("1", "2");
    assert Scale(1, 2) == 100;
  }

  /** A fraction and an exponent together: "1.5e1" is 15. */
  lemma IntCastExample()
    ensures IntCast("1.5e1") == 15
  {
    var u := "1.5e1";
    IntCastUnsigned(u);
    assert u == "1" + ".5e1";
    MagnitudeSplit("1", ".5e1");
    FractionExponentExample();
  }

  /** After '1', the text '.5e1' reads as 15. */
  lemma FractionExponentExample()
    ensures MagnitudeAfter("1", ".5e1") == 15
  {
    var r := ".5e1";
    assert r[1..] == "5" + "e1";
    LeadingDigitsOfDigitsThen("5", "e1");
    assert r[2..] == "e1";
    ExponentThen("15", "1");
    assert "1" + "5" == "15";
    assert Scale(15, 0) == 15;
  }

  /** The `(int)` cast reads back the decimal text of any integer. */
  lemma IntCastOfIntToString(i: int)
    ensures IntCast(IntToString(i)) == i
  {
    var n: nat := if i < 0 then -i else i;
    var t := NatToString(n);
    var u := IntToString(i);
    assert u == if i < 0 then "-" + t else t;
    assert !IsNumericSpace(u[0]) by {
      assert u[0] == '-' || IsDigit(t[0]);
    }
    assert SkipNumericSpace(u) == u;
    MagnitudeOfDigits(t, "");
    assert t + "" == t;
    DecimalValueOfNatToString(n);
    if i < 0 {
      assert u[1..] == t;
    }
  }

  lemma {:induction false} LeadingDigitsOfDigits(s: string)
    requires forall k :: 0 <= k < |s| ==> IsDigit(s[k])
    ensures LeadingDigits(s) == s
    decreases |s|
  {
    if |s| > 0 {
      LeadingDigitsOfDigits(s[1..]);
      assert [s[0]] + s[1..] == s;
    }
  }
}
