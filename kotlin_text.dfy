/**
  The Kotlin standard-library string operations the Kumanga adapter relies on,
  stated over `seq<char>`: `indexOf`, `contains`, `substringAfter`,
  `substringBefore`, `split`, `replace`, `joinToString`, `Int.toString` and
  `String.toIntOrNull`.
*/
module KotlinText {
  import opened Wrappers

  /** Concatenation regrouped; stated over any element type to keep proofs about strings cheap. */
  lemma AppendAssoc<T>(a: seq<T>, b: seq<T>, c: seq<T>)
    ensures (a + b) + c == a + (b + c)
  {
  }

  /** The text `d` starts at position `j` of `s`. */
  predicate OccursAt(s: string, d: string, j: int) {
    0 <= j && j + |d| <= |s| && s[j..j + |d|] == d
  }

  /** `s.indexOf(d, k)`: the first position at or after `k` where `d` occurs. */
  function IndexFrom(s: string, d: string, k: nat): (r: Option<nat>)
    ensures r.Some? ==> k <= r.value && OccursAt(s, d, r.value)
    ensures r.Some? ==> forall j :: k <= j < r.value ==> !OccursAt(s, d, j)
    ensures r.None? ==> forall j :: k <= j ==> !OccursAt(s, d, j)
    decreases |s| - k
  {
    if k + |d| > |s| then None
    else if s[k..k + |d|] == d then Some(k)
    else IndexFrom(s, d, k + 1)
  }

  /** `s.indexOf(d)`; `None` stands for Kotlin's -1. */
  function IndexOf(s: string, d: string): (r: Option<nat>)
    ensures r.Some? ==> OccursAt(s, d, r.value) && forall j :: 0 <= j < r.value ==> !OccursAt(s, d, j)
    ensures r.None? ==> forall j :: !OccursAt(s, d, j)
  {
    IndexFrom(s, d, 0)
  }

  /** `s.contains(d)`. */
  function Contains(s: string, d: string): (b: bool)
    ensures b <==> exists j :: OccursAt(s, d, j)
  {
    IndexOf(s, d).Some?
  }

  /** A one-character string occurs exactly where that character does. */
  lemma ContainsChar(s: string, c: char)
    ensures Contains(s, [c]) <==> c in s
  {
    if c in s {
      var j :| 0 <= j < |s| && s[j] == c;
      assert OccursAt(s, [c], j);
    }
    if Contains(s, [c]) {
      var j :| OccursAt(s, [c], j);
      assert s[j] == s[j..j + 1][0];
    }
  }

  /** `s.substringAfter(d)`: the text after the first `d`, or all of `s` when `d` is absent. */
  function SubstringAfter(s: string, d: string): (r: string)
    ensures !Contains(s, d) ==> r == s
    ensures Contains(s, d) ==>
              exists i :: OccursAt(s, d, i) && (forall j :: 0 <= j < i ==> !OccursAt(s, d, j)) && r == s[i + |d|..]
  {
    match IndexOf(s, d)
    case None => s
    case Some(i) => s[i + |d|..]
  }

  /** `s.substringBefore(d)`: the text before the first `d`, or all of `s` when `d` is absent. */
  function SubstringBefore(s: string, d: string): (r: string)
    ensures !Contains(s, d) ==> r == s
    ensures Contains(s, d) ==> |r| <= |s| && r == s[..|r|] && OccursAt(s, d, |r|)
    ensures Contains(s, d) ==> forall j :: 0 <= j < |r| ==> !OccursAt(s, d, j)
    ensures Contains(s, d) && |d| > 0 ==> !Contains(r, d)
  {
    match IndexOf(s, d)
    case None => s
    case Some(i) =>
      if |d| > 0 then
        PrefixBeforeFirst(s, d, i);
        s[..i]
      else s[..i]
  }

  /** No occurrence of `d` lies wholly before its first occurrence at `i`. */
  lemma PrefixBeforeFirst(s: string, d: string, i: nat)
    requires |d| > 0 && i <= |s|
    requires forall j :: 0 <= j < i ==> !OccursAt(s, d, j)
    ensures !Contains(s[..i], d)
  {
    forall j | OccursAt(s[..i], d, j)
      ensures false
    {
      assert s[..i][j..j + |d|] == s[j..j + |d|];
      assert OccursAt(s, d, j);
    }
  }

  /** The summed lengths of `parts`. */
  function TotalLength(parts: seq<string>): nat {
    if parts == [] then 0 else |parts[0]| + TotalLength(parts[1..])
  }

  /** `parts.joinToString(d)`: the parts in order, one `d` between each two. */
  function Join(parts: seq<string>, d: string): (r: string)
    ensures |parts| == 0 ==> r == ""
    ensures |parts| > 0 ==> |r| == TotalLength(parts) + (|parts| - 1) * |d|
    ensures |parts| > 0 ==> r[..|parts[0]|] == parts[0]
  {
    if |parts| == 0 then ""
    else if |parts| == 1 then parts[0]
    else
      var r := parts[0] + d + Join(parts[1..], d);
      assert (|parts| - 1) * |d| == |d| + (|parts[1..]| - 1) * |d|;
      r
  }

  /**
    `s.split(d)` for a non-empty delimiter: the pieces between the occurrences
    of `d` found from left to right, trailing empty pieces kept.
  */
  function Split(s: string, d: string): (parts: seq<string>)
    requires |d| > 0
    ensures |parts| >= 1
    ensures Join(parts, d) == s
    ensures forall i :: 0 <= i < |parts| ==> !Contains(parts[i], d)
    ensures forall i, j :: 0 <= i < |parts| - 1 && 0 <= j < |parts[i]| ==> !OccursAt(parts[i] + d, d, j)
    decreases |s|
  {
    match IndexOf(s, d)
    case None => [s]
    case Some(i) =>
      PrefixBeforeFirst(s, d, i);
      var rest := Split(s[i + |d|..], d);
      assert s == s[..i] + d + s[i + |d|..];
      FirstPieceScan(s, d, i);
      [s[..i]] + rest
  }

  /**
    The separator after the first piece is the leftmost one: it does not start
    any earlier inside that piece.
  */
  lemma FirstPieceScan(s: string, d: string, i: nat)
    requires i + |d| <= |s| && OccursAt(s, d, i)
    requires forall j :: 0 <= j < i ==> !OccursAt(s, d, j)
    ensures forall j :: 0 <= j < i ==> !OccursAt(s[..i] + d, d, j)
  {
    var t := s[..i] + d;
    assert t == s[..i + |d|];
    forall j | 0 <= j < i
      ensures !OccursAt(t, d, j)
    {
      assert !OccursAt(s, d, j);
      if j + |d| <= |t| {
        assert t[j..j + |d|] == s[j..j + |d|];
      }
    }
  }

  /** `s.replace(pat, rep)`: every occurrence of `pat`, found from left to right, replaced by `rep`. */
  function Replace(s: string, pat: string, rep: string): (r: string)
    requires |pat| > 0
    ensures !Contains(s, pat) ==> r == s
    ensures IndexOf(s, pat).Some? ==>
              var i := IndexOf(s, pat).value;
              i + |rep| <= |r| && r[..i + |rep|] == s[..i] + rep
  {
    var parts := Split(s, pat);
    if !Contains(s, pat) then
      SplitWhenAbsent(s, pat);
      Join(parts, rep)
    else
      var i := IndexOf(s, pat).value;
      var rest := Split(s[i + |pat|..], pat);
      assert parts == [s[..i]] + rest;
      var r := s[..i] + rep + Join(rest, rep);
      assert r[..i + |rep|] == s[..i] + rep;
      r
  }

  /**
    Splitting joined parts gives the parts back, provided no part holds the
    separator and the separator's last character occurs nowhere else in it.
  */
  lemma {:induction false} SplitJoin(parts: seq<string>, d: string)
    requires |d| > 0 && |parts| >= 1
    requires forall i :: 0 <= i < |parts| ==> !Contains(parts[i], d)
    requires forall k :: 0 <= k < |d| - 1 ==> d[k] != d[|d| - 1]
    ensures Split(Join(parts, d), d) == parts
    decreases |parts|
  {
    if |parts| == 1 {
      SplitWhenAbsent(parts[0], d);
    } else {
      var p := parts[0];
      var rest := parts[1..];
      var t := Join(rest, d);
      assert forall i :: 0 <= i < |rest| ==> rest[i] == parts[i + 1];
      SplitJoin(rest, d);
      var s := p + d + t;
      assert Join(parts, d) == s;
      FirstOccurrenceAfter(p, d, t);
      assert s[..|p|] == p;
      assert s[|p| + |d|..] == t;
      assert Split(s, d) == [p] + Split(t, d);
      assert [p] + rest == parts;
    }
  }

  /** A text without the delimiter splits into itself alone. */
  lemma SplitWhenAbsent(s: string, d: string)
    requires |d| > 0 && !Contains(s, d)
    ensures Split(s, d) == [s]
  {
  }

  /** The characters of `s` other than `c`, in order. */
  function Without(s: string, c: char): (r: string)
    ensures c !in r
    ensures |r| <= |s|
  {
    if s == [] then []
    else Without(s[..|s| - 1], c) + (if s[|s| - 1] == c then [] else [s[|s| - 1]])
  }

  lemma {:induction false} WithoutAppend(a: string, b: string, c: char)
    ensures Without(a + b, c) == Without(a, c) + Without(b, c)
    decreases |b|
  {
    if b == [] {
      assert a + b == a;
    } else {
      var b' := b[..|b| - 1];
      assert (a + b)[..|a + b| - 1] == a + b';
      WithoutAppend(a, b', c);
    }
  }

  lemma {:induction false} WithoutAbsent(s: string, c: char)
    requires c !in s
    ensures Without(s, c) == s
    decreases |s|
  {
    if s != [] {
      WithoutAbsent(s[..|s| - 1], c);
    }
  }

  /** Replacing a single character by the empty string removes every copy of it and nothing else. */
  lemma {:induction false} ReplaceCharByNothing(s: string, c: char)
    ensures Replace(s, [c], "") == Without(s, c)
    decreases |s|
  {
    match IndexOf(s, [c])
    case None =>
      ContainsChar(s, c);
      WithoutAbsent(s, c);
    case Some(i) =>
      var a := s[..i];
      var tail := s[i + 1..];
      assert s == a + [c] + tail;
      ReplaceAtFirst(a, [c], tail, "");
      assert a + "" == a;
      assert Replace(s, [c], "") == a + Replace(tail, [c], "");
      ReplaceCharByNothing(tail, c);
      PrefixBeforeFirst(s, [c], i);
      ContainsChar(a, c);
      WithoutAroundFirst(a, c, tail);
      assert Without(s, c) == a + Without(tail, c);
  }

  /** Removing `c` from `a + [c] + b`, where `a` lacks `c`, keeps `a` whole. */
  lemma WithoutAroundFirst(a: string, c: char, b: string)
    requires c !in a
    ensures Without(a + [c] + b, c) == a + Without(b, c)
  {
    var ac := a + [c];
    WithoutAppend(ac, b, c);
    WithoutAppend(a, [c], c);
    WithoutAbsent(a, c);
    WithoutSelf(c);
    assert Without(ac, c) == a;
  }

  lemma WithoutSelf(c: char)
    ensures Without([c], c) == []
  {
    assert [c][..0] == [];
  }

  /** Replacing in `a + pat + b`, where the first `pat` is the one after `a`, works piece by piece. */
  lemma ReplaceAtFirst(a: string, pat: string, b: string, rep: string)
    requires |pat| > 0
    requires forall j :: 0 <= j < |a| ==> !OccursAt(a + pat + b, pat, j)
    ensures Replace(a + pat + b, pat, rep) == a + rep + Replace(b, pat, rep)
  {
    var s := a + pat + b;
    assert s[|a|..|a| + |pat|] == pat;
    assert OccursAt(s, pat, |a|);
    assert IndexOf(s, pat) == Some(|a|);
    assert s[..|a|] == a && s[|a| + |pat|..] == b;
  }

  /**
    When the last character of `d` occurs nowhere else in `d`, and `p` does not
    contain `d`, the first occurrence of `d` in `p + d + t` is the one right
    after `p`.
  */
  lemma FirstOccurrenceAfter(p: string, d: string, t: string)
    requires |d| > 0 && !Contains(p, d)
    requires forall k :: 0 <= k < |d| - 1 ==> d[k] != d[|d| - 1]
    ensures IndexOf(p + d + t, d) == Some(|p|)
  {
    var s := p + d + t;
    assert s[|p|..|p| + |d|] == d;
    assert OccursAt(s, d, |p|);
    forall j | 0 <= j < |p|
      ensures !OccursAt(s, d, j)
    {
      if j + |d| <= |p| {
        assert s[j..j + |d|] == p[j..j + |d|];
        assert !OccursAt(p, d, j);
      } else {
        var k := j + |d| - 1 - |p|;
        assert 0 <= k < |d| - 1;
        assert s[j + |d| - 1] == d[k];
      }
    }
  }

  /** Splitting at a separator character that the first piece lacks peels that piece off. */
  lemma SplitAtFirst(a: string, c: char, b: string)
    requires c !in a
    ensures Split(a + ([c] + b), [c]) == [a] + Split(b, [c])
  {
    ContainsChar(a, c);
    AppendAssoc(a, [c], b);
    FirstOccurrenceAfter(a, [c], b);
    var s := a + [c] + b;
    assert s[..|a|] == a;
    assert s[|a| + 1..] == b;
  }

  /** A text without the separator is a single piece. */
  lemma SplitAbsent(s: string, c: char)
    requires c !in s
    ensures Split(s, [c]) == [s]
  {
    ContainsChar(s, c);
  }

  // Decimal numerals

  predicate IsDigit(c: char) {
    '0' <= c <= '9'
  }

  predicate AllDigits(s: string) {
    forall i :: 0 <= i < |s| ==> IsDigit(s[i])
  }

  /** The value of a numeral, most significant digit first. */
  function DigitsValue(s: string): nat
    requires AllDigits(s)
  {
    if s == [] then 0
    else DigitsValue(s[..|s| - 1]) * 10 + (s[|s| - 1] as int - '0' as int)
  }

  function DigitChar(d: nat): char
    requires d < 10
  {
    (d + '0' as int) as char
  }

  /** The decimal numeral of `n`, without leading zeros. */
  function NatToString(n: nat): (r: string)
    ensures |r| >= 1 && AllDigits(r)
    ensures r[0] == '0' ==> n == 0 && r == "0"
    ensures DigitsValue(r) == n
  {
    if n < 10 then [DigitChar(n)]
    else
      var r := NatToString(n / 10) + [DigitChar(n % 10)];
      assert r[..|r| - 1] == NatToString(n / 10);
      r
  }

  /** Kotlin's `Int.toString()` (and string templates `$n`). */
  function IntToString(n: int): (r: string)
    ensures |r| >= 1
    ensures ',' !in r && ')' !in r && '/' !in r
  {
    var r := if n < 0 then "-" + NatToString(-n) else NatToString(n);
    assert forall i :: 0 <= i < |r| ==> r[i] == '-' || IsDigit(r[i]);
    r
  }

  /**
    `IntToString` prints the canonical decimal: a non-negative number as its
    digits without leading zeros, a negative one as `-` followed by the digits
    of its magnitude, which never start with `0`.
  */
  lemma IntToStringCanonical(n: int)
    ensures var r := IntToString(n);
      n >= 0 ==> AllDigits(r) && DigitsValue(r) == n && (r[0] == '0' ==> r == "0")
    ensures var r := IntToString(n);
      n < 0 ==> |r| >= 2 && r[0] == '-' && r[1] != '0' && AllDigits(r[1..]) && DigitsValue(r[1..]) == -n
  {
    var r := IntToString(n);
    if n < 0 {
      assert r[1..] == NatToString(-n);
    }
  }

  /** An optional sign followed by at least one digit, read without a range limit. */
  function ParseSigned(s: string): Option<int> {
    if |s| == 0 then None
    else if s[0] == '-' || s[0] == '+' then
      if |s| > 1 && AllDigits(s[1..]) then
        var v: int := DigitsValue(s[1..]);
        Some(if s[0] == '-' then -v else v)
      else None
    else if AllDigits(s) then Some(DigitsValue(s))
    else None
  }

  const MinInt: int := -0x8000_0000
  const MaxInt: int := 0x7fff_ffff

  /** Kotlin's `String.toIntOrNull()`: a signed decimal numeral within the 32-bit range. */
  function ToIntOrNull(s: string): (r: Option<int>)
    ensures r.Some? ==> MinInt <= r.value <= MaxInt
    ensures |s| == 0 ==> r.None?
  {
    match ParseSigned(s)
    case None => None
    case Some(v) => if MinInt <= v <= MaxInt then Some(v) else None
  }

  /** The value of an optional `-` or `+` followed by digits, before the range check. */
  function SignedValue(sign: string, digits: string): int
    requires AllDigits(digits)
  {
    var v: int := DigitsValue(digits);
    if sign == "-" then -v else v
  }

  /** An optional sign followed by at least one digit reads as its value when that fits an Int, and as null otherwise. */
  lemma ToIntOrNullNumeral(sign: string, digits: string)
    requires sign == "" || sign == "-" || sign == "+"
    requires |digits| > 0 && AllDigits(digits)
    ensures ToIntOrNull(sign + digits) ==
            if MinInt <= SignedValue(sign, digits) <= MaxInt then Some(SignedValue(sign, digits)) else None
  {
    var s := sign + digits;
    if sign == "" {
      assert s == digits;
    } else {
      assert s[0] == sign[0] && s[1..] == digits;
    }
  }

  /**
    Any character that is not a digit, other than a sign in front of further
    characters, makes the text unreadable as an Int.
  */
  lemma ToIntOrNullRejects(s: string, k: int)
    requires 0 <= k < |s| && !IsDigit(s[k])
    requires !(k == 0 && |s| > 1 && (s[0] == '-' || s[0] == '+'))
    ensures ToIntOrNull(s) == None
  {
    if k > 0 && (s[0] == '-' || s[0] == '+') {
      assert s[1..][k - 1] == s[k];
    }
  }

  /** Reading back a printed integer gives the integer. */
  lemma ParseIntToString(n: int)
    ensures ParseSigned(IntToString(n)) == Some(n)
  {
    if n < 0 {
      var s := "-" + NatToString(-n);
      assert s[1..] == NatToString(-n);
    }
  }

  /** `toIntOrNull` undoes `toString` on every 32-bit integer. */
  lemma ToIntOrNullOfToString(n: int)
    requires MinInt <= n <= MaxInt
    ensures ToIntOrNull(IntToString(n)) == Some(n)
  {
    ParseIntToString(n);
  }

  /** Different integers print differently. */
  lemma IntToStringInjective(m: int, n: int)
    requires IntToString(m) == IntToString(n)
    ensures m == n
  {
    ParseIntToString(m);
    ParseIntToString(n);
  }
}
