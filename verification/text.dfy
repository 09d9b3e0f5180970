/** String helpers shared by the view models: .NET's notion of white space,
    `Trim`, `IsNullOrWhiteSpace`, ASCII `ToLower`, decimal formatting of
    integers, `string.Join` and ordinal string order. */
module Text {
  import opened Wrappers

  /** `char.IsWhiteSpace`: the Unicode separators (Zs, Zl, Zp) plus the
      control characters U+0009..U+000D and U+0085. */
  predicate IsWhiteSpace(c: char) {
    || ('\U{9}' <= c <= '\U{D}')
    || c == ' ' || c == '\U{85}' || c == '\U{A0}' || c == '\U{1680}'
    || ('\U{2000}' <= c <= '\U{200A}')
    || c == '\U{2028}' || c == '\U{2029}' || c == '\U{202F}' || c == '\U{205F}'
    || c == '\U{3000}'
  }

  /** `string.IsNullOrWhiteSpace` on a non-null string. */
  predicate IsBlank(s: string) {
    forall i :: 0 <= i < |s| ==> IsWhiteSpace(s[i])
  }

  /** `string.IsNullOrWhiteSpace` on a nullable string. */
  predicate IsNullOrWhiteSpace(s: Option<string>) {
    s.None? || IsBlank(s.value)
  }

  /** `string.IsNullOrEmpty` on a nullable string. */
  predicate IsNullOrEmpty(s: Option<string>) {
    s.None? || s.value == ""
  }

  /** The number of white-space characters at the front of `s`. */
  function LeadingWhite(s: string): (n: nat)
    ensures n <= |s|
    ensures forall k :: 0 <= k < n ==> IsWhiteSpace(s[k])
    ensures n < |s| ==> !IsWhiteSpace(s[n])
  {
    if s == [] || !IsWhiteSpace(s[0]) then 0
    else
      var n := 1 + LeadingWhite(s[1..]);
      assert forall k :: 1 <= k < n ==> s[k] == s[1..][k - 1];
      n
  }

  /** The number of white-space characters at the end of `s`. */
  function TrailingWhite(s: string): (n: nat)
    ensures n <= |s|
    ensures forall k :: |s| - n <= k < |s| ==> IsWhiteSpace(s[k])
    ensures n < |s| ==> !IsWhiteSpace(s[|s| - n - 1])
  {
    if s == [] || !IsWhiteSpace(s[|s| - 1]) then 0
    else
      var n := 1 + TrailingWhite(s[..|s| - 1]);
      assert forall k :: |s| - n <= k < |s| - 1 ==> s[k] == s[..|s| - 1][k];
      n
  }

  /** `string.TrimStart()`: the leading white space removed. */
  function TrimStart(s: string): (r: string)
    ensures |r| <= |s| && r == s[|s| - |r|..]
    ensures forall k :: 0 <= k < |s| - |r| ==> IsWhiteSpace(s[k])
    ensures r == "" || !IsWhiteSpace(r[0])
  {
    s[LeadingWhite(s)..]
  }

  /** `string.TrimEnd()`: the trailing white space removed. */
  function TrimEnd(s: string): (r: string)
    ensures |r| <= |s| && r == s[..|r|]
    ensures forall k :: |r| <= k < |s| ==> IsWhiteSpace(s[k])
    ensures r == "" || !IsWhiteSpace(r[|r| - 1])
  {
    s[..|s| - TrailingWhite(s)]
  }

  /** `string.Trim()`: the slice of `s` between its leading and its
      trailing white space; nothing is left of a blank string. */
  function Trim(s: string): (r: string)
    ensures |r| <= |s|
    ensures r == "" <==> IsBlank(s)
    ensures r != "" ==> r == s[LeadingWhite(s)..|s| - TrailingWhite(s)]
    ensures r == "" || (!IsWhiteSpace(r[0]) && !IsWhiteSpace(r[|r| - 1]))
  {
    var i := LeadingWhite(s);
    if i == |s| then ""
    else
      var n := TrailingWhite(s);
      assert !IsWhiteSpace(s[i]);
      s[i..|s| - n]
  }

  /** A string is blank exactly when trimming it leaves nothing. */
  lemma TrimEmptyIffBlank(s: string)
    ensures Trim(s) == "" <==> IsBlank(s)
  {
  }

  /** Trimming a trimmed string changes nothing. */
  lemma TrimIdempotent(s: string)
    ensures Trim(Trim(s)) == Trim(s)
  {
    var r := Trim(s);
    if r != "" {
      assert LeadingWhite(r) == 0;
      assert TrailingWhite(r) == 0;
      assert !IsBlank(r) by {
        assert !IsWhiteSpace(r[0]);
      }
    }
  }

  /** A string that neither starts nor ends with white space is its own
      trim. */
  lemma TrimNoEdges(s: string)
    requires s != "" && !IsWhiteSpace(s[0]) && !IsWhiteSpace(s[|s| - 1])
    ensures Trim(s) == s
  {
    assert LeadingWhite(s) == 0;
    assert TrailingWhite(s) == 0;
    assert !IsBlank(s);
  }

  /** Two such strings joined by anything are still their own trim. */
  lemma TrimJoined(a: string, sep: string, b: string)
    requires a != "" && !IsWhiteSpace(a[0]) && b != "" && !IsWhiteSpace(b[|b| - 1])
    ensures Trim(a + sep + b) == a + sep + b
  {
    var s := a + sep + b;
    assert s[0] == a[0] && s[|s| - 1] == b[|b| - 1];
    TrimNoEdges(s);
  }

  /** `char.ToLower` restricted to ASCII: 'A'..'Z' become 'a'..'z'. */
  function LowerChar(c: char): char {
    if 'A' <= c <= 'Z' then (c as int + 32) as char else c
  }

  /** `string.ToLower()`, ASCII letters only. */
  function ToLower(s: string): (r: string)
    ensures |r| == |s|
    ensures forall i :: 0 <= i < |s| ==> r[i] == LowerChar(s[i])
  {
    seq(|s|, i requires 0 <= i < |s| => LowerChar(s[i]))
  }

  lemma ToLowerIdempotent(s: string)
    ensures ToLower(ToLower(s)) == ToLower(s)
  {
  }

  lemma LowerCharKeepsWhiteSpace(c: char)
    ensures IsWhiteSpace(LowerChar(c)) <==> IsWhiteSpace(c)
  {
  }

  /** `s` and `t` have white space at the same positions. */
  predicate SameWhiteShape(s: string, t: string) {
    |s| == |t| && forall k :: 0 <= k < |s| ==> (IsWhiteSpace(s[k]) <==> IsWhiteSpace(t[k]))
  }

  /** `LeadingWhite` is pinned down by its postconditions. */
  lemma LeadingWhiteExact(s: string, n: nat)
    requires n <= |s|
    requires forall k :: 0 <= k < n ==> IsWhiteSpace(s[k])
    requires n < |s| ==> !IsWhiteSpace(s[n])
    ensures LeadingWhite(s) == n
  {
    var m := LeadingWhite(s);
    assert m < |s| ==> !IsWhiteSpace(s[m]);
    assert n < |s| ==> !IsWhiteSpace(s[n]);
  }

  /** `TrailingWhite` is pinned down by its postconditions. */
  lemma TrailingWhiteExact(s: string, n: nat)
    requires n <= |s|
    requires forall k :: |s| - n <= k < |s| ==> IsWhiteSpace(s[k])
    requires n < |s| ==> !IsWhiteSpace(s[|s| - n - 1])
    ensures TrailingWhite(s) == n
  {
    var m := TrailingWhite(s);
    assert m < |s| ==> !IsWhiteSpace(s[|s| - m - 1]);
    assert n < |s| ==> !IsWhiteSpace(s[|s| - n - 1]);
  }

  /** Trimming cuts strings of the same shape at the same places. */
  lemma SameShapeSameCuts(s: string, t: string)
    requires SameWhiteShape(s, t)
    ensures LeadingWhite(t) == LeadingWhite(s)
    ensures TrailingWhite(t) == TrailingWhite(s)
  {
    var i := LeadingWhite(s);
    if i < |s| {
      assert !IsWhiteSpace(t[i]);
    }
    LeadingWhiteExact(t, i);
    var n := TrailingWhite(s);
    if n < |s| {
      assert !IsWhiteSpace(t[|s| - n - 1]);
    }
    TrailingWhiteExact(t, n);
  }

  lemma ToLowerSameShape(s: string)
    ensures SameWhiteShape(s, ToLower(s))
  {
    var l := ToLower(s);
    forall k | 0 <= k < |s|
      ensures IsWhiteSpace(l[k]) <==> IsWhiteSpace(s[k])
    {
      LowerCharKeepsWhiteSpace(s[k]);
    }
  }

  lemma SameShapeBlank(s: string, t: string)
    requires SameWhiteShape(s, t)
    ensures IsBlank(s) <==> IsBlank(t)
  {
    if IsBlank(s) {
      assert forall k :: 0 <= k < |t| ==> IsWhiteSpace(s[k]);
    } else {
      var k :| 0 <= k < |s| && !IsWhiteSpace(s[k]);
      assert !IsWhiteSpace(t[k]);
    }
  }

  lemma ToLowerSlice(s: string, i: nat, j: nat)
    requires i <= j <= |s|
    ensures ToLower(s[i..j]) == ToLower(s)[i..j]
  {
  }

  /** Lower-casing keeps white space white and everything else not, so
      it commutes with `Trim`: the two view models that normalise a URI in
      opposite orders agree. */
  lemma TrimToLowerCommute(s: string)
    ensures Trim(ToLower(s)) == ToLower(Trim(s))
  {
    var l := ToLower(s);
    ToLowerSameShape(s);
    SameShapeSameCuts(s, l);
    SameShapeBlank(s, l);
    if !IsBlank(s) {
      ToLowerSlice(s, LeadingWhite(s), |s| - TrailingWhite(s));
    }
  }

  // ---------------------------------------------------------------------
  // Decimal digits

  predicate IsDigit(c: char) {
    '0' <= c <= '9'
  }

  predicate AllDigits(s: string) {
    forall i :: 0 <= i < |s| ==> IsDigit(s[i])
  }

  function DigitChar(d: nat): (c: char)
    requires d < 10
    ensures IsDigit(c)
  {
    ('0' as int + d) as char
  }

  /** The value of a run of decimal digits, read most significant first;
      leading zeros are allowed. */
  function DigitsValue(s: string): nat
    requires AllDigits(s)
  {
    if s == [] then 0
    else DigitsValue(s[..|s| - 1]) * 10 + (s[|s| - 1] as int - '0' as int)
  }

  /** `int.ToString()` of a non-negative value: shortest decimal digits. */
  function NatToString(n: nat): (r: string)
    ensures |r| >= 1 && AllDigits(r)
    ensures DigitsValue(r) == n
    ensures r[0] == '0' ==> n == 0 && |r| == 1
  {
    if n < 10 then [DigitChar(n)]
    else
      var r := NatToString(n / 10) + [DigitChar(n % 10)];
      assert r[..|r| - 1] == NatToString(n / 10);
      r
  }

  /** Two values are formatted alike only when they are equal. */
  lemma NatToStringInjective(a: nat, b: nat)
    ensures NatToString(a) == NatToString(b) <==> a == b
  {
  }

  /** `int.ToString()` with the invariant culture's '-' sign. */
  function IntToString(i: int): (r: string)
    ensures i >= 0 ==> r == NatToString(i)
    ensures i < 0 ==> |r| >= 2 && r[0] == '-' && r[1..] == NatToString(-i)
  {
    if i < 0 then "-" + NatToString(-i) else NatToString(i)
  }

  /** Every character of a formatted integer is a digit or the sign. */
  lemma IntToStringChars(i: int)
    ensures forall k :: 0 <= k < |IntToString(i)| ==> IsDigit(IntToString(i)[k]) || IntToString(i)[k] == '-'
  {
    var r := IntToString(i);
    if i < 0 {
      forall k | 1 <= k < |r|
        ensures IsDigit(r[k])
      {
        assert r[k] == r[1..][k - 1];
      }
    }
  }

  /** Two integers are formatted alike only when they are equal. */
  lemma IntToStringInjective(a: int, b: int)
    ensures IntToString(a) == IntToString(b) <==> a == b
  {
    assert (IntToString(a)[0] == '-') == (a < 0);
    assert (IntToString(b)[0] == '-') == (b < 0);
    if IntToString(a) == IntToString(b) {
      if a < 0 {
        NatToStringInjective(-a, -b);
      } else {
        NatToStringInjective(a, b);
      }
    }
  }

  /** A text glued around a separator that does not occur in its first
      part splits back into the same two parts. */
  lemma SplitAtFirst(sep: char, a1: string, b1: string, a2: string, b2: string)
    requires sep !in a1 && sep !in a2
    requires a1 + [sep] + b1 == a2 + [sep] + b2
    ensures a1 == a2 && b1 == b2
  {
    var s := a1 + [sep] + b1;
    assert s[|a1|] == sep && s[|a2|] == sep;
    assert forall k :: 0 <= k < |a1| ==> s[k] != sep;
    assert forall k :: 0 <= k < |a2| ==> s[k] != sep;
    assert a1 == s[..|a1|] && a2 == s[..|a2|];
    assert b1 == s[|a1| + 1..] && b2 == s[|a2| + 1..];
  }

  /** Texts between the same prefix and suffix are equal when the whole
      texts are. */
  lemma SameAffixes(prefix: string, suffix: string, m1: string, m2: string)
    requires prefix + m1 + suffix == prefix + m2 + suffix
    ensures m1 == m2
  {
    var s := prefix + m1 + suffix;
    assert m1 == s[|prefix|..|s| - |suffix|];
    assert m2 == (prefix + m2 + suffix)[|prefix|..|s| - |suffix|];
  }

  /** The two parts of a concatenation are where they were put. */
  lemma Glued(a: string, b: string)
    ensures a <= a + b && (a + b)[..|a|] == a && (a + b)[|a|..] == b
  {
  }

  /** The same, with a separator that does not occur in the second part. */
  lemma SplitAtLast(sep: char, a1: string, b1: string, a2: string, b2: string)
    requires sep !in b1 && sep !in b2
    requires a1 + [sep] + b1 == a2 + [sep] + b2
    ensures a1 == a2 && b1 == b2
  {
    var s := a1 + [sep] + b1;
    var n := |s|;
    assert s[n - 1 - |b1|] == sep && s[n - 1 - |b2|] == sep;
    assert forall k :: n - |b1| <= k < n ==> s[k] != sep;
    assert forall k :: n - |b2| <= k < n ==> s[k] != sep;
    assert a1 == s[..|a1|] && a2 == s[..|a2|];
    assert b1 == s[|a1| + 1..] && b2 == s[|a2| + 1..];
  }

  /** `string.Join(sep, parts)`. */
  function Join(sep: string, parts: seq<string>): (r: string)
    ensures parts == [] ==> r == ""
    ensures |parts| == 1 ==> r == parts[0]
    ensures |parts| >= 2 ==> r == parts[0] + sep + Join(sep, parts[1..])
  {
    if parts == [] then ""
    else if |parts| == 1 then parts[0]
    else parts[0] + sep + Join(sep, parts[1..])
  }

  lemma JoinTwo(sep: string, a: string, b: string)
    ensures Join(sep, [a, b]) == a + sep + b
  {
    assert [a, b][1..] == [b];
  }

  /** Joining two non-empty runs of parts puts one separator between
      their joins: `Join` is a fold of `a + sep + b`. */
  lemma {:induction false} JoinAppend(sep: string, a: seq<string>, b: seq<string>)
    requires a != [] && b != []
    ensures Join(sep, a + b) == Join(sep, a) + sep + Join(sep, b)
    decreases |a|
  {
    if |a| == 1 {
      assert (a + b)[1..] == b;
    } else {
      assert (a + b)[1..] == a[1..] + b;
      JoinAppend(sep, a[1..], b);
    }
  }

  // ---------------------------------------------------------------------
  // Ordinal string order

  /** Code-point lexicographic order: a prefix sorts first. */
  predicate LexLe(a: string, b: string) {
    a == [] || (b != [] && (a[0] < b[0] || (a[0] == b[0] && LexLe(a[1..], b[1..]))))
  }

  lemma {:induction false} LexLeReflexive(a: string)
    ensures LexLe(a, a)
  {
    if a != [] {
      LexLeReflexive(a[1..]);
    }
  }

  lemma {:induction false} LexLeTotal(a: string, b: string)
    ensures LexLe(a, b) || LexLe(b, a)
  {
    if a != [] && b != [] && a[0] == b[0] {
      LexLeTotal(a[1..], b[1..]);
    }
  }

  lemma {:induction false} LexLeTransitive(a: string, b: string, c: string)
    requires LexLe(a, b) && LexLe(b, c)
    ensures LexLe(a, c)
  {
    if a != [] && b != [] && c != [] && a[0] == b[0] && b[0] == c[0] {
      LexLeTransitive(a[1..], b[1..], c[1..]);
    }
  }

  lemma {:induction false} LexLeAntisymmetric(a: string, b: string)
    requires LexLe(a, b) && LexLe(b, a)
    ensures a == b
  {
    if a != [] && b != [] {
      LexLeAntisymmetric(a[1..], b[1..]);
      assert a == [a[0]] + a[1..];
      assert b == [b[0]] + b[1..];
    }
  }

  // ---------------------------------------------------------------------
  // Subsequences

  /** `a` is obtained from `b` by deleting characters, keeping order. */
  predicate IsSubsequence(a: string, b: string)
    decreases |b|
  {
    if a == [] then true
    else if b == [] then false
    else if a[0] == b[0] then IsSubsequence(a[1..], b[1..])
    else IsSubsequence(a, b[1..])
  }

  lemma {:induction false} SubsequenceShorter(a: string, b: string)
    requires IsSubsequence(a, b)
    ensures |a| <= |b|
    decreases |b|
  {
    if a != [] {
      if a[0] == b[0] {
        SubsequenceShorter(a[1..], b[1..]);
      } else {
        SubsequenceShorter(a, b[1..]);
      }
    }
  }

  lemma {:induction false} SubsequenceReflexive(a: string)
    ensures IsSubsequence(a, a)
    decreases |a|
  {
    if a != [] {
      SubsequenceReflexive(a[1..]);
    }
  }

  lemma {:induction false} SubsequenceDropHead(a: string, b: string)
    requires a != [] && IsSubsequence(a, b)
    ensures IsSubsequence(a[1..], b)
    decreases |b|
  {
    if a[0] == b[0] {
      SubsequenceDropFront(a[1..], b);
    } else {
      SubsequenceDropHead(a, b[1..]);
      SubsequenceDropFront(a[1..], b);
    }
  }

  /** A subsequence of a suffix is a subsequence of the whole. */
  lemma {:induction false} SubsequenceDropFront(a: string, b: string)
    requires b != [] && IsSubsequence(a, b[1..])
    ensures IsSubsequence(a, b)
    decreases |b|, 1
  {
    if a != [] && a[0] == b[0] {
      SubsequenceDropHead(a, b[1..]);
    }
  }

  lemma SubsequenceCons(c: char, a: string, b: string)
    requires IsSubsequence(a, b)
    ensures IsSubsequence([c] + a, [c] + b)
  {
    assert ([c] + a)[1..] == a;
    assert ([c] + b)[1..] == b;
  }
}
