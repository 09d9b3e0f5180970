/** Fixed-width integers of .NET (`int`, `ushort`) and the `TryParse`
    family with the default `NumberStyles.Integer`: optional white space
    around an optional sign and a run of decimal digits. */
module Numbers {
  import opened Wrappers
  import opened Text

  const MinInt32: int := -0x8000_0000
  const MaxInt32: int := 0x7FFF_FFFF
  const MaxUShort: int := 0xFFFF

  type Int32 = x: int | MinInt32 <= x <= MaxInt32
  type UShort = x: int | 0 <= x <= MaxUShort

  /** A `Guid`: only its identity matters here, so any natural number
      stands for one, and 0 for `Guid.Empty`. */
  type Guid = nat
  const EmptyGuid: Guid := 0

  /** An octet, as .NET's `byte`. */
  type Byte = x: int | 0 <= x < 256

  /** Two's-complement wrap-around of an unbounded sum into `int`, as an
      unchecked C# addition does. */
  function Wrap32(x: int): (r: Int32)
    ensures MinInt32 <= x <= MaxInt32 ==> r == x
    ensures (r - x) % 0x1_0000_0000 == 0
  {
    (x - MinInt32) % 0x1_0000_0000 + MinInt32
  }

  /** White space `NumberStyles.AllowLeadingWhite`/`AllowTrailingWhite`
      accept: U+0009..U+000D and U+0020 only. */
  predicate IsNumberWhite(c: char) {
    ('\U{9}' <= c <= '\U{D}') || c == ' '
  }

  /** The lexical shape `[ws][sign]digits[ws]`: whether the sign was '-',
      and the digit run. */
  datatype IntegerText = IntegerText(negative: bool, digits: string) {
    /** The value the text denotes: the digits' value, negated after a
        '-'. */
    function Value(): int
      requires AllDigits(digits)
    {
      if negative then -(DigitsValue(digits) as int) else DigitsValue(digits)
    }
  }

  function SkipNumberWhite(s: string): (r: string)
    ensures |r| <= |s| && r == s[|s| - |r|..]
    ensures r == [] || !IsNumberWhite(r[0])
  {
    if s != [] && IsNumberWhite(s[0]) then SkipNumberWhite(s[1..]) else s
  }

  function DropNumberWhiteEnd(s: string): (r: string)
    ensures |r| <= |s| && r == s[..|r|]
    ensures r == [] || !IsNumberWhite(r[|r| - 1])
  {
    if s != [] && IsNumberWhite(s[|s| - 1]) then DropNumberWhiteEnd(s[..|s| - 1]) else s
  }

  /** The run of '\0' characters the parser tolerates after the number
      and its trailing white space, for compatibility with C strings. */
  function DropTrailingNuls(s: string): (r: string)
    ensures |r| <= |s| && r == s[..|r|]
    ensures r == [] || r[|r| - 1] != '\0'
    ensures forall i :: |r| <= i < |s| ==> s[i] == '\0'
  {
    if s != [] && s[|s| - 1] == '\0' then DropTrailingNuls(s[..|s| - 1]) else s
  }

  /** `k` NUL characters. */
  function Nuls(k: nat): (r: string)
    ensures |r| == k && forall i :: 0 <= i < k ==> r[i] == '\0'
  {
    if k == 0 then [] else Nuls(k - 1) + ['\0']
  }

  function Lex(s: string): (r: Option<IntegerText>)
    ensures r.Some? ==> |r.value.digits| >= 1 && AllDigits(r.value.digits)
  {
    var core := DropNumberWhiteEnd(DropTrailingNuls(SkipNumberWhite(s)));
    if core == [] then None
    else
      var negative := core[0] == '-';
      var digits := if core[0] == '-' || core[0] == '+' then core[1..] else core;
      if digits != [] && AllDigits(digits) then Some(IntegerText(negative, digits)) else None
  }

  /** `TryParse` into the integer type whose range is `lo..hi`: None when
      the text is malformed or its value lies outside the range. */
  function TryParseInteger(s: string, lo: int, hi: int): (r: Option<int>)
    ensures r.Some? ==> lo <= r.value <= hi
    ensures r.Some? ==> Lex(s).Some?
    ensures r.Some? ==> r.value == Lex(s).value.Value()
  {
    match Lex(s)
    case None => None
    case Some(t) =>
      var d: int := DigitsValue(t.digits);
      var v := if t.negative then -d else d;
      if lo <= v <= hi then Some(v) else None
  }

  /** `ushort.TryParse`. */
  function TryParseUShort(s: string): (r: Option<UShort>)
    ensures r.Some? <==> TryParseInteger(s, 0, MaxUShort).Some?
    ensures r.Some? ==> r.value == TryParseInteger(s, 0, MaxUShort).value
  {
    match TryParseInteger(s, 0, MaxUShort)
    case None => None
    case Some(v) => Some(v)
  }

  /** `int.TryParse`. */
  function TryParseInt32(s: string): (r: Option<Int32>)
    ensures r.Some? <==> TryParseInteger(s, MinInt32, MaxInt32).Some?
    ensures r.Some? ==> r.value == TryParseInteger(s, MinInt32, MaxInt32).value
  {
    match TryParseInteger(s, MinInt32, MaxInt32)
    case None => None
    case Some(v) => Some(v)
  }

  /** `int.TryParse(s, out v)` read back through `v`: the parsed value, or
      0 when parsing fails. */
  function ParseInt32OrZero(s: string): (r: Int32)
    ensures TryParseInteger(s, MinInt32, MaxInt32).None? ==> r == 0
    ensures Lex(s).Some? && MinInt32 <= Lex(s).value.Value() <= MaxInt32 ==> r == Lex(s).value.Value()
  {
    match TryParseInteger(s, MinInt32, MaxInt32)
    case None => 0
    case Some(v) => v
  }

  lemma {:induction false} SkipNumberWhiteDigits(s: string)
    requires s != [] && IsDigit(s[0])
    ensures SkipNumberWhite(s) == s
  {
  }

  lemma {:induction false} DropTrailingNulsDigits(s: string)
    requires s != [] && IsDigit(s[|s| - 1])
    ensures DropTrailingNuls(s) == s
  {
  }

  /** NUL characters appended to any text do not change how it lexes:
      "80\0" reads as 80, while "80\0 " stays malformed. */
  lemma {:induction false} TrailingNulsIgnored(s: string, k: nat)
    ensures Lex(s + Nuls(k)) == Lex(s)
  {
    SkipNulsTail(s, k);
    DropNulsTail(SkipNumberWhite(s), k);
  }

  /** Skipping leading white space commutes with appending NULs. */
  lemma {:induction false} SkipNulsTail(s: string, k: nat)
    ensures SkipNumberWhite(s + Nuls(k)) == SkipNumberWhite(s) + Nuls(k)
    decreases |s|
  {
    if s == [] {
      if k > 0 {
        assert !IsNumberWhite(Nuls(k)[0]);
      }
    } else {
      assert (s + Nuls(k))[0] == s[0];
      assert (s + Nuls(k))[1..] == s[1..] + Nuls(k);
      if IsNumberWhite(s[0]) {
        SkipNulsTail(s[1..], k);
      }
    }
  }

  /** Appended NULs are exactly what `DropTrailingNuls` takes away again. */
  lemma {:induction false} DropNulsTail(s: string, k: nat)
    ensures DropTrailingNuls(s + Nuls(k)) == DropTrailingNuls(s)
    decreases k
  {
    if k > 0 {
      var t := s + Nuls(k - 1);
      var u := t + ['\0'];
      assert s + Nuls(k) == u;
      assert u[..|u| - 1] == t;
      assert DropTrailingNuls(u) == DropTrailingNuls(t);
      DropNulsTail(s, k - 1);
    } else {
      assert s + Nuls(k) == s;
    }
  }

  lemma {:induction false} DropNumberWhiteEndDigits(s: string)
    requires s != [] && IsDigit(s[|s| - 1])
    ensures DropNumberWhiteEnd(s) == s
  {
  }

  /** Formatting a non-negative value and parsing it back yields the value
      when it fits the target range and fails otherwise. */
  lemma {:induction false} ParseFormatted(n: nat, lo: int, hi: int)
    requires lo <= 0
    ensures n <= hi ==> TryParseInteger(NatToString(n), lo, hi) == Some(n)
    ensures n > hi ==> TryParseInteger(NatToString(n), lo, hi) == None
  {
    var t := NatToString(n);
    SkipNumberWhiteDigits(t);
    DropTrailingNulsDigits(t);
    DropNumberWhiteEndDigits(t);
    assert Lex(t) == Some(IntegerText(false, t));
  }

  /** `int.ToString()` and `TryParse` into a range holding the value are
      inverse: the text of any value in range parses back to it. */
  lemma {:induction false} ParseIntFormatted(i: int, lo: int, hi: int)
    requires lo <= i <= hi
    ensures TryParseInteger(IntToString(i), lo, hi) == Some(i)
  {
    if i >= 0 {
      ParseNatFormatted(i, lo, hi);
    } else {
      ParseNegativeFormatted(i, lo, hi);
    }
  }

  lemma ParseNatFormatted(i: nat, lo: int, hi: int)
    requires lo <= i <= hi
    ensures TryParseInteger(NatToString(i), lo, hi) == Some(i as int)
  {
    var d := NatToString(i);
    ParseDigits(d, lo, hi);
  }

  lemma ParseNegativeFormatted(i: int, lo: int, hi: int)
    requires lo <= i <= hi && i < 0
    ensures TryParseInteger(IntToString(i), lo, hi) == Some(i)
  {
    var d := NatToString(-i);
    var t := IntegerText(true, d);
    LexNegative(IntToString(i), d);
    assert t.Value() == i;
    ParseLexed(IntToString(i), t, lo, hi);
  }

  /** '-' and a run of digits read as a negative integer text. */
  lemma LexNegative(s: string, d: string)
    requires d != [] && AllDigits(d) && s == "-" + d
    ensures Lex(s) == Some(IntegerText(true, d))
  {
    LexDigits(d, true);
  }

  /** A run of digits parses to its value when that lies in range. */
  lemma {:induction false} ParseDigits(d: string, lo: int, hi: int)
    requires d != [] && AllDigits(d)
    requires lo <= DigitsValue(d) <= hi
    ensures TryParseInteger(d, lo, hi) == Some(DigitsValue(d))
  {
    LexDigits(d, false);
    ParseLexed(d, IntegerText(false, d), lo, hi);
  }

  /** Text of a known lexical reading parses to its value when that lies
      in range. */
  lemma ParseLexed(s: string, t: IntegerText, lo: int, hi: int)
    requires Lex(s) == Some(t)
    requires AllDigits(t.digits) && lo <= t.Value() <= hi
    ensures TryParseInteger(s, lo, hi) == Some(t.Value())
  {
  }

  /** The lexical reading of a run of digits, with or without a '-' in
      front. */
  lemma {:induction false} LexDigits(d: string, negative: bool)
    requires d != [] && AllDigits(d)
    ensures Lex(if negative then "-" + d else d) == Some(IntegerText(negative, d))
  {
    var t := if negative then "-" + d else d;
    assert t[|t| - 1] == d[|d| - 1];
    DropTrailingNulsDigits(t);
    DropNumberWhiteEndDigits(t);
    if negative {
      assert t[0] == '-' && t[1..] == d;
      assert SkipNumberWhite(t) == t;
    } else {
      SkipNumberWhiteDigits(t);
    }
  }

  /** Port text produced by `ushort.ToString()` parses back to the port. */
  lemma UShortRoundTrip(p: UShort)
    ensures TryParseUShort(NatToString(p)) == Some(p)
  {
    ParseFormatted(p, 0, MaxUShort);
  }

  /** The text "-0" is accepted as the value 0 by the unsigned parser. */
  lemma NegativeZeroIsZero()
    ensures TryParseUShort("-0") == Some(0)
  {
    assert SkipNumberWhite("-0") == "-0";
    assert DropTrailingNuls("-0") == "-0";
    assert DropNumberWhiteEnd("-0") == "-0";
    assert Lex("-0") == Some(IntegerText(true, "0"));
  }
}
