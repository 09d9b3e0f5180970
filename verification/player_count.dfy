/** The player count the console page reads out of a server message: the
    first place where the colour-stripped text says
    `There are (\d+) of a max of (\d+) players online:`. The matcher is
    written for any pattern of that shape, literal text around two digit
    runs, and used with the one above. */
module PlayerCount {
  import opened Wrappers
  import opened Text
  import opened Numbers
  import opened ColorCodes
  import opened MinecraftExtensions

  /** `prefix (\d+) middle (\d+) suffix`. */
  datatype Pattern = Pattern(prefix: string, middle: string, suffix: string)

  /** A digit run can end only where the text after it begins, so the
      middle and the suffix must not start with a digit. */
  predicate DelimitsDigits(p: Pattern) {
    p.middle != [] && !IsDigit(p.middle[0]) && p.suffix != [] && !IsDigit(p.suffix[0])
  }

  const ListPattern: Pattern := Pattern("There are ", " of a max of ", " players online:")

  /** The two digit runs the pattern captures, as text. */
  datatype Count = Count(current: string, maximum: string)

  /** A match: where it starts and what it captured. */
  datatype Match = Match(at: nat, count: Count)

  /** `lit` occurs in `s` at position `i`. */
  predicate HasAt(s: string, i: nat, lit: string) {
    i + |lit| <= |s| && s[i..i + |lit|] == lit
  }

  /** The pattern, stated without any search: at `i` the text reads the
      prefix, the digits `x`, the middle part, the digits `y` and the
      suffix, one after the other. */
  predicate MatchesWith(p: Pattern, s: string, i: nat, x: string, y: string) {
    HasAt(s, i, p.prefix) && MatchesFrom(p, s, i + |p.prefix|, x, y)
  }

  /** The part of the pattern after the prefix, read from `a` on. */
  predicate MatchesFrom(p: Pattern, s: string, a: nat, x: string, y: string) {
    && x != [] && AllDigits(x) && y != [] && AllDigits(y)
    && HasAt(s, a, x)
    && HasAt(s, a + |x|, p.middle)
    && HasAt(s, a + |x| + |p.middle|, y)
    && HasAt(s, a + |x| + |p.middle| + |y|, p.suffix)
  }

  /** The length of the run of decimal digits starting at `i`. */
  function DigitRun(s: string, i: nat): (n: nat)
    requires i <= |s|
    ensures i + n <= |s|
    decreases |s| - i
  {
    if i < |s| && IsDigit(s[i]) then 1 + DigitRun(s, i + 1) else 0
  }

  /** The run is all digits and is followed by a non-digit or the end. */
  lemma {:induction false} DigitRunIsRun(s: string, i: nat)
    requires i <= |s|
    ensures AllDigits(s[i..i + DigitRun(s, i)])
    ensures i + DigitRun(s, i) < |s| ==> !IsDigit(s[i + DigitRun(s, i)])
    decreases |s| - i
  {
    if i < |s| && IsDigit(s[i]) {
      DigitRunIsRun(s, i + 1);
      var n := DigitRun(s, i);
      assert s[i..i + n] == [s[i]] + s[i + 1..i + n];
    }
  }

  /** A digit run that ends where the digits end is the run `DigitRun`
      measures. */
  lemma {:induction false} DigitRunExact(s: string, i: nat, n: nat)
    requires i + n <= |s|
    requires forall k :: i <= k < i + n ==> IsDigit(s[k])
    requires i + n < |s| ==> !IsDigit(s[i + n])
    ensures DigitRun(s, i) == n
    decreases n
  {
    if n > 0 {
      DigitRunExact(s, i + 1, n - 1);
    }
  }

  /** Digits `x` found at `a` form a run of digits in `s`. */
  lemma DigitsAt(s: string, a: nat, x: string)
    requires HasAt(s, a, x) && AllDigits(x)
    ensures forall k :: a <= k < a + |x| ==> IsDigit(s[k])
  {
    forall k | a <= k < a + |x|
      ensures IsDigit(s[k])
    {
      assert s[k] == s[a..a + |x|][k - a];
    }
  }

  /** The pattern tried at position `i`. Each `\d+` is greedy; as the text
      after it must not start with a digit, only the longest run can lead
      to a match, so no backtracking is needed. */
  function MatchAt(p: Pattern, s: string, i: nat): (r: Option<Count>)
    requires i <= |s|
  {
    if HasAt(s, i, p.prefix) then MatchFromCurrent(p, s, i + |p.prefix|) else None
  }

  /** The rest of the pattern, from the first digit run on. */
  function MatchFromCurrent(p: Pattern, s: string, a: nat): (r: Option<Count>)
    requires a <= |s|
  {
    var n := DigitRun(s, a);
    if n == 0 || !HasAt(s, a + n, p.middle) then None
    else
      var b := a + n + |p.middle|;
      var m := DigitRun(s, b);
      if m == 0 || !HasAt(s, b + m, p.suffix) then None
      else Some(Count(s[a..a + n], s[b..b + m]))
  }

  /** What `MatchAt` finds is a match of the pattern. */
  lemma MatchAtSound(p: Pattern, s: string, i: nat)
    requires i <= |s|
    ensures MatchAt(p, s, i).Some? ==> MatchesWith(p, s, i, MatchAt(p, s, i).value.current, MatchAt(p, s, i).value.maximum)
  {
    if HasAt(s, i, p.prefix) {
      var r := MatchFromCurrent(p, s, i + |p.prefix|);
      if r.Some? {
        MatchFromCurrentSound(p, s, i + |p.prefix|, r.value.current, r.value.maximum);
      }
    }
  }

  /** What `MatchFromCurrent` finds reads, from `a` on, the digits, the
      middle part, the digits and the suffix. */
  lemma MatchFromCurrentSound(p: Pattern, s: string, a: nat, x: string, y: string)
    requires a <= |s|
    requires MatchFromCurrent(p, s, a) == Some(Count(x, y))
    ensures MatchesFrom(p, s, a, x, y)
  {
    var n := DigitRun(s, a);
    var b := a + n + |p.middle|;
    var m := DigitRun(s, b);
    assert x == s[a..a + n] && y == s[b..b + m];
    assert |x| == n && |y| == m;
    DigitRunIsRun(s, a);
    DigitRunIsRun(s, b);
  }

  /** Digits found at `a` and followed by a non-digit are the whole run
      there. */
  lemma RunAt(s: string, a: nat, x: string, next: string)
    requires x != [] && AllDigits(x) && HasAt(s, a, x)
    requires next != [] && !IsDigit(next[0]) && HasAt(s, a + |x|, next)
    ensures DigitRun(s, a) == |x|
  {
    DigitsAt(s, a, x);
    assert s[a + |x|] == s[a + |x|..a + |x| + |next|][0];
    DigitRunExact(s, a, |x|);
  }

  /** Every match of the pattern at `i` is the one `MatchAt` finds; in
      particular the pattern matches at a position in at most one way. */
  lemma MatchAtComplete(p: Pattern, s: string, i: nat, x: string, y: string)
    requires DelimitsDigits(p)
    requires i <= |s|
    requires MatchesWith(p, s, i, x, y)
    ensures MatchAt(p, s, i) == Some(Count(x, y))
  {
    var a := i + |p.prefix|;
    var b := a + |x| + |p.middle|;
    RunAt(s, a, x, p.middle);
    RunAt(s, b, y, p.suffix);
    MatchAtRuns(p, s, i, x, y);
  }

  /** A match whose digits are the whole runs there is what `MatchAt`
      finds. */
  lemma MatchAtRuns(p: Pattern, s: string, i: nat, x: string, y: string)
    requires i <= |s| && MatchesWith(p, s, i, x, y)
    requires DigitRun(s, i + |p.prefix|) == |x|
    requires DigitRun(s, i + |p.prefix| + |x| + |p.middle|) == |y|
    ensures MatchAt(p, s, i) == Some(Count(x, y))
  {
    var a := i + |p.prefix|;
    assert MatchAt(p, s, i) == MatchFromCurrent(p, s, a);
    MatchFromCurrentRuns(p, s, a, x, y);
  }

  /** `MatchFromCurrent` in terms of the two runs it reads. */
  lemma MatchFromCurrentRuns(p: Pattern, s: string, a: nat, x: string, y: string)
    requires a <= |s| && MatchesFrom(p, s, a, x, y)
    requires DigitRun(s, a) == |x| && DigitRun(s, a + |x| + |p.middle|) == |y|
    ensures MatchFromCurrent(p, s, a) == Some(Count(x, y))
  {
    var b := a + |x| + |p.middle|;
    assert s[a..a + |x|] == x && s[b..b + |y|] == y;
  }

  /** The first attempt from `from` on that succeeded. */
  function FirstSome(attempts: seq<Option<Count>>, from: nat): (r: Option<Match>)
    requires from <= |attempts|
    ensures r.None? ==> forall i :: from <= i < |attempts| ==> attempts[i].None?
    ensures r.Some? ==> from <= r.value.at < |attempts| && attempts[r.value.at] == Some(r.value.count)
    ensures r.Some? ==> forall i :: from <= i < r.value.at ==> attempts[i].None?
    decreases |attempts| - from
  {
    if from == |attempts| then None
    else if attempts[from].Some? then Some(Match(from, attempts[from].value))
    else FirstSome(attempts, from + 1)
  }

  /** `Regex.Match`: the pattern tried at every position, left to right;
      the first success wins. */
  function FindMatch(p: Pattern, s: string): (r: Option<Match>)
    ensures r.None? ==> forall i :: 0 <= i <= |s| ==> MatchAt(p, s, i).None?
    ensures r.Some? ==> r.value.at <= |s| && MatchAt(p, s, r.value.at) == Some(r.value.count)
    ensures r.Some? ==> forall i :: 0 <= i < r.value.at ==> MatchAt(p, s, i).None?
  {
    var attempts := seq(|s| + 1, i requires 0 <= i <= |s| => MatchAt(p, s, i));
    assert forall i :: 0 <= i <= |s| ==> attempts[i] == MatchAt(p, s, i);
    FirstSome(attempts, 0)
  }

  /** `int.TryParse` of a captured digit run: its value, or 0 when the
      value does not fit in an `int`. */
  lemma DigitTextParses(x: string)
    requires x != [] && AllDigits(x)
    ensures ParseInt32OrZero(x) == if DigitsValue(x) <= MaxInt32 then DigitsValue(x) else 0
  {
    SkipNumberWhiteDigits(x);
    DropTrailingNulsDigits(x);
    DropNumberWhiteEndDigits(x);
    assert Lex(x) == Some(IntegerText(false, x));
  }

  /** The value a captured run shows up as. */
  function CountValue(x: string): (v: Int32)
    requires x != [] && AllDigits(x)
    ensures v >= 0
    ensures DigitsValue(x) <= MaxInt32 ==> v == DigitsValue(x)
    ensures DigitsValue(x) > MaxInt32 ==> v == 0
  {
    DigitTextParses(x);
    ParseInt32OrZero(x)
  }

  /** `$"Players: {currentPlayers}/{maxPlayers}"`. */
  function PlayersText(current: Int32, maximum: Int32): string {
    "Players: " + IntToString(current) + "/" + IntToString(maximum)
  }

  /** The player-count handler of a received message: a blank body, or one
      whose colour-stripped text has no match, leaves the shown text as it
      was; otherwise the text shows the first match's two numbers. */
  function UpdatePlayerText(shown: string, body: string): (r: string)
    ensures IsBlank(body) ==> r == shown
    ensures !IsBlank(body) && FindMatch(ListPattern, RemoveColorCodes(body)).None? ==> r == shown
    ensures !IsBlank(body) && FindMatch(ListPattern, RemoveColorCodes(body)).Some? ==>
              var m := FindMatch(ListPattern, RemoveColorCodes(body)).value;
              MatchesWith(ListPattern, RemoveColorCodes(body), m.at, m.count.current, m.count.maximum)
              && r == PlayersText(CountValue(m.count.current), CountValue(m.count.maximum))
  {
    if IsBlank(body) then shown
    else
      var text := RemoveColorCodes(body);
      match FindMatch(ListPattern, text)
      case None => shown
      case Some(m) =>
        MatchAtSound(ListPattern, text, m.at);
        PlayersText(CountValue(m.count.current), CountValue(m.count.maximum))
  }

  /** The reply to `list` the handler was written for. */
  const ListReply: string := "There are " + "0" + " of a max of " + "20" + " players online:"

  /** The text the pattern describes, with `x` and `y` filled in, matches
      it at its start. */
  lemma {:induction false} MatchesFilledIn(p: Pattern, x: string, y: string)
    requires x != [] && AllDigits(x) && y != [] && AllDigits(y)
    ensures MatchesWith(p, p.prefix + x + p.middle + y + p.suffix, 0, x, y)
  {
    var s := p.prefix + x + p.middle + y + p.suffix;
    var a := |p.prefix|;
    var b := a + |x|;
    var c := b + |p.middle|;
    var d := c + |y|;
    assert s[..a] == p.prefix;
    assert s[a..b] == x;
    assert s[b..c] == p.middle;
    assert s[c..d] == y;
    assert s[d..d + |p.suffix|] == p.suffix;
  }

  lemma ListReplyMatches()
    ensures MatchesWith(ListPattern, ListReply, 0, "0", "20")
  {
    MatchesFilledIn(ListPattern, "0", "20");
  }

  lemma ListReplyFound()
    ensures FindMatch(ListPattern, RemoveColorCodes(ListReply)) == Some(Match(0, Count("0", "20")))
  {
    ListReplyUncoloured();
    ListReplyMatches();
    MatchAtComplete(ListPattern, ListReply, 0, "0", "20");
    var r := FindMatch(ListPattern, ListReply);
    assert r.Some? && r.value.at == 0;
  }

  lemma ListReplyUncoloured()
    ensures RemoveColorCodes(ListReply) == ListReply
    ensures !IsBlank(ListReply)
  {
    assert SectionSign !in ListReply;
    assert !IsWhiteSpace(ListReply[0]);
  }

  lemma ListReplyValues()
    ensures AllDigits("0") && AllDigits("20")
    ensures CountValue("0") == 0 && CountValue("20") == 20
  {
    assert DigitsValue("20") == 20 by {
      assert "20"[..1] == "2";
    }
  }

  lemma ListReplyText()
    ensures PlayersText(0, 20) == "Players: 0/20"
  {
    assert NatToString(2) == "2";
    assert NatToString(20) == "20";
  }

  /** The handler turns that reply into "Players: 0/20", whatever it
      showed before. */
  lemma ListReplyExample(shown: string, body: string)
    requires body == ListReply
    ensures UpdatePlayerText(shown, body) == "Players: 0/20"
  {
    ListReplyUncoloured();
    ListReplyFound();
    ListReplyValues();
    ListReplyText();
  }
}
