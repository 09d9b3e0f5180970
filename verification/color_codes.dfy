/** Minecraft's '§' formatting codes and the regular expression
    `(§(\d|\w))+` both colour-stripping helpers replace with the empty
    string. `Regex.Replace` scans left to right; wherever the pattern
    matches it removes the longest run of '§'-plus-code pairs and resumes
    after it. */
module ColorCodes {
  import opened Text

  const SectionSign: char := '§'

  /** `\w`, restricted to ASCII: letters, digits and '_'. */
  predicate IsWordChar(c: char) {
    ('a' <= c <= 'z') || ('A' <= c <= 'Z') || IsDigit(c) || c == '_'
  }

  /** `\d|\w`: the character after '§'. */
  predicate IsCodeChar(c: char) {
    IsDigit(c) || IsWordChar(c)
  }

  /** `\d` adds nothing to `\w`, so a code character is a word character. */
  lemma CodeCharIsWordChar(c: char)
    ensures IsCodeChar(c) <==> IsWordChar(c)
  {
  }

  /** `§(\d|\w)` matches at the front of `s`. */
  predicate StartsWithCode(s: string) {
    |s| >= 2 && s[0] == SectionSign && IsCodeChar(s[1])
  }

  /** The number of pairs in the greedy `(§(\d|\w))+` match at the front of
      `s`; 0 when the pattern does not match there. */
  function RunLength(s: string): (n: nat)
    ensures 2 * n <= |s|
    ensures n > 0 <==> StartsWithCode(s)
  {
    if StartsWithCode(s) then 1 + RunLength(s[2..]) else 0
  }

  /** `Regex.Replace(s, "(§(\d|\w))+", "")`. */
  function ReplaceColorRuns(s: string): string
    decreases |s|
  {
    if s == [] then []
    else
      var n := RunLength(s);
      if n > 0 then ReplaceColorRuns(s[2 * n..]) else [s[0]] + ReplaceColorRuns(s[1..])
  }

  /** The same filter stated without the regular expression: delete each
      '§' that is immediately followed by a word character, together with
      that character, reading left to right; keep everything else. */
  function StripPairs(s: string): (r: string)
    ensures IsSubsequence(r, s)
    ensures |r| <= |s|
    decreases |s|
  {
    if s == [] then []
    else if |s| >= 2 && s[0] == SectionSign && IsWordChar(s[1]) then
      var r := StripPairs(s[2..]);
      SubsequenceDropFront(r, s[1..]);
      SubsequenceDropFront(r, s);
      r
    else
      var r := [s[0]] + StripPairs(s[1..]);
      SubsequenceCons(s[0], StripPairs(s[1..]), s[1..]);
      assert [s[0]] + s[1..] == s;
      r
  }

  /** Removing a whole run at once is the same as removing its pairs one
      by one. */
  lemma {:induction false} RunsAgreeWithPairs(s: string)
    ensures ReplaceColorRuns(s) == StripPairs(s)
    decreases |s|
  {
    if s != [] {
      var n := RunLength(s);
      if n > 0 {
        var t := s[2..];
        assert RunLength(t) == n - 1;
        if n > 1 {
          assert t[2 * (n - 1)..] == s[2 * n..];
        } else {
          assert t == s[2 * n..];
        }
        RunsAgreeWithPairs(t);
      } else {
        RunsAgreeWithPairs(s[1..]);
      }
    }
  }

  /** A string without '§' passes through unchanged. */
  lemma {:induction false} NoSectionSignUnchanged(s: string)
    ensures SectionSign !in s ==> StripPairs(s) == s
    decreases |s|
  {
    if s != [] && SectionSign !in s {
      assert SectionSign !in s[1..];
      NoSectionSignUnchanged(s[1..]);
      assert s == [s[0]] + s[1..];
    }
  }

  /** A '§' at the very end is kept: it has no character to pair with, and
      it is not a word character, so it cannot end a pair either. */
  lemma {:induction false} TrailingSectionSignKept(s: string)
    ensures StripPairs(s + [SectionSign]) == StripPairs(s) + [SectionSign]
    decreases |s|
  {
    var t := s + [SectionSign];
    if s == [] {
    } else if |s| >= 2 && s[0] == SectionSign && IsWordChar(s[1]) {
      assert t[2..] == s[2..] + [SectionSign];
      TrailingSectionSignKept(s[2..]);
    } else if |s| == 1 {
      assert t == [s[0], SectionSign];
      assert t[1..] == [SectionSign];
    } else {
      assert t[1..] == s[1..] + [SectionSign];
      TrailingSectionSignKept(s[1..]);
    }
  }

  /** A '§' followed by a character that is not a word character (a
      space, punctuation, another '§') is kept. */
  lemma SectionSignBeforeNonWordKept(c: char, rest: string)
    requires !IsWordChar(c)
    ensures StripPairs([SectionSign, c] + rest) == [SectionSign] + StripPairs([c] + rest)
  {
    assert ([SectionSign, c] + rest)[1..] == [c] + rest;
  }

  /** One pass only: "§§aa" loses the inner code and becomes "§a", which a
      second pass would empty, so stripping is not idempotent. */
  lemma NotIdempotent()
    ensures StripPairs("§§aa") == "§a"
    ensures StripPairs("§a") == ""
  {
    assert StripPairs("a") == "a";
    assert StripPairs("§aa") == "a";
    assert "§§aa"[1..] == "§aa";
  }
}

/** `MinecraftExtensions.RemoveColorCodes` of the mobile app. */
module MinecraftExtensions {
  import opened Text
  import opened ColorCodes

  function RemoveColorCodes(text: string): (r: string)
    ensures r == StripPairs(text)
    ensures IsSubsequence(r, text) && |r| <= |text|
    ensures SectionSign !in text ==> r == text
  {
    RunsAgreeWithPairs(text);
    NoSectionSignUnchanged(text);
    ReplaceColorRuns(text)
  }
}

/** `MinecraftHelper.RemoveColorCodes` of the older desktop client: the
    same pattern, so the same function. */
module MinecraftHelper {
  import opened Text
  import opened ColorCodes
  import MinecraftExtensions

  function RemoveColorCodes(text: string): (r: string)
    ensures r == MinecraftExtensions.RemoveColorCodes(text)
    ensures IsSubsequence(r, text) && |r| <= |text|
    ensures SectionSign !in text ==> r == text
  {
    RunsAgreeWithPairs(text);
    NoSectionSignUnchanged(text);
    ReplaceColorRuns(text)
  }
}
