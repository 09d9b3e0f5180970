/** Multisets of sequences, and mapping a function over a sequence. */
module Permutations {
  lemma MultisetTail<T>(a: seq<T>)
    requires a != []
    ensures multiset(a[1..]) == multiset(a) - multiset{a[0]}
  {
    assert a == [a[0]] + a[1..];
  }

  lemma SameMultisetSameLength<T>(a: seq<T>, b: seq<T>)
    requires multiset(a) == multiset(b)
    ensures |a| == |b|
  {
    assert |a| == |multiset(a)| && |b| == |multiset(b)|;
  }

  lemma SplitAt<T>(s: seq<T>, k: nat)
    requires k < |s|
    ensures s == s[..k] + [s[k]] + s[k + 1..]
  {
  }

  lemma RemoveAt<T>(s: seq<T>, k: nat)
    requires k < |s|
    ensures multiset(s[..k] + s[k + 1..]) == multiset(s) - multiset{s[k]}
  {
    SplitAt(s, k);
  }

  /** `f` applied to every element, in order. */
  function Map<A, B>(f: A -> B, s: seq<A>): (r: seq<B>)
    ensures |r| == |s|
    ensures forall i :: 0 <= i < |s| ==> r[i] == f(s[i])
  {
    if s == [] then [] else [f(s[0])] + Map(f, s[1..])
  }

  lemma MapAppend<A, B>(f: A -> B, a: seq<A>, b: seq<A>)
    ensures Map(f, a + b) == Map(f, a) + Map(f, b)
  {
    var ab := a + b;
    var fa, fb := Map(f, a), Map(f, b);
    var l, r := Map(f, ab), fa + fb;
    forall i | 0 <= i < |l|
      ensures l[i] == r[i]
    {
      if i < |a| {
        assert ab[i] == a[i] && r[i] == fa[i];
      } else {
        assert ab[i] == b[i - |a|] && r[i] == fb[i - |a|];
      }
    }
    assert l == r;
  }

  lemma MapAppendMultiset<A, B>(f: A -> B, a: seq<A>, b: seq<A>)
    ensures multiset(Map(f, a + b)) == multiset(Map(f, a)) + multiset(Map(f, b))
  {
    MapAppend(f, a, b);
  }

  lemma MapRemoveAt<A, B>(f: A -> B, s: seq<A>, k: nat)
    requires k < |s|
    ensures multiset(Map(f, s)) == multiset(Map(f, s[..k] + s[k + 1..])) + multiset{f(s[k])}
  {
    var a, x, c := s[..k], s[k], s[k + 1..];
    SplitAt(s, k);
    MapAppendMultiset(f, a + [x], c);
    MapAppendMultiset(f, a, [x]);
    MapAppendMultiset(f, a, c);
    assert Map(f, [x]) == [f(x)];
  }

  /** The images of a permutation are a permutation of the images. */
  lemma {:induction false} MapPermutation<A, B>(f: A -> B, a: seq<A>, b: seq<A>)
    requires multiset(a) == multiset(b)
    ensures multiset(Map(f, a)) == multiset(Map(f, b))
    decreases |a|
  {
    SameMultisetSameLength(a, b);
    if a != [] {
      assert a[0] in multiset(b);
      var k :| 0 <= k < |b| && b[k] == a[0];
      var rest := b[..k] + b[k + 1..];
      RemoveAt(b, k);
      MultisetTail(a);
      MapPermutation(f, a[1..], rest);
      MapRemoveAt(f, b, k);
      assert Map(f, a) == [f(a[0])] + Map(f, a[1..]);
      assert multiset(Map(f, a)) == multiset{f(a[0])} + multiset(Map(f, a[1..]));
    }
  }
}

/** Ascending code-point order of strings, standing in for the
    culture-sensitive comparer of `OrderBy(p => p)`, as an insertion
    sort, and the fact that a sorted permutation is unique, so any
    algorithm producing one gives the same sequence. */
module NameSort {
  import opened Text
  import opened Permutations

  predicate Sorted(s: seq<string>) {
    forall i, j :: 0 <= i < j < |s| ==> LexLe(s[i], s[j])
  }

  lemma SortedTail(s: seq<string>)
    requires s != [] && Sorted(s)
    ensures Sorted(s[1..])
  {
    forall i, j | 0 <= i < j < |s| - 1
      ensures LexLe(s[1..][i], s[1..][j])
    {
      assert s[1..][i] == s[i + 1] && s[1..][j] == s[j + 1];
    }
  }

  /** The head of a sorted sequence is below everything in it. */
  lemma HeadIsLeast(s: seq<string>, x: string)
    requires s != [] && Sorted(s) && x in multiset(s)
    ensures LexLe(s[0], x)
  {
    var k :| 0 <= k < |s| && s[k] == x;
    if k == 0 {
      LexLeReflexive(x);
    }
  }

  /** Prepending a lower bound of a sorted sequence keeps it sorted. */
  lemma PrependLowerBound(x: string, t: seq<string>)
    requires Sorted(t)
    requires forall y :: y in multiset(t) ==> LexLe(x, y)
    ensures Sorted([x] + t)
  {
    var r := [x] + t;
    forall i, j | 0 <= i < j < |r|
      ensures LexLe(r[i], r[j])
    {
      if i == 0 {
        assert r[j] == t[j - 1] && t[j - 1] in multiset(t);
      } else {
        assert r[i] == t[i - 1] && r[j] == t[j - 1];
      }
    }
  }

  /** One insertion step: `x` goes before the first element it is not
      above. */
  function Insert(x: string, s: seq<string>): (r: seq<string>)
    requires Sorted(s)
    ensures Sorted(r)
    ensures multiset(r) == multiset(s) + multiset{x}
    decreases |s|
  {
    if s == [] then [x]
    else if LexLe(x, s[0]) then
      forall y | y in multiset(s)
        ensures LexLe(x, y)
      {
        HeadIsLeast(s, y);
        LexLeTransitive(x, s[0], y);
      }
      PrependLowerBound(x, s);
      [x] + s
    else
      SortedTail(s);
      var t := Insert(x, s[1..]);
      LexLeTotal(x, s[0]);
      assert s == [s[0]] + s[1..];
      forall y | y in multiset(t)
        ensures LexLe(s[0], y)
      {
        if y != x {
          assert y in multiset(s);
          HeadIsLeast(s, y);
        }
      }
      PrependLowerBound(s[0], t);
      [s[0]] + t
  }

  /** `OrderBy(p => p)`: a sorted permutation of its input. */
  function Sort(s: seq<string>): (r: seq<string>)
    ensures Sorted(r)
    ensures multiset(r) == multiset(s)
    decreases |s|
  {
    if s == [] then []
    else
      assert s == [s[0]] + s[1..];
      Insert(s[0], Sort(s[1..]))
  }

  /** There is only one sorted arrangement of a multiset of strings. */
  lemma {:induction false} SortedUnique(a: seq<string>, b: seq<string>)
    requires Sorted(a) && Sorted(b) && multiset(a) == multiset(b)
    ensures a == b
    decreases |a|
  {
    SameMultisetSameLength(a, b);
    if a != [] {
      HeadsEqual(a, b);
      SortedTail(a);
      SortedTail(b);
      SortedUnique(a[1..], b[1..]);
      assert a == [a[0]] + a[1..] && b == [b[0]] + b[1..];
    }
  }

  /** Two sorted arrangements of one multiset start alike, and so the
      rest is again one multiset. */
  lemma HeadsEqual(a: seq<string>, b: seq<string>)
    requires a != [] && b != []
    requires Sorted(a) && Sorted(b) && multiset(a) == multiset(b)
    ensures a[0] == b[0] && multiset(a[1..]) == multiset(b[1..])
  {
    assert a[0] in multiset(b) && b[0] in multiset(a);
    HeadIsLeast(b, a[0]);
    HeadIsLeast(a, b[0]);
    LexLeAntisymmetric(a[0], b[0]);
    MultisetTail(a);
    MultisetTail(b);
  }

  /** Sorting depends only on the multiset of its input. */
  lemma SortPermutationInvariant(a: seq<string>, b: seq<string>)
    requires multiset(a) == multiset(b)
    ensures Sort(a) == Sort(b)
  {
    SortedUnique(Sort(a), Sort(b));
  }

  /** Sorting a sorted sequence changes nothing. */
  lemma SortSorted(a: seq<string>)
    requires Sorted(a)
    ensures Sort(a) == a
  {
    SortedUnique(Sort(a), a);
  }
}

/** The texts a server tile shows, derived from the last status query of
    its profile (`null` when none is known). */
module ServerProfileView {
  import opened Wrappers
  import opened Text
  import opened Numbers
  import opened NameSort
  import opened Permutations
  import MinecraftExtensions

  /** The status record of a server query: the fields the tile reads. */
  datatype ServerStatus = ServerStatus(
    isOnline: bool,
    onlinePlayers: Int32,
    maxPlayers: Int32,
    versionName: string,
    ping: Int32,
    errorMessage: Option<string>,
    gameType: string,
    hostIp: string,
    hostPort: Int32,
    playerList: Option<seq<Option<string>>>,
    faviconBytes: Option<seq<Byte>>)

  /** `Environment.NewLine` on the phone platforms the app targets. */
  const NewLine: string := "\n"

  /** `IsOnline`: false while no status is known. */
  predicate IsOnline(status: Option<ServerStatus>) {
    status.Some? && status.value.isOnline
  }

  /** The online form of `StatusText`. */
  function OnlineText(online: int, max: int): string {
    "Online (" + IntToString(online) + "/" + IntToString(max) + " players)"
  }

  /** `StatusText`: the player counts while online; otherwise the query's
      error message, or "Offline" when there is none. An empty error
      message is shown as the empty text, not as "Offline". */
  function StatusText(status: Option<ServerStatus>): (r: string)
    ensures IsOnline(status) ==> r == OnlineText(status.value.onlinePlayers, status.value.maxPlayers)
    ensures !IsOnline(status) && status.Some? && status.value.errorMessage.Some? ==> r == status.value.errorMessage.value
    ensures !IsOnline(status) && (status.None? || status.value.errorMessage.None?) ==> r == "Offline"
  {
    if IsOnline(status) then OnlineText(status.value.onlinePlayers, status.value.maxPlayers)
    else if status.Some? && status.value.errorMessage.Some? then status.value.errorMessage.value
    else "Offline"
  }

  /** `VersionText`: the version name without colour codes or surrounding
      white space. */
  function VersionText(status: Option<ServerStatus>): (r: string)
    ensures status.None? ==> r == ""
    ensures status.Some? ==> r == Trim(MinecraftExtensions.RemoveColorCodes(status.value.versionName))
    ensures r == "" || (!IsWhiteSpace(r[0]) && !IsWhiteSpace(r[|r| - 1]))
  {
    if status.None? then "" else Trim(MinecraftExtensions.RemoveColorCodes(status.value.versionName))
  }

  /** `PingText`: the round-trip time in milliseconds while online. */
  function PingText(status: Option<ServerStatus>): (r: string)
    ensures !IsOnline(status) ==> r == ""
    ensures IsOnline(status) ==>
              |r| > 2 && r[|r| - 2..] == "ms" && TryParseInt32(r[..|r| - 2]) == Some(status.value.ping)
  {
    if IsOnline(status) then
      var p := status.value.ping;
      var r := IntToString(p) + "ms";
      Glued(IntToString(p), "ms");
      ParseIntFormatted(p, MinInt32, MaxInt32);
      r
    else ""
  }

  /** `GameTypeText`. */
  function GameTypeText(status: Option<ServerStatus>): (r: string)
    ensures status.None? ==> r == ""
    ensures status.Some? ==> r == status.value.gameType
  {
    if status.None? then "" else status.value.gameType
  }

  /** `HasFavicon`: the server sent an icon of at least one byte. */
  predicate HasFavicon(status: Option<ServerStatus>) {
    status.Some? && status.value.faviconBytes.Some? && |status.value.faviconBytes.value| > 0
  }

  /** The `ip:port` text of a status. */
  function Address(s: ServerStatus): string {
    s.hostIp + [':'] + IntToString(s.hostPort)
  }

  /** `HostText`: the server's address while online. The port is the text
      after the last ':', so an IPv6 address keeps its colons. */
  function HostText(status: Option<ServerStatus>): (r: string)
    ensures !IsOnline(status) ==> r == ""
    ensures IsOnline(status) ==>
              status.value.hostIp + [':'] <= r
              && TryParseInt32(r[|status.value.hostIp| + 1..]) == Some(status.value.hostPort)
  {
    if IsOnline(status) then
      var s := status.value;
      Glued(s.hostIp + [':'], IntToString(s.hostPort));
      ParseIntFormatted(s.hostPort, MinInt32, MaxInt32);
      Address(s)
    else ""
  }

  /** The Game line of the detailed info. */
  function GameLine(gameType: string): string {
    "Game: " + Trim(MinecraftExtensions.RemoveColorCodes(gameType))
  }

  /** The Host line of the detailed info. */
  function HostLine(s: ServerStatus): string {
    "Host: " + Address(s)
  }

  /** `DetailedServerInfo`: empty unless online; otherwise a Game line when
      the game type is non-empty and a Host line when the host is
      non-empty, joined by new lines and trimmed as a whole. */
  function DetailedServerInfo(status: Option<ServerStatus>): (r: string)
  {
    if !IsOnline(status) then ""
    else
      var s := status.value;
      var parts := (if s.gameType != "" then [GameLine(s.gameType)] else [])
                   + (if s.hostIp != "" then [HostLine(s)] else []);
      Trim(Join(NewLine, parts))
  }

  /** `HasPlayerList`: the server sent at least one player name. */
  predicate HasPlayerList(status: Option<ServerStatus>) {
    status.Some? && status.value.playerList.Some? && |status.value.playerList.value| > 0
  }

  /** A reported name as the list shows it: colour codes removed and
      trimmed. A null entry stays null and `string.Join` prints it as the
      empty text; null sorts before every string and the empty text before
      every other string, so rendering it as "" at once gives the same
      list. */
  function DisplayName(player: Option<string>): (r: string)
    ensures player.None? ==> r == ""
    ensures r == "" || (!IsWhiteSpace(r[0]) && !IsWhiteSpace(r[|r| - 1]))
  {
    match player
    case None => ""
    case Some(p) => Trim(MinecraftExtensions.RemoveColorCodes(p))
  }

  function DisplayNames(players: seq<Option<string>>): (r: seq<string>)
    ensures |r| == |players|
    ensures forall i :: 0 <= i < |players| ==> r[i] == DisplayName(players[i])
  {
    Map(DisplayName, players)
  }

  /** `PlayerListText`: empty when there is no list or it is empty;
      otherwise "Players: " and the display names in ascending order,
      separated by ", ". */
  function PlayerListText(status: Option<ServerStatus>): (r: string)
    ensures !HasPlayerList(status) ==> r == ""
  {
    if !HasPlayerList(status) then ""
    else "Players: " + Join(", ", Sort(DisplayNames(status.value.playerList.value)))
  }

  // ---------------------------------------------------------------------
  // Properties

  /** A server counts as online exactly when it shows a ping, and exactly
      when it shows an address. */
  lemma OnlineShowsPingAndHost(status: Option<ServerStatus>)
    ensures IsOnline(status) <==> PingText(status) != ""
    ensures IsOnline(status) <==> HostText(status) != ""
  {
  }

  /** Before any status is known the tile shows "Offline" and nothing
      else: it is not online, has no icon and no player list, and every
      other text is empty. */
  lemma NoStatusShowsOffline()
    ensures !IsOnline(None) && !HasFavicon(None) && !HasPlayerList(None)
    ensures StatusText(None) == "Offline"
    ensures VersionText(None) == "" && PingText(None) == "" && GameTypeText(None) == ""
    ensures HostText(None) == "" && DetailedServerInfo(None) == "" && PlayerListText(None) == ""
  {
  }

  /** The online status text tells the counts apart. */
  lemma {:induction false} OnlineTextInjective(a1: int, b1: int, a2: int, b2: int)
    requires OnlineText(a1, b1) == OnlineText(a2, b2)
    ensures a1 == a2 && b1 == b2
  {
    var m1 := IntToString(a1) + ['/'] + IntToString(b1);
    var m2 := IntToString(a2) + ['/'] + IntToString(b2);
    OnlineTextMiddle(a1, b1);
    OnlineTextMiddle(a2, b2);
    SameAffixes("Online (", " players)", m1, m2);
    IntToStringChars(a1);
    IntToStringChars(a2);
    SplitAtFirst('/', IntToString(a1), IntToString(b1), IntToString(a2), IntToString(b2));
    IntToStringInjective(a1, a2);
    IntToStringInjective(b1, b2);
  }

  lemma OnlineTextMiddle(a: int, b: int)
    ensures OnlineText(a, b) == "Online (" + (IntToString(a) + ['/'] + IntToString(b)) + " players)"
  {
  }

  /** The address shown while online determines the host and the port,
      whatever colons the host contains. */
  lemma HostTextDeterminesAddress(s1: ServerStatus, s2: ServerStatus)
    requires s1.isOnline && s2.isOnline
    requires HostText(Some(s1)) == HostText(Some(s2))
    ensures s1.hostIp == s2.hostIp && s1.hostPort == s2.hostPort
  {
    assert HostText(Some(s1)) == Address(s1) && HostText(Some(s2)) == Address(s2);
    AddressInjective(s1, s2);
  }

  lemma {:induction false} AddressInjective(s1: ServerStatus, s2: ServerStatus)
    requires Address(s1) == Address(s2)
    ensures s1.hostIp == s2.hostIp && s1.hostPort == s2.hostPort
  {
    IntToStringChars(s1.hostPort);
    IntToStringChars(s2.hostPort);
    SplitAtLast(':', s1.hostIp, IntToString(s1.hostPort), s2.hostIp, IntToString(s2.hostPort));
    IntToStringInjective(s1.hostPort, s2.hostPort);
  }

  /** The last character of a formatted integer is a digit. */
  lemma IntToStringEndsInDigit(i: int)
    ensures IsDigit(IntToString(i)[|IntToString(i)| - 1])
  {
    var r := IntToString(i);
    if i < 0 {
      assert r[|r| - 1] == r[1..][|r| - 2];
    }
  }

  lemma HostLineUntrimmed(s: ServerStatus)
    ensures Trim(HostLine(s)) == HostLine(s)
  {
    HostLineEdges(s);
    TrimNoEdges(HostLine(s));
  }

  /** The Host line starts with its label and ends with the port's last
      digit. */
  lemma HostLineEdges(s: ServerStatus)
    ensures HostLine(s) != "" && !IsWhiteSpace(HostLine(s)[0]) && !IsWhiteSpace(HostLine(s)[|HostLine(s)| - 1])
  {
    var h := HostLine(s);
    var d := IntToString(s.hostPort);
    IntToStringEndsInDigit(s.hostPort);
    assert h[0] == 'H' && h[|h| - 1] == d[|d| - 1];
  }

  /** The Game line is kept whole when the cleaned game type shows
      something; otherwise only its label remains, without the space. */
  lemma GameLineTrimmed(gameType: string)
    ensures Trim(MinecraftExtensions.RemoveColorCodes(gameType)) != "" ==> Trim(GameLine(gameType)) == GameLine(gameType)
    ensures Trim(MinecraftExtensions.RemoveColorCodes(gameType)) == "" ==> Trim(GameLine(gameType)) == "Game:"
  {
    var x := Trim(MinecraftExtensions.RemoveColorCodes(gameType));
    if x != "" {
      HeadedUntrimmed("Game: ", x);
    } else {
      assert GameLine(gameType) == "Game: ";
      BareLabel(GameLine(gameType));
    }
  }

  lemma HeadedUntrimmed(head: string, x: string)
    requires head != "" && !IsWhiteSpace(head[0])
    requires x != "" && !IsWhiteSpace(x[|x| - 1])
    ensures Trim(head + x) == head + x
  {
    TrimJoined(head, "", x);
    assert head + "" + x == head + x;
  }

  lemma BareLabel(g: string)
    requires g == "Game: "
    ensures Trim(g) == "Game:"
  {
    assert g[..|g| - 1] == "Game:";
    assert TrailingWhite(g) == 1;
    assert LeadingWhite(g) == 0;
    assert !IsBlank(g);
  }

  /** What the detailed info shows in each of its cases. */
  lemma {:induction false} DetailedServerInfoCases(status: Option<ServerStatus>)
    ensures !IsOnline(status) ==> DetailedServerInfo(status) == ""
    ensures IsOnline(status) && status.value.gameType == "" && status.value.hostIp == "" ==>
              DetailedServerInfo(status) == ""
    ensures IsOnline(status) && status.value.gameType == "" && status.value.hostIp != "" ==>
              DetailedServerInfo(status) == HostLine(status.value)
    ensures IsOnline(status) && status.value.gameType != "" && status.value.hostIp == "" ==>
              DetailedServerInfo(status) == Trim(GameLine(status.value.gameType))
    ensures IsOnline(status) && status.value.gameType != "" && status.value.hostIp != "" ==>
              DetailedServerInfo(status) == GameLine(status.value.gameType) + NewLine + HostLine(status.value)
  {
    if IsOnline(status) {
      var s := status.value;
      if s.gameType == "" && s.hostIp == "" {
        assert Trim("") == "";
      } else if s.gameType == "" {
        DetailedHostOnly(s);
      } else if s.hostIp != "" {
        DetailedBoth(s);
      }
    }
  }

  lemma DetailedHostOnly(s: ServerStatus)
    requires s.isOnline && s.gameType == "" && s.hostIp != ""
    ensures DetailedServerInfo(Some(s)) == HostLine(s)
  {
    assert DetailedServerInfo(Some(s)) == Trim(Join(NewLine, [HostLine(s)]));
    HostLineUntrimmed(s);
  }

  lemma DetailedBoth(s: ServerStatus)
    requires s.isOnline && s.gameType != "" && s.hostIp != ""
    ensures DetailedServerInfo(Some(s)) == GameLine(s.gameType) + NewLine + HostLine(s)
  {
    var g, h := GameLine(s.gameType), HostLine(s);
    assert DetailedServerInfo(Some(s)) == Trim(Join(NewLine, [g, h]));
    JoinTwo(NewLine, g, h);
    HostLineEdges(s);
    GameLineStart(s.gameType);
    TrimJoined(g, NewLine, h);
  }

  lemma GameLineStart(gameType: string)
    ensures GameLine(gameType) != "" && GameLine(gameType)[0] == 'G'
  {
  }

  /** The list shows a player line exactly when it has players. */
  lemma PlayerListShownIffPlayers(status: Option<ServerStatus>)
    ensures HasPlayerList(status) <==> PlayerListText(status) != ""
  {
  }

  /** The player line lists the display names in the one ascending order
      there is: any sorted arrangement of the names gives the same text. */
  lemma PlayerListTextOrdered(status: Option<ServerStatus>, names: seq<string>)
    requires HasPlayerList(status)
    requires Sorted(names) && multiset(names) == multiset(DisplayNames(status.value.playerList.value))
    ensures PlayerListText(status) == "Players: " + Join(", ", names)
  {
    SortedUnique(Sort(DisplayNames(status.value.playerList.value)), names);
  }

  /** The player line does not depend on the order the server reports
      players in. */
  lemma PlayerListOrderIrrelevant(s1: ServerStatus, s2: ServerStatus)
    requires s1.playerList.Some? && s2.playerList.Some?
    requires multiset(s1.playerList.value) == multiset(s2.playerList.value)
    ensures PlayerListText(Some(s1)) == PlayerListText(Some(s2))
  {
    assert |s1.playerList.value| == |multiset(s1.playerList.value)| == |s2.playerList.value|;
    MapPermutation(DisplayName, s1.playerList.value, s2.playerList.value);
    SortPermutationInvariant(DisplayNames(s1.playerList.value), DisplayNames(s2.playerList.value));
  }
}
