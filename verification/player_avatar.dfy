/** Player head images from the mc-heads.net service: the image address of
    a player name, and a player entry that records it. */
module PlayerAvatar {
  import opened Wrappers
  import opened Text
  import opened Numbers

  const HeadsBaseUrl: string := "https://mc-heads.net"

  /** The size the service asks for when the caller gives none. */
  const DefaultAvatarSize: Int32 := 100

  /** The text before the player name, and the text after the size. */
  const AvatarPrefix: string := "https://mc-heads.net/avatar/"
  const AvatarSuffix: string := "/nohelm.png"

  /** `GetPlayerAvatarUrl(playerName, size)`: the empty text for a null or
      blank name; otherwise the head image of that name at that size,
      with the name inserted verbatim. */
  function GetPlayerAvatarUrl(playerName: Option<string>, size: Int32): (r: string)
    ensures IsNullOrWhiteSpace(playerName) ==> r == ""
    ensures !IsNullOrWhiteSpace(playerName) ==>
              r == AvatarPrefix + playerName.value + "/" + IntToString(size) + AvatarSuffix
  {
    if IsNullOrWhiteSpace(playerName) then ""
    else AvatarPrefix + playerName.value + "/" + IntToString(size) + AvatarSuffix
  }

  /** The position of the last `c` in `s`, if any. */
  function LastIndexOf(c: char, s: string): (r: Option<nat>)
    ensures r.None? ==> c !in s
    ensures r.Some? ==> r.value < |s| && s[r.value] == c
    ensures r.Some? ==> forall j :: r.value < j < |s| ==> s[j] != c
  {
    if s == [] then None
    else if s[|s| - 1] == c then Some(|s| - 1)
    else
      var r := LastIndexOf(c, s[..|s| - 1]);
      assert s == s[..|s| - 1] + [s[|s| - 1]];
      r
  }

  /** `name/size`, split at the last '/'. */
  function SplitNameSize(m: string): (r: Option<(string, Int32)>)
    ensures r.Some? ==> r.value.0 + ['/'] <= m
  {
    match LastIndexOf('/', m)
    case None => None
    case Some(k) =>
      match TryParseInt32(m[k + 1..])
      case None => None
      case Some(v) =>
        SlashPrefix(m, k);
        Some((m[..k], v))
  }

  lemma SlashPrefix(m: string, k: nat)
    requires k < |m| && m[k] == '/'
    ensures m[..k] + ['/'] <= m
  {
    assert m[..k] + ['/'] == m[..k + 1];
  }

  /** The text of `url` between `prefix` and `suffix`, when it starts with
      the one and ends with the other. */
  function Between(url: string, prefix: string, suffix: string): (r: Option<string>)
    ensures r.Some? ==> url == prefix + r.value + suffix
  {
    if |url| >= |prefix| + |suffix| && url[..|prefix|] == prefix && url[|url| - |suffix|..] == suffix then
      var m := url[|prefix|..|url| - |suffix|];
      assert url == url[..|prefix|] + m + url[|url| - |suffix|..];
      Some(m)
    else None
  }

  lemma BetweenOfConcat(prefix: string, m: string, suffix: string)
    ensures Between(prefix + m + suffix, prefix, suffix) == Some(m)
  {
    var url := prefix + m + suffix;
    assert url[..|prefix|] == prefix;
    assert url[|url| - |suffix|..] == suffix;
    assert url[|prefix|..|url| - |suffix|] == m;
  }

  lemma PrefixExtends(p: string, a: string, b: string, c: string)
    requires a <= b
    ensures p + a <= p + b + c
  {
    assert (p + b + c)[..|p + a|] == p + a;
  }

  /** The player name and size an avatar address asks for: the text
      between the fixed prefix and suffix, split at its last '/'. The
      address starts with the prefix, the name and a '/'. */
  function ParseAvatarUrl(url: string): (r: Option<(string, Int32)>)
    ensures r.Some? ==> AvatarPrefix + (r.value.0 + ['/']) <= url
  {
    match Between(url, AvatarPrefix, AvatarSuffix)
    case None => None
    case Some(m) =>
      var r := SplitNameSize(m);
      if r.Some? then
        PrefixExtends(AvatarPrefix, r.value.0 + ['/'], m, AvatarSuffix);
        r
      else None
  }

  /** `name/size` splits back into the name and the size. */
  lemma {:induction false} SplitNameSizeRoundTrip(name: string, size: Int32)
    ensures SplitNameSize(name + ['/'] + IntToString(size)) == Some((name, size))
  {
    var digits := IntToString(size);
    var m := name + ['/'] + digits;
    IntToStringChars(size);
    assert '/' !in digits;
    LastSlash(name, digits);
    assert m[|name| + 1..] == digits && m[..|name|] == name;
    ParseIntFormatted(size, MinInt32, MaxInt32);
  }

  /** The address of a non-blank name reads back as that name and size,
      even when the name itself contains '/'. */
  lemma AvatarUrlRoundTrip(name: string, size: Int32)
    requires !IsBlank(name)
    ensures ParseAvatarUrl(GetPlayerAvatarUrl(Some(name), size)) == Some((name, size))
  {
    var m := name + ['/'] + IntToString(size);
    assert GetPlayerAvatarUrl(Some(name), size) == AvatarPrefix + m + AvatarSuffix;
    BetweenOfConcat(AvatarPrefix, m, AvatarSuffix);
    SplitNameSizeRoundTrip(name, size);
  }

  /** The last '/' of `a/b` is the one after `a` when `b` has none: by
      induction on `b`, dropping its last character. */
  lemma {:induction false} LastSlash(a: string, b: string)
    requires '/' !in b
    ensures LastIndexOf('/', a + ['/'] + b) == Some(|a|)
    decreases |b|
  {
    var m := a + ['/'] + b;
    if b == [] {
      assert m[|m| - 1] == '/';
    } else {
      var b' := b[..|b| - 1];
      assert m[|m| - 1] == b[|b| - 1] != '/';
      assert m[..|m| - 1] == a + ['/'] + b';
      assert '/' !in b' by {
        assert forall k :: 0 <= k < |b'| ==> b'[k] == b[k];
      }
      LastSlash(a, b');
    }
  }

  /** Different players, or sizes, get different addresses. */
  lemma AvatarUrlInjective(n1: string, s1: Int32, n2: string, s2: Int32)
    requires !IsBlank(n1) && !IsBlank(n2)
    ensures GetPlayerAvatarUrl(Some(n1), s1) == GetPlayerAvatarUrl(Some(n2), s2) <==> n1 == n2 && s1 == s2
  {
    AvatarUrlRoundTrip(n1, s1);
    AvatarUrlRoundTrip(n2, s2);
  }

  /** A player of the player list, with the avatar fields the service
      fills in. */
  datatype Player = Player(
    name: string,
    status: string,
    gameMode: string,
    isOperator: bool,
    dimension: string,
    avatarUrl: string,
    isLoadingAvatar: bool)

  /** `new Player(name, status)`: a survival-mode, non-operator player in
      the overworld, with no avatar yet. */
  function NewPlayer(name: string, status: Option<string>): (p: Player)
    ensures p.name == name && p.status == status.GetOr("Online")
    ensures p.gameMode == "Survival" && p.dimension == "Overworld" && !p.isOperator
    ensures p.avatarUrl == "" && !p.isLoadingAvatar
  {
    Player(name, status.GetOr("Online"), "Survival", false, "Overworld", "", false)
  }

  /** `LoadPlayerAvatarAsync(player, size)`: the player afterwards. A null
      player or a blank name is left alone; otherwise the avatar address
      is set and the loading flag, raised while it is set, ends lowered. */
  function LoadPlayerAvatar(player: Option<Player>, size: Int32): (r: Option<Player>)
    ensures player.None? ==> r.None?
    ensures player.Some? && IsBlank(player.value.name) ==> r == player
    ensures player.Some? && !IsBlank(player.value.name) ==>
              && r.Some?
              && r.value.avatarUrl == GetPlayerAvatarUrl(Some(player.value.name), size)
              && !r.value.isLoadingAvatar
              && r.value.(avatarUrl := player.value.avatarUrl, isLoadingAvatar := player.value.isLoadingAvatar) == player.value
  {
    match player
    case None => None
    case Some(p) =>
      if IsNullOrWhiteSpace(Some(p.name)) then player
      else
        var loading := p.(isLoadingAvatar := true);
        var withUrl := loading.(avatarUrl := GetPlayerAvatarUrl(Some(p.name), size));
        Some(withUrl.(isLoadingAvatar := false))
  }

  /** After loading, the player's avatar address names that player at the
      requested size, and loading again changes nothing. */
  lemma LoadedAvatarNamesPlayer(p: Player, size: Int32)
    requires !IsBlank(p.name)
    ensures var q := LoadPlayerAvatar(Some(p), size).value;
            && ParseAvatarUrl(q.avatarUrl) == Some((p.name, size))
            && LoadPlayerAvatar(Some(q), size) == Some(q)
  {
    AvatarUrlRoundTrip(p.name, size);
  }

  /** With the default size the address asks for a 100-pixel head. */
  lemma DefaultSizeAddress(name: string)
    requires !IsBlank(name)
    ensures GetPlayerAvatarUrl(Some(name), DefaultAvatarSize)
         == "https://mc-heads.net/avatar/" + name + "/100/nohelm.png"
  {
    assert IntToString(100) == "100" by {
      assert NatToString(10) == "10";
    }
  }
}
