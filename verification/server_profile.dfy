/** A saved server: where to reach it and how to authenticate, plus the
    three texts derived from it for display. */
module ServerProfile {
  import opened Wrappers
  import opened Text
  import opened Numbers

  const DefaultMinecraftPort: UShort := 25565
  const DefaultRconPort: UShort := 25575

  /** `password` is nullable in the source; the ports are `ushort`, so they
      lie in 0..65535 by construction. */
  datatype ServerProfile = ServerProfile(
    id: Guid,
    name: string,
    uri: string,
    minecraftPort: UShort,
    rconPort: UShort,
    password: Option<string>)

  /** `new ServerProfile()`, with `id` standing for the fresh
      `Guid.NewGuid()`. */
  function NewServerProfile(id: Guid): (p: ServerProfile)
    ensures p.id == id && p.name == "" && p.uri == ""
    ensures p.minecraftPort == 25565 && p.rconPort == 25575
    ensures p.password == Some("")
    ensures !HasRconPassword(p)
  {
    ServerProfile(id, "", "", DefaultMinecraftPort, DefaultRconPort, Some(""))
  }

  /** `"{Uri}:{MinecraftPort}"`: the URI, a colon, and the port in
      decimal. */
  function ServerUriText(p: ServerProfile): (r: string)
    ensures |r| > |p.uri| + 1
    ensures r[..|p.uri|] == p.uri && r[|p.uri|] == ':'
  {
    var r := p.uri + [':'] + NatToString(p.minecraftPort);
    assert r[..|p.uri|] == p.uri;
    r
  }

  /** What follows the colon is the Minecraft port's decimal text: digits
      only, with no leading zero unless the port is 0, and it reads back as
      that port. */
  lemma ServerUriTextReadsBack(p: ServerProfile)
    ensures ServerUriText(p)[|p.uri| + 1..] == NatToString(p.minecraftPort)
    ensures AllDigits(ServerUriText(p)[|p.uri| + 1..])
    ensures ServerUriText(p)[|p.uri| + 1] != '0' || ServerUriText(p)[|p.uri| + 1..] == "0"
    ensures TryParseUShort(ServerUriText(p)[|p.uri| + 1..]) == Some(p.minecraftPort)
  {
    assert ServerUriText(p)[|p.uri| + 1..] == NatToString(p.minecraftPort);
    UShortRoundTrip(p.minecraftPort);
  }

  /** The decimal texts of the two default ports. */
  lemma DefaultMinecraftPortText()
    ensures NatToString(DefaultMinecraftPort) == "25565"
  {
    assert NatToString(25) == "25";
    assert NatToString(255) == "255";
    assert NatToString(2556) == "2556";
  }

  lemma DefaultRconPortText()
    ensures NatToString(DefaultRconPort) == "25575"
  {
    assert NatToString(25) == "25";
    assert NatToString(255) == "255";
    assert NatToString(2557) == "2557";
  }

  /** The name when it has a visible character, the URI text otherwise; a
      display name is never blank. */
  function DisplayName(p: ServerProfile): (r: string)
    ensures !IsBlank(p.name) ==> r == p.name
    ensures IsBlank(p.name) ==> r == ServerUriText(p)
    ensures !IsBlank(r)
  {
    if !IsBlank(p.name) then p.name
    else
      var r := ServerUriText(p);
      assert r[|p.uri|] == ':';
      r
  }

  /** Whether the password has a visible character. */
  function HasRconPassword(p: ServerProfile): (r: bool)
    ensures r <==> p.password.Some? && Trim(p.password.value) != ""
  {
    match p.password
    case None => false
    case Some(pw) => TrimEmptyIffBlank(pw); !IsBlank(pw)
  }
}

/** The form behind the profile editor page: every field is text, and
    `CreateServerProfile` turns it into a profile. */
module ServerProfileEdit {
  import opened Wrappers
  import opened Text
  import opened Numbers
  import opened ServerProfile

  datatype EditForm = EditForm(
    name: string,
    serverUri: string,
    minecraftPort: string,
    rconPort: string,
    rconPassword: string)

  const BlankForm: EditForm := EditForm("", "", "25565", "25575", "")

  /** The blank form's port texts are the default ports. */
  lemma BlankFormPorts()
    ensures TryParseUShort(BlankForm.minecraftPort) == Some(DefaultMinecraftPort)
    ensures TryParseUShort(BlankForm.rconPort) == Some(DefaultRconPort)
  {
    DefaultMinecraftPortText();
    DefaultRconPortText();
    UShortRoundTrip(DefaultMinecraftPort);
    UShortRoundTrip(DefaultRconPort);
  }

  /** `Initialize`: a blank form, or the profile's fields with the ports
      in decimal and a null password as "". */
  function Initialize(existing: Option<ServerProfile>): (f: EditForm)
    ensures existing.None? ==> f == BlankForm
    ensures existing.Some? ==> f.name == existing.value.name && f.serverUri == existing.value.uri
    ensures existing.Some? ==> TryParseUShort(f.minecraftPort) == Some(existing.value.minecraftPort)
    ensures existing.Some? ==> TryParseUShort(f.rconPort) == Some(existing.value.rconPort)
    ensures existing.Some? ==> f.rconPassword == existing.value.password.GetOr("")
  {
    match existing
    case None => BlankForm
    case Some(p) =>
      UShortRoundTrip(p.minecraftPort);
      UShortRoundTrip(p.rconPort);
      EditForm(p.name, p.uri, NatToString(p.minecraftPort), NatToString(p.rconPort), p.password.GetOr(""))
  }

  /** A port field read as `ushort`, or the fallback when it does not
      parse. */
  function PortOr(text: string, fallback: UShort): (p: UShort)
    ensures TryParseUShort(text).Some? ==> p == TryParseUShort(text).value
    ensures TryParseUShort(text).None? ==> p == fallback
  {
    TryParseUShort(text).GetOr(fallback)
  }

  /** The shape of every profile the editor produces: a trimmed name, a
      trimmed lower-case URI with a visible character, and either no
      password or a trimmed one with a visible character. */
  predicate Normalised(p: ServerProfile) {
    && Trim(p.name) == p.name
    && !IsBlank(p.uri) && ToLower(Trim(p.uri)) == p.uri
    && (p.password.None? || (!IsBlank(p.password.value) && Trim(p.password.value) == p.password.value))
  }

  /** `CreateServerProfile`, with `id` standing for the fresh Guid: null
      when the URI is blank; otherwise the name trimmed, the URI trimmed
      and lower-cased, unparsable ports replaced by the defaults, and a
      blank password dropped. */
  function CreateServerProfile(f: EditForm, id: Guid): (r: Option<ServerProfile>)
    ensures r.None? <==> IsBlank(f.serverUri)
    ensures r.Some? ==> r.value.id == id
    ensures r.Some? ==> r.value.name == Trim(f.name) && r.value.uri == ToLower(Trim(f.serverUri))
    ensures r.Some? ==> r.value.minecraftPort == PortOr(f.minecraftPort, DefaultMinecraftPort)
    ensures r.Some? ==> r.value.rconPort == PortOr(f.rconPort, DefaultRconPort)
    ensures r.Some? ==> (r.value.password.None? <==> IsBlank(f.rconPassword))
    ensures r.Some? && r.value.password.Some? ==> r.value.password.value == Trim(f.rconPassword)
  {
    if IsBlank(f.serverUri) then None
    else
      Some(ServerProfile(
        id,
        Trim(f.name),
        ToLower(Trim(f.serverUri)),
        PortOr(f.minecraftPort, DefaultMinecraftPort),
        PortOr(f.rconPort, DefaultRconPort),
        if IsBlank(f.rconPassword) then None else Some(Trim(f.rconPassword))))
  }

  /** A trimmed string of a non-blank string keeps a visible character. */
  lemma TrimmedKeepsVisible(s: string)
    requires !IsBlank(s)
    ensures !IsBlank(Trim(s)) && Trim(Trim(s)) == Trim(s)
  {
    TrimEmptyIffBlank(s);
    TrimIdempotent(s);
    assert !IsWhiteSpace(Trim(s)[0]);
  }

  /** Every profile the editor produces is normalised. */
  lemma CreatedIsNormalised(f: EditForm, id: Guid)
    requires !IsBlank(f.serverUri)
    ensures Normalised(CreateServerProfile(f, id).value)
  {
    var p := CreateServerProfile(f, id).value;
    TrimIdempotent(f.name);
    var t := Trim(f.serverUri);
    TrimmedKeepsVisible(f.serverUri);
    LowerCharKeepsWhiteSpace(t[0]);
    assert !IsWhiteSpace(p.uri[0]);
    TrimToLowerCommute(t);
    ToLowerIdempotent(t);
    assert ToLower(Trim(p.uri)) == p.uri;
    if !IsBlank(f.rconPassword) {
      TrimmedKeepsVisible(f.rconPassword);
    }
  }

  /** Loading a normalised profile into the editor and creating a profile
      from the form gives the profile back under the fresh id the editor
      issues: every field but the id survives, both ports included. */
  lemma EditRoundTrip(p: ServerProfile, id: Guid)
    requires Normalised(p)
    ensures CreateServerProfile(Initialize(Some(p)), id) == Some(p.(id := id))
  {
    var f := Initialize(Some(p));
    assert !IsBlank(f.serverUri);
    var q := CreateServerProfile(f, id).value;
    assert q.name == p.name && q.uri == p.uri;
    assert q.minecraftPort == p.minecraftPort && q.rconPort == p.rconPort;
    if p.password.None? {
      assert IsBlank(f.rconPassword);
    } else {
      assert f.rconPassword == p.password.value;
    }
    assert q.password == p.password;
  }

  /** Ports alone survive the editor for every profile, normalised or not. */
  lemma PortsSurviveEditor(p: ServerProfile, id: Guid)
    requires !IsBlank(p.uri)
    ensures CreateServerProfile(Initialize(Some(p)), id).value.minecraftPort == p.minecraftPort
    ensures CreateServerProfile(Initialize(Some(p)), id).value.rconPort == p.rconPort
  {
  }

  /** Passing what the editor produced through it a second time changes
      nothing but the id, which is the second pass's fresh one. */
  lemma CreateIdempotent(f: EditForm, id: Guid, id2: Guid)
    requires !IsBlank(f.serverUri)
    ensures CreateServerProfile(Initialize(CreateServerProfile(f, id)), id2) ==
            Some(CreateServerProfile(f, id).value.(id := id2))
  {
    CreatedIsNormalised(f, id);
    EditRoundTrip(CreateServerProfile(f, id).value, id2);
  }
}
