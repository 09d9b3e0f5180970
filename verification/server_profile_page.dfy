/** The add/edit server page: a text form, the profile being edited (if
    any), the one-shot result slot a caller awaits, and whether a save
    callback was registered. Alerts are returned as the text they would
    show. */
module ServerProfilePage {
  import opened Wrappers
  import opened Text
  import opened Numbers
  import opened ServerProfile
  import ServerProfileEdit

  datatype PageForm = PageForm(
    serverUri: string,
    minecraftPort: string,
    rconPort: string,
    rconPassword: Option<string>,
    serverName: string,
    serverDescription: string)

  const InitialForm: PageForm := PageForm("", "25565", "25575", Some(""), "", "")

  /** The `TaskCompletionSource` behind `GetResultAsync`: not created yet,
      waiting, or completed with a profile or with null. */
  datatype ResultSlot = NoSlot | Pending | Completed(result: Option<ServerProfile>)

  datatype Page = Page(
    form: PageForm,
    existing: Option<ServerProfile>,
    slot: ResultSlot,
    hasSaveCallback: bool)

  const NewPage: Page := Page(InitialForm, None, NoSlot, false)

  /** `LoadExistingProfile`: URI, ports in decimal and the (nullable)
      password are copied; name and description are left alone. */
  function LoadExistingProfile(f: PageForm, p: ServerProfile): (r: PageForm)
    ensures r.serverUri == p.uri && r.rconPassword == p.password
    ensures TryParseUShort(r.minecraftPort) == Some(p.minecraftPort)
    ensures TryParseUShort(r.rconPort) == Some(p.rconPort)
    ensures r.serverName == f.serverName && r.serverDescription == f.serverDescription
  {
    UShortRoundTrip(p.minecraftPort);
    UShortRoundTrip(p.rconPort);
    f.(serverUri := p.uri,
       minecraftPort := NatToString(p.minecraftPort),
       rconPort := NatToString(p.rconPort),
       rconPassword := p.password)
  }

  /** The legacy `Initialize(close, save, existing)`: registers the save
      callback and loads the profile, but neither remembers it as the
      profile being edited nor creates a result slot. */
  function Initialize(page: Page, hasSaveCallback: bool, existing: Option<ServerProfile>): (r: Page)
    ensures r.hasSaveCallback == hasSaveCallback
    ensures r.existing == page.existing && r.slot == page.slot
    ensures existing.None? ==> r.form == page.form
    ensures existing.Some? ==> r.form == LoadExistingProfile(page.form, existing.value)
  {
    var form := if existing.Some? then LoadExistingProfile(page.form, existing.value) else page.form;
    page.(form := form, hasSaveCallback := hasSaveCallback)
  }

  /** `InitializeAsync`: remembers the profile being edited, creates a
      fresh result slot, and loads the profile into the form. */
  function InitializeAsync(page: Page, existing: Option<ServerProfile>): (r: Page)
    ensures r.existing == existing && r.slot == Pending
    ensures r.hasSaveCallback == page.hasSaveCallback
    ensures existing.None? ==> r.form == page.form
    ensures existing.Some? ==> r.form == LoadExistingProfile(page.form, existing.value)
  {
    var form := if existing.Some? then LoadExistingProfile(page.form, existing.value) else page.form;
    page.(form := form, existing := existing, slot := Pending)
  }

  /** `GetResultAsync` at one moment: None while the caller is still
      waiting, otherwise what the await yields; without a slot it yields
      null at once. */
  function ResultNow(page: Page): (r: Option<Option<ServerProfile>>)
    ensures r.None? <==> page.slot.Pending?
    ensures page.slot.NoSlot? ==> r == Some(None)
    ensures page.slot.Completed? ==> r == Some(page.slot.result)
  {
    match page.slot
    case NoSlot => Some(None)
    case Pending => None
    case Completed(p) => Some(p)
  }

  // ---------------------------------------------------------------------
  // Validation

  const UriMessage: string := "Please enter a server URI or IP address."
  const MinecraftPortMessage: string := "Please enter a valid Minecraft port number (1-65535)."
  const RconPortMessage: string := "Please enter a valid RCON port number (1-65535)."
  const PasswordMessage: string := "Please enter the RCON password."

  datatype Validation = Valid | Invalid(message: string)

  /** The four checks of `ValidateForm`, of which the first failing one
      decides the alert. */
  predicate UriOk(f: PageForm) { !IsBlank(f.serverUri) }
  predicate MinecraftPortOk(f: PageForm) { TryParseUShort(f.minecraftPort).Some? }
  predicate RconPortOk(f: PageForm) { TryParseUShort(f.rconPort).Some? }
  predicate PasswordOk(f: PageForm) { !IsNullOrWhiteSpace(f.rconPassword) }

  /** `ValidateForm`: valid exactly when all four checks pass; otherwise
      the message of the first check, in the order URI, Minecraft port,
      RCON port, password, that fails. */
  function ValidateForm(f: PageForm): (v: Validation)
    ensures v.Valid? <==> UriOk(f) && MinecraftPortOk(f) && RconPortOk(f) && PasswordOk(f)
    ensures v == Invalid(UriMessage) <==> !UriOk(f)
    ensures v == Invalid(MinecraftPortMessage) <==> UriOk(f) && !MinecraftPortOk(f)
    ensures v == Invalid(RconPortMessage) <==> UriOk(f) && MinecraftPortOk(f) && !RconPortOk(f)
    ensures v == Invalid(PasswordMessage) <==> UriOk(f) && MinecraftPortOk(f) && RconPortOk(f) && !PasswordOk(f)
  {
    if !UriOk(f) then Invalid(UriMessage)
    else if !MinecraftPortOk(f) then Invalid(MinecraftPortMessage)
    else if !RconPortOk(f) then Invalid(RconPortMessage)
    else if !PasswordOk(f) then Invalid(PasswordMessage)
    else Valid
  }

  /** The alert promises ports 1-65535, but `ushort.TryParse` accepts "0". */
  lemma ZeroPortAccepted(uri: string, password: string)
    requires !IsBlank(uri) && !IsBlank(password)
    ensures ValidateForm(PageForm(uri, "0", "0", Some(password), "", "")).Valid?
  {
    assert NatToString(0) == "0";
    UShortRoundTrip(0);
  }

  // ---------------------------------------------------------------------
  // Save and Cancel

  const SaveErrorMessage: string := "Failed to save the server profile. Please try again."

  /** The outcome of `Save`: the page afterwards, the alert shown (if
      any), the profile produced and handed on (if any), and whether the
      save callback received it. */
  datatype SaveOutcome = SaveOutcome(
    page: Page,
    alert: Option<string>,
    saved: Option<ServerProfile>,
    callbackCalled: bool)

  /** The profile `Save` builds from a valid form: the URI lower-cased
      then trimmed, the ports parsed, the password trimmed, the id of the
      profile being edited or a fresh one, and no name. */
  function BuildProfile(page: Page, freshId: Guid): (p: ServerProfile)
    requires ValidateForm(page.form).Valid?
    ensures p.id == (if page.existing.Some? then page.existing.value.id else freshId)
    ensures p.name == "" && p.uri == Trim(ToLower(page.form.serverUri))
    ensures Some(p.minecraftPort) == TryParseUShort(page.form.minecraftPort)
    ensures Some(p.rconPort) == TryParseUShort(page.form.rconPort)
    ensures p.password == Some(Trim(page.form.rconPassword.value))
  {
    var f := page.form;
    var p := NewServerProfile(freshId).(
      uri := Trim(ToLower(f.serverUri)),
      minecraftPort := TryParseUShort(f.minecraftPort).value,
      rconPort := TryParseUShort(f.rconPort).value,
      password := Some(Trim(f.rconPassword.value)));
    if page.existing.Some? then p.(id := page.existing.value.id) else p
  }

  /** `Save`, with `freshId` standing for the Guid a new profile draws and
      `callbackThrows` for whether the save callback or the close callback
      throws. An invalid form shows its alert and changes nothing. A valid
      one completes a waiting slot with the profile and hands it to the
      callback; a slot completed earlier makes `SetResult` throw, which is
      caught, alerted, and skips the callback. A callback that throws is
      caught too and alerted, after the slot has already been completed. */
  function Save(page: Page, freshId: Guid, callbackThrows: bool): (r: SaveOutcome)
    ensures r.page.form == page.form && r.page.existing == page.existing
    ensures r.page.hasSaveCallback == page.hasSaveCallback
    ensures r.saved.Some? <==> ValidateForm(page.form).Valid? && !page.slot.Completed?
    ensures ValidateForm(page.form).Invalid? ==>
              r == SaveOutcome(page, Some(ValidateForm(page.form).message), None, false)
    ensures ValidateForm(page.form).Valid? && page.slot.Completed? ==>
              r == SaveOutcome(page, Some(SaveErrorMessage), None, false)
    ensures r.saved.Some? ==> r.saved.value == BuildProfile(page, freshId)
    ensures r.saved.Some? ==> r.callbackCalled == page.hasSaveCallback
    ensures r.saved.Some? ==> r.alert == (if page.hasSaveCallback && callbackThrows then Some(SaveErrorMessage) else None)
    ensures r.saved.Some? ==> r.page.slot == (if page.slot.Pending? then Completed(r.saved) else NoSlot)
  {
    match ValidateForm(page.form)
    case Invalid(message) => SaveOutcome(page, Some(message), None, false)
    case Valid =>
      var p := BuildProfile(page, freshId);
      var alert := if page.hasSaveCallback && callbackThrows then Some(SaveErrorMessage) else None;
      match page.slot
      case Completed(_) => SaveOutcome(page, Some(SaveErrorMessage), None, false)
      case Pending => SaveOutcome(page.(slot := Completed(Some(p))), alert, Some(p), page.hasSaveCallback)
      case NoSlot => SaveOutcome(page, alert, Some(p), page.hasSaveCallback)
  }

  /** `SetResult` on a completed slot throws `InvalidOperationException`,
      which `Cancel` does not catch. */
  datatype CancelError = ResultAlreadySet

  /** `Cancel`: completes a waiting slot with null. */
  function Cancel(page: Page): (r: Result<Page, CancelError>)
    ensures r.Failure? <==> page.slot.Completed?
    ensures r.Success? ==> r.value.form == page.form && r.value.existing == page.existing
    ensures r.Success? ==> ResultNow(r.value) == Some(None)
  {
    match page.slot
    case Completed(_) => Failure(ResultAlreadySet)
    case Pending => Success(page.(slot := Completed(None)))
    case NoSlot => Success(page)
  }

  // ---------------------------------------------------------------------
  // Properties across calls

  /** A save on a waiting page makes the awaited result the saved profile,
      even when a callback then throws; an edit keeps the edited profile's
      id. */
  lemma SaveDeliversResult(page: Page, freshId: Guid, callbackThrows: bool)
    requires page.slot.Pending? && ValidateForm(page.form).Valid?
    ensures ResultNow(Save(page, freshId, callbackThrows).page) == Some(Save(page, freshId, callbackThrows).saved)
    ensures page.existing.Some? ==> Save(page, freshId, callbackThrows).saved.value.id == page.existing.value.id
  {
  }

  /** The result slot is one-shot: after a save has completed it, a
      second save only alerts, and a cancel throws. */
  lemma ResultIsOneShot(page: Page, freshId: Guid, callbackThrows: bool)
    requires page.slot.Pending? && ValidateForm(page.form).Valid?
    ensures var after := Save(page, freshId, callbackThrows).page;
            Save(after, freshId, callbackThrows).saved.None? && Cancel(after).Failure?
  {
  }

  /** After a cancel the page awaits nothing more: a later save cannot
      change the result. */
  lemma CancelThenSave(page: Page, freshId: Guid, callbackThrows: bool)
    requires page.slot.Pending?
    ensures Cancel(page).Success?
    ensures ResultNow(Save(Cancel(page).value, freshId, callbackThrows).page) == Some(None)
  {
  }

  /** Both editors normalise the URI alike: this page lower-cases then
      trims, the edit view model trims then lower-cases, and the results
      agree. */
  lemma EditorsAgreeOnUri(page: Page, freshId: Guid, f: ServerProfileEdit.EditForm, id: Guid)
    requires ValidateForm(page.form).Valid?
    requires f.serverUri == page.form.serverUri
    ensures ServerProfileEdit.CreateServerProfile(f, id).Some?
    ensures BuildProfile(page, freshId).uri == ServerProfileEdit.CreateServerProfile(f, id).value.uri
  {
    TrimToLowerCommute(page.form.serverUri);
  }

  /** Opening a profile in this page and saving it without edits gives the
      profile back with its name dropped (`Save` never sets `Name`),
      provided its URI is already trimmed and lower-case and its password
      trimmed and non-blank. */
  lemma EditingDropsName(p: ServerProfile, freshId: Guid, callbackThrows: bool)
    requires !IsBlank(p.uri) && Trim(ToLower(p.uri)) == p.uri
    requires p.password.Some? && !IsBlank(p.password.value) && Trim(p.password.value) == p.password.value
    ensures Save(InitializeAsync(NewPage, Some(p)), freshId, callbackThrows).saved == Some(p.(name := ""))
  {
    var page := InitializeAsync(NewPage, Some(p));
    assert ValidateForm(page.form).Valid?;
  }

  /** The page's saved profiles always carry a password, which the edit
      view model drops when blank. */
  lemma SavedProfileHasPassword(page: Page, freshId: Guid)
    requires ValidateForm(page.form).Valid?
    ensures HasRconPassword(BuildProfile(page, freshId))
  {
    var pw := page.form.rconPassword.value;
    assert !IsBlank(pw);
    TrimIdempotent(pw);
    TrimEmptyIffBlank(pw);
  }
}
