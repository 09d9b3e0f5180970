# CoralClient core in Dafny

CoralClient is a Minecraft server companion app. It keeps a list of server
profiles, queries their status, and opens an RCON console on a server. This
project models the parts of it that are plain logic:

- the RCON packet codec (`Encoder`, `Message`, `MessageType`);
- the request side of `RconClient`: the id counter, the packet it builds, the
  not-connected guard, the response buffer and the validity rule;
- the console page (`RconPageViewModel`): its connection state machine, the
  command log, and the player-count reader for `list` replies;
- the server tile (`ServerProfileViewModel`): its derived texts;
- the two profile editors (`ServerProfileEditViewModel`,
  `ServerProfilePageViewModel`) and the `ServerProfile` record;
- custom commands: the record, the storage service with its queries and
  upsert, and the editor view model;
- the binding converters, the player-avatar service, and the two
  colour-code strippers (`MinecraftExtensions`, `MinecraftHelper`).

The model is made of immutable datatypes and pure functions. A nullable
reference is an `Option`, and a call that may throw returns a `Result`. The
outside world is replaced by parameters:

- a fresh `Guid`;
- whether a socket is writable and connected, and the bytes a read returns;
- whether a database call throws;
- whether a host name resolves;
- the message of an exception.

Strings are sequences of Unicode scalar values, and bytes are integers
0..255. C# `int` and `ushort` are subset types of `int`. The two places
where the source relies on 32-bit wrap-around are written out:

- the declared packet length `body.Length + 10`;
- the `Interlocked.Increment` id counter.

Files, one module each unless noted:

- `wrappers.dfy`: `Option`, `Result`.
- `numbers.dfy`: `Numbers`, covering `int`, `ushort` and `TryParse`.
- `text.dfy`: `Text`, covering white space, `Trim`, `ToLower`, integer
  formatting, `Join` and ordinal order.
- `utf8.dfy`: `Utf8`, covering ASCII encoding and UTF-8 decoding.
- `rcon_message.dfy`: `MessageType` and `Message`.
- `rcon_encoder.dfy`: `Encoder`.
- `rcon_client.dfy`: `RconClient`.
- `color_codes.dfy`: `ColorCodes`, `MinecraftExtensions` and `MinecraftHelper`.
- `player_count.dfy`: `PlayerCount`, the `There are N of a max of M players
  online:` matcher.
- `rcon_page.dfy`: `RconPage`.
- `server_profile.dfy`: `ServerProfile` and `ServerProfileEdit`.
- `server_profile_page.dfy`: `ServerProfilePage`.
- `server_profile_view.dfy`: `Permutations`, `NameSort` and `ServerProfileView`.
- `custom_command.dfy`: `CustomCommand` and `CommandOrder`.
- `custom_command_service.dfy`: `CustomCommandService`.
- `custom_command_editor.dfy`: `CustomCommandEditor`.
- `converters.dfy`: `Converters`.
- `player_avatar.dfy`: `PlayerAvatar`.

## Model

| member | source | states |
|---|---|---|
| MessageType.WireValue | MinecraftRcon/MessageType.cs:3-9 | every enum member is one of the wire values 0..3 |
| MessageType.NamesOf | MinecraftRcon/MessageType.cs:3-9 | a decoded type value is named by exactly the members with that wire value, and by none outside 0..3 |
| MessageType.WireValueCollision | MinecraftRcon/MessageType.cs:7-8 | two members share a wire value exactly when they are Command and AuthResponse |
| Encoder.Int32ToBytes | MinecraftRcon/Encoder.cs:15-17 | `BitConverter.GetBytes(int)` yields four bytes |
| Encoder.Int32RoundTrip | MinecraftRcon/Encoder.cs:15-17 | reading back the four little-endian bytes of an `int` gives the `int` |
| Encoder.BytesRoundTrip | MinecraftRcon/Encoder.cs:26-28 | any four bytes read as an `int` and written again are the same four bytes |
| Encoder.EncodeMessage | MinecraftRcon/Encoder.cs:11-22 | the packet is length, id and type as four bytes each, one ASCII byte per body character, then two zero bytes |
| Encoder.DecodeMessage | MinecraftRcon/Encoder.cs:24-40 | a buffer under 12 bytes throws; otherwise the three header fields are read verbatim; a buffer of 14 bytes or fewer has an empty body; a longer one has the UTF-8 text of bytes 12 to the last two |
| Encoder.RoundTrip | MinecraftRcon/Encoder.cs:11-40 | decode inverts encode, whatever the length, id and type, exactly when the body is ASCII |
| Encoder.EncodedSizeOfWellFormed | MinecraftRcon/Encoder.cs:9-22 | a packet whose declared length is body + 10 takes its declared length plus 4 bytes on the wire |
| Encoder.TrailingBytesIgnored | MinecraftRcon/Encoder.cs:29-39 | the last two bytes of a buffer never affect the decoded packet |
| Encoder.UnnamedTypeSurvives | MinecraftRcon/Encoder.cs:28-39 | a type value no enum member names still survives the round trip |
| Encoder.NonAsciiBodyIsLost | MinecraftRcon/Encoder.cs:18-39 | a non-ASCII body character comes back as '?' |
| Utf8.AsciiEncode | MinecraftRcon/Encoder.cs:18 | `Encoding.ASCII.GetBytes` writes one byte per character: the code for ASCII, '?' otherwise |
| Utf8.Decode | MinecraftRcon/Encoder.cs:39 | `Encoding.UTF8.GetString` yields at most one character per byte |
| Utf8.AsciiRoundTrip | MinecraftRcon/Encoder.cs:18-39 | the ASCII writer and the UTF-8 reader give a string back exactly when it is ASCII |
| Utf8.Utf8RoundTrip | MinecraftRcon/Encoder.cs:39 | the reader decodes well-formed UTF-8 of any string exactly |
| RconClient.NextId | MinecraftRcon/RconClient.cs:58 | the id counter adds one, wrapping from `int.MaxValue` to `int.MinValue` |
| RconClient.Request | MinecraftRcon/RconClient.cs:54-70 | a request carries the given id, type and text, a declared length of text + 10, and takes that length plus 4 bytes on the wire |
| RconClient.Dispose | MinecraftRcon/RconClient.cs:19-24 | disposing raises Disconnected and changes neither the counter nor the written packets |
| RconClient.Disconnect | MinecraftRcon/RconClient.cs:36-52 | disconnecting swallows any error and always ends with one more Disconnected event |
| RconClient.Connect | MinecraftRcon/RconClient.cs:26-34 | a successful connect opens the stream and raises Connected; a failed one throws |
| RconClient.ReceivedBytes | MinecraftRcon/RconClient.cs:84-87 | the response is the first bytes delivered, at most 4110 of them |
| RconClient.SendMessage | MinecraftRcon/RconClient.cs:72-92 | a null stream throws; a stream that cannot write, or a client that is not connected, raises Disconnected twice and returns an invalid default reply with nothing written; otherwise the encoded request is written; a read of at least 12 bytes yields a reply that is valid exactly when the response id equals the request id, and a shorter read throws when `BitConverter` reads the header |
| RconClient.EchoedReply | MinecraftRcon/RconClient.cs:81-91 | a response packet encoded like a request, with an ASCII body and within the buffer, comes back as that packet, valid exactly when its id echoes the request's |
| RconClient.Authenticate | MinecraftRcon/RconClient.cs:54-61 | a null password throws before an id is taken, leaving the client unchanged; any other password takes the next id and writes nothing or the Authenticate packet of the password |
| RconClient.SendCommand | MinecraftRcon/RconClient.cs:63-70 | sending a command takes the next id and writes nothing or the Command packet of the text |
| RconClient.IdsTaken | MinecraftRcon/RconClient.cs:54-70 | a run of calls takes one id per call except a null-password authentication, and the first id taken is the next after the counter |
| RconClient.NoIdNoChange | MinecraftRcon/RconClient.cs:54-70 | a call that takes no id leaves the client as it was; any other call moves the counter by one |
| RconClient.NullPasswordTakesNoId | MinecraftRcon/RconClient.cs:56-58 | a null-password authentication leaves no trace in the ids of a run |
| RconClient.IdsCountFromOne | MinecraftRcon/RconClient.cs:14-70 | the i-th id taken is counter + i + 1, while that stays below `int.MaxValue` |
| RconClient.IdsStrictlyIncrease | MinecraftRcon/RconClient.cs:14-70 | from a new client, ids start at 1 and strictly increase |
| RconClient.IdWrapsAround | MinecraftRcon/RconClient.cs:58 | a call that takes an id after `int.MaxValue` takes `int.MinValue` |
| ColorCodes.CodeCharIsWordChar | CoralClientMobileApp/Helpers/MinecraftExtensions.cs:7 | the code character `\d` or `\w` accepts the same characters as `\w` alone |
| ColorCodes.RunLength | CoralClientMobileApp/Helpers/MinecraftExtensions.cs:7 | the greedy match at the front has a pair count that fits the text, and it is positive exactly when a code starts there |
| ColorCodes.StripPairs | CoralClientMobileApp/Helpers/MinecraftExtensions.cs:9-10 | the pairwise filter only deletes characters, keeping the order |
| ColorCodes.RunsAgreeWithPairs | CoralClientMobileApp/Helpers/MinecraftExtensions.cs:7-10 | replacing whole runs of '§'+code pairs at once equals deleting the pairs one by one, left to right |
| ColorCodes.NoSectionSignUnchanged | CoralClientMobileApp/Helpers/MinecraftExtensions.cs:9-10 | text without '§' is unchanged |
| ColorCodes.TrailingSectionSignKept | CoralClientMobileApp/Helpers/MinecraftExtensions.cs:7-10 | a '§' at the very end is kept |
| ColorCodes.SectionSignBeforeNonWordKept | CoralClientMobileApp/Helpers/MinecraftExtensions.cs:7-10 | a '§' before a non-word character is kept |
| ColorCodes.NotIdempotent | CoralClientMobileApp/Helpers/MinecraftExtensions.cs:9-10 | one pass turns "§§aa" into "§a", which a second pass would empty |
| MinecraftExtensions.RemoveColorCodes | CoralClientMobileApp/Helpers/MinecraftExtensions.cs:9-10 | the result is the pairwise filter: a subsequence of the input, and the input itself when it has no '§' |
| MinecraftHelper.RemoveColorCodes | CoralClient/CoralClient/Helpers/MinecraftHelper.cs:7-10 | the desktop helper equals the mobile one on every input |
| Numbers.Wrap32 | MinecraftRcon/RconClient.cs:57-58 | unchecked `int` arithmetic: the identity in range, and congruent modulo 2^32 everywhere |
| Numbers.Lex | CoralClientMobileApp/View/ServerProfileEditViewModel.cs:51-55 | `NumberStyles.Integer` accepts white space, an optional sign and at least one digit, followed by any number of NUL characters |
| Numbers.TrailingNulsIgnored | CoralClientMobileApp/View/ServerProfileEditViewModel.cs:51-55 | NUL characters at the end of a text do not change how it parses, so "80\0" reads as 80 |
| Numbers.TryParseInteger | CoralClientMobileApp/View/ServerProfileEditViewModel.cs:51-55 | `TryParse` succeeds only on well-formed text, with its value, inside the target range |
| Numbers.TryParseUShort | CoralClientMobileApp/View/ServerProfileEditViewModel.cs:51-55 | `ushort.TryParse` is the generic parser with range 0..65535 |
| Numbers.TryParseInt32 | CoralClientMobileApp/ViewModel/RconPageViewModel.cs:172-173 | `int.TryParse` is the generic parser with the `int` range |
| Numbers.ParseInt32OrZero | CoralClientMobileApp/ViewModel/RconPageViewModel.cs:158-173 | the `out` variable holds the value of well-formed in-range text, and 0 after a failed parse |
| Numbers.ParseFormatted | CoralClientMobileApp/View/ServerProfileEditViewModel.cs:30-31 | a formatted non-negative value parses back when it fits the range and fails when it does not |
| Numbers.ParseIntFormatted | CoralClientMobileApp/ViewModel/ServerProfileViewModel.cs:39 | `ToString` and `TryParse` are inverse on every value in range |
| Numbers.UShortRoundTrip | CoralClientMobileApp/View/ServerProfileEditViewModel.cs:30-31 | a port's text parses back to the port |
| Numbers.NegativeZeroIsZero | CoralClientMobileApp/View/ServerProfileEditViewModel.cs:51 | "-0" is accepted as port 0 |
| Text.Trim | CoralClientMobileApp/View/ServerProfileEditViewModel.cs:59-63 | `Trim` keeps the slice between leading and trailing white space, has no white edge, and is empty exactly for blank text |
| Text.TrimIdempotent | CoralClientMobileApp/View/ServerProfileEditViewModel.cs:59-63 | trimming twice is trimming once |
| Text.ToLower | CoralClientMobileApp/View/ServerProfileEditViewModel.cs:60 | lower-casing maps each character and keeps the length |
| Text.TrimToLowerCommute | CoralClientMobileApp/ViewModel/ServerProfilePageViewModel.cs:131 | lower-case-then-trim equals trim-then-lower-case |
| Text.NatToString | CoralClientMobileApp/Model/ServerProfile.cs:22 | port text is shortest decimal digits whose value is the number |
| Text.IntToStringInjective | CoralClientMobileApp/ViewModel/ServerProfileViewModel.cs:32 | two integers print alike only when equal |
| Text.Join | CoralClientMobileApp/ViewModel/ServerProfileViewModel.cs:66 | joining nothing gives "", one part gives that part, and more parts give the first, the separator and the join of the rest |
| Text.JoinAppend | CoralClientMobileApp/ViewModel/ServerProfileViewModel.cs:66 | joining two non-empty runs of parts puts exactly one separator between their joins |
| ServerProfile.NewServerProfile | CoralClientMobileApp/Model/ServerProfile.cs:8-19 | a new profile has empty name and URI, ports 25565 and 25575, an empty password and no usable password |
| ServerProfile.ServerUriText | CoralClientMobileApp/Model/ServerProfile.cs:21-22 | the text is the URI, a colon and something after it |
| ServerProfile.ServerUriTextReadsBack | CoralClientMobileApp/Model/ServerProfile.cs:21-22 | what follows the colon is the Minecraft port's decimal text: digits only, no leading zero unless the port is 0, and it parses back to the port |
| ServerProfile.DefaultMinecraftPortText | CoralClientMobileApp/Model/ServerProfile.cs:15 | the default Minecraft port prints as "25565" |
| ServerProfile.DefaultRconPortText | CoralClientMobileApp/Model/ServerProfile.cs:17 | the default RCON port prints as "25575" |
| ServerProfile.DisplayName | CoralClientMobileApp/Model/ServerProfile.cs:24-25 | the name when it is not blank, otherwise the URI text; a display name is never blank |
| ServerProfile.HasRconPassword | CoralClientMobileApp/Model/ServerProfile.cs:27-28 | true exactly when the password is present and has a visible character |
| ServerProfileEdit.BlankFormPorts | CoralClientMobileApp/View/ServerProfileEditViewModel.cs:15-19 | the blank form's port texts parse to the default ports |
| ServerProfileEdit.Initialize | CoralClientMobileApp/View/ServerProfileEditViewModel.cs:24-42 | no profile gives the blank form; a profile fills the form with its name and URI, ports that parse back to its ports, and its password or "" |
| ServerProfileEdit.PortOr | CoralClientMobileApp/View/ServerProfileEditViewModel.cs:51-55 | a port field that parses gives its value, and anything else gives the default |
| ServerProfileEdit.CreateServerProfile | CoralClientMobileApp/View/ServerProfileEditViewModel.cs:44-65 | null exactly for a blank URI; otherwise a trimmed name, a trimmed lower-case URI, parsed or default ports, and no password exactly when it is blank |
| ServerProfileEdit.CreatedIsNormalised | CoralClientMobileApp/View/ServerProfileEditViewModel.cs:44-65 | every profile produced is trimmed, lower-case and has a visible URI |
| ServerProfileEdit.EditRoundTrip | CoralClientMobileApp/View/ServerProfileEditViewModel.cs:24-65 | loading a normalised profile and creating from the form gives it back under the new id the editor issues |
| ServerProfileEdit.PortsSurviveEditor | CoralClientMobileApp/View/ServerProfileEditViewModel.cs:24-65 | both ports of any profile with a URI survive the editor |
| ServerProfileEdit.CreateIdempotent | CoralClientMobileApp/View/ServerProfileEditViewModel.cs:24-65 | re-editing a created profile gives it back under a new id, with every other field unchanged |
| ServerProfilePage.LoadExistingProfile | CoralClientMobileApp/ViewModel/ServerProfilePageViewModel.cs:77-84 | URI, password and ports (reading back) are copied; name and description stay |
| ServerProfilePage.Initialize | CoralClientMobileApp/ViewModel/ServerProfilePageViewModel.cs:44-56 | the legacy initialiser registers the callback and loads the profile, but neither records the profile as edited nor creates a result slot |
| ServerProfilePage.InitializeAsync | CoralClientMobileApp/ViewModel/ServerProfilePageViewModel.cs:58-67 | it records the edited profile, creates a pending result slot, and loads the profile |
| ServerProfilePage.ResultNow | CoralClientMobileApp/ViewModel/ServerProfilePageViewModel.cs:69-75 | without a slot the result is null at once; a pending slot is still awaited; a completed one yields its result |
| ServerProfilePage.ValidateForm | CoralClientMobileApp/ViewModel/ServerProfilePageViewModel.cs:177-208 | valid exactly when all four checks pass; otherwise the alert of the first failing check in source order |
| ServerProfilePage.ZeroPortAccepted | CoralClientMobileApp/ViewModel/ServerProfilePageViewModel.cs:186-198 | port "0" passes validation, although the alert text promises 1-65535 |
| ServerProfilePage.BuildProfile | CoralClientMobileApp/ViewModel/ServerProfilePageViewModel.cs:129-141 | a lower-cased then trimmed URI, parsed ports, a trimmed password, the edited profile's id or a fresh one, and no name |
| ServerProfilePage.Save | CoralClientMobileApp/ViewModel/ServerProfilePageViewModel.cs:121-163 | an invalid form only alerts. A valid one completes a pending slot and reaches the callback. A slot already completed makes it alert and skip the callback. A save or close callback that throws is alerted after the slot was completed |
| ServerProfilePage.Cancel | CoralClientMobileApp/ViewModel/ServerProfilePageViewModel.cs:165-175 | cancel completes the slot with null, and throws when the slot was already completed |
| ServerProfilePage.SaveDeliversResult | CoralClientMobileApp/ViewModel/ServerProfilePageViewModel.cs:121-163 | the awaited result is the saved profile even when a callback throws, and an edit keeps the edited id |
| ServerProfilePage.ResultIsOneShot | CoralClientMobileApp/ViewModel/ServerProfilePageViewModel.cs:144-169 | after a save, a second save saves nothing and a cancel throws |
| ServerProfilePage.CancelThenSave | CoralClientMobileApp/ViewModel/ServerProfilePageViewModel.cs:121-175 | after a cancel, the result stays null whatever a later save does |
| ServerProfilePage.EditorsAgreeOnUri | CoralClientMobileApp/ViewModel/ServerProfilePageViewModel.cs:131 | this page and the edit view model normalise a URI identically |
| ServerProfilePage.EditingDropsName | CoralClientMobileApp/ViewModel/ServerProfilePageViewModel.cs:77-141 | saving an opened profile unchanged gives it back with its name emptied |
| ServerProfilePage.SavedProfileHasPassword | CoralClientMobileApp/ViewModel/ServerProfilePageViewModel.cs:134 | every profile this page saves has a usable password |
| ServerProfileView.StatusText | CoralClientMobileApp/ViewModel/ServerProfileViewModel.cs:26-35 | online shows the counts; otherwise the error message if any, else "Offline" |
| ServerProfileView.VersionText | CoralClientMobileApp/ViewModel/ServerProfileViewModel.cs:37 | the version name is shown without colour codes and trimmed, with no white edge, or "" without a status |
| ServerProfileView.PingText | CoralClientMobileApp/ViewModel/ServerProfileViewModel.cs:39 | "" unless online; otherwise text ending in "ms" whose number parses back to the ping |
| ServerProfileView.GameTypeText | CoralClientMobileApp/ViewModel/ServerProfileViewModel.cs:43 | the game type, or "" without a status |
| ServerProfileView.HostText | CoralClientMobileApp/ViewModel/ServerProfileViewModel.cs:49 | "" unless online; otherwise the host, a colon, and text that parses back to the port |
| ServerProfileView.HostTextDeterminesAddress | CoralClientMobileApp/ViewModel/ServerProfileViewModel.cs:49 | the shown address determines host and port, even when the host contains colons |
| ServerProfileView.OnlineShowsPingAndHost | CoralClientMobileApp/ViewModel/ServerProfileViewModel.cs:24-49 | online exactly when a ping is shown, and exactly when an address is shown |
| ServerProfileView.NoStatusShowsOffline | CoralClientMobileApp/ViewModel/ServerProfileViewModel.cs:24-84 | with no status known the tile is offline, shows "Offline", has no icon and no player list, and every other text is empty |
| ServerProfileView.OnlineTextInjective | CoralClientMobileApp/ViewModel/ServerProfileViewModel.cs:32 | the online status text determines both counts |
| ServerProfileView.DetailedServerInfoCases | CoralClientMobileApp/ViewModel/ServerProfileViewModel.cs:51-68 | the detailed info for each case: offline or nothing to show gives ""; a host only gives the Host line; a game only gives the trimmed Game line; both give the two lines joined by a newline |
| ServerProfileView.GameLineTrimmed | CoralClientMobileApp/ViewModel/ServerProfileViewModel.cs:60-61 | a Game line with a visible game type is untouched by trimming; otherwise it shrinks to "Game:" |
| ServerProfileView.DisplayName | CoralClientMobileApp/ViewModel/ServerProfileViewModel.cs:81 | a listed name has no white edge, and a null name shows as "" |
| ServerProfileView.DisplayNames | CoralClientMobileApp/ViewModel/ServerProfileViewModel.cs:80-81 | the names are cleaned one by one, in order |
| ServerProfileView.PlayerListText | CoralClientMobileApp/ViewModel/ServerProfileViewModel.cs:72-84 | "" when there is no list or it is empty |
| ServerProfileView.PlayerListShownIffPlayers | CoralClientMobileApp/ViewModel/ServerProfileViewModel.cs:70-84 | a player line is shown exactly when the list has players |
| ServerProfileView.PlayerListTextOrdered | CoralClientMobileApp/ViewModel/ServerProfileViewModel.cs:80-82 | the line is "Players: " and the names in ascending order, joined by ", " |
| ServerProfileView.PlayerListOrderIrrelevant | CoralClientMobileApp/ViewModel/ServerProfileViewModel.cs:80-82 | the line does not depend on the order in which the server reports players |
| NameSort.Sort | CoralClientMobileApp/ViewModel/ServerProfileViewModel.cs:82 | `OrderBy(p => p)` yields a sorted permutation |
| NameSort.SortedUnique | CoralClientMobileApp/ViewModel/ServerProfileViewModel.cs:82 | a multiset of strings has only one sorted arrangement |
| NameSort.SortPermutationInvariant | CoralClientMobileApp/ViewModel/ServerProfileViewModel.cs:82 | sorting depends only on the multiset of its input |
| Permutations.MapPermutation | CoralClientMobileApp/ViewModel/ServerProfileViewModel.cs:81 | cleaning a permutation of the names gives a permutation of the cleaned names |
| CustomCommand.TargetValue | CoralClientMobileApp/Model/CustomCommand.cs:7-11 | Server is 0 and Player is 1 |
| CustomCommand.NewCommand | CoralClientMobileApp/Model/CustomCommand.cs:15-42 | a new command has empty texts, category "Default", target Server and no server |
| CustomCommand.MakeCommand | CoralClientMobileApp/Model/CustomCommand.cs:44-52 | the six-argument constructor sets its six fields over the defaults and leaves the server empty |
| CustomCommand.ShortConstructorDefaults | CoralClientMobileApp/Model/CustomCommand.cs:44 | the constructor's default arguments equal the field defaults |
| CustomCommand.MakeFullCommand | CoralClientMobileApp/Model/CustomCommand.cs:54-64 | the eight-argument constructor also sets id and server |
| CommandOrder.SameTargetOrder | CoralClientMobileApp/Services/CustomCommandService.cs:38-40 | for one target, the full order is the category-then-name order |
| CommandOrder.KeyLeTransitive | CoralClientMobileApp/Services/CustomCommandService.cs:38-40 | the target, category, name order is transitive |
| CommandOrder.KeyLeTotal | CoralClientMobileApp/Services/CustomCommandService.cs:38-40 | the target, category, name order is total |
| CommandOrder.Insert | CoralClientMobileApp/Services/CustomCommandService.cs:38-41 | an insertion step keeps the list sorted and adds exactly the new command |
| CommandOrder.Sort | CoralClientMobileApp/Services/CustomCommandService.cs:38-41 | the sort is a sorted permutation |
| CommandOrder.SortedSameTarget | CoralClientMobileApp/Services/CustomCommandService.cs:55-58 | a list sorted by the full key, all of one target, is sorted by category and name |
| CustomCommandService.IdsOf | CoralClientMobileApp/Services/CustomCommandService.cs:72-73 | every row's id is among the table's ids |
| CustomCommandService.Find | CoralClientMobileApp/Services/CustomCommandService.cs:72-73 | the lookup finds nothing exactly when the id is absent, and otherwise a row with that id |
| CustomCommandService.Upsert | CoralClientMobileApp/Services/CustomCommandService.cs:72-96 | the saved id finds the command, every other id finds what it found before, the table grows only for a new id, and ids stay unique |
| CustomCommandService.Remove | CoralClientMobileApp/Services/CustomCommandService.cs:109-117 | only the given id disappears; the table shrinks by one exactly when that id was present |
| CustomCommandService.Filter | CoralClientMobileApp/Services/CustomCommandService.cs:37 | the selection keeps exactly the selected rows, each as often as in the table |
| CustomCommandService.GetCommandsForServer | CoralClientMobileApp/Services/CustomCommandService.cs:31-48 | exactly the server's commands, sorted by target, category and name; an empty list when the read fails |
| CustomCommandService.GetCommandsByTarget | CoralClientMobileApp/Services/CustomCommandService.cs:50-66 | exactly the server's commands with that target, sorted by category and name; an empty list when the read fails |
| CustomCommandService.GetCommandById | CoralClientMobileApp/Services/CustomCommandService.cs:126-138 | the row with that id, or null when there is none or the read fails |
| CustomCommandService.SaveCommand | CoralClientMobileApp/Services/CustomCommandService.cs:68-103 | a failing write throws; otherwise the table is upserted and the command returned |
| CustomCommandService.DeleteCommand | CoralClientMobileApp/Services/CustomCommandService.cs:105-124 | a failing call throws; otherwise the row with the command's id is removed if present |
| CustomCommandService.SaveThenGet | CoralClientMobileApp/Services/CustomCommandService.cs:68-138 | a saved command is what a lookup by its id returns |
| CustomCommandService.SaveNewThenDelete | CoralClientMobileApp/Services/CustomCommandService.cs:68-124 | deleting a newly added command restores the table |
| CustomCommandService.SaveIdempotent | CoralClientMobileApp/Services/CustomCommandService.cs:68-103 | saving twice is saving once |
| CustomCommandService.SavedCommandListed | CoralClientMobileApp/Services/CustomCommandService.cs:31-103 | a saved command appears in its server's list |
| CustomCommandEditor.FieldsOf | CoralClientMobileApp/ViewModel/CustomCommandEditorViewModel.cs:60-65 | the form's fields are exactly the command's editable fields |
| CustomCommandEditor.BlankFieldsAreCommandDefaults | CoralClientMobileApp/ViewModel/CustomCommandEditorViewModel.cs:69-75 | the reset form equals a new command's fields |
| CustomCommandEditor.Initialize | CoralClientMobileApp/ViewModel/CustomCommandEditorViewModel.cs:52-77 | edit mode exactly when a command is given, and the form shows its fields or the defaults |
| CustomCommandEditor.Save | CoralClientMobileApp/ViewModel/CustomCommandEditorViewModel.cs:86-128 | nothing is raised exactly when the name or text is blank; the raised command carries the form's fields; an edit keeps id and server and updates the original in place; a new command gets the fresh id and the editor's server or none |
| CustomCommandEditor.Delete | CoralClientMobileApp/ViewModel/CustomCommandEditorViewModel.cs:130-138 | the command being edited is raised, and nothing in create mode |
| CustomCommandEditor.SaveUntouchedIsIdentity | CoralClientMobileApp/ViewModel/CustomCommandEditorViewModel.cs:52-128 | opening a command and saving without edits gives the same command |
| CustomCommandEditor.CreateForServer | CoralClientMobileApp/ViewModel/CustomCommandEditorViewModel.cs:108-124 | a created command is the eight-field command of the form, fresh id and server |
| CustomCommandEditor.EditedCommandReplacesRow | CoralClientMobileApp/ViewModel/CustomCommandEditorViewModel.cs:97-107 | saving an edited stored command overwrites its row and keeps the table size |
| CustomCommandEditor.CreatedCommandAddsRow | CoralClientMobileApp/ViewModel/CustomCommandEditorViewModel.cs:108-138 | a created command adds one row, and deleting it from the editor restores the table |
| Converters.InvertedConvert | CoralClientMobileApp/Converters/ValueConverters.cs:8-13 | a bool is negated, and anything else gives false |
| Converters.InvertedConvertBack | CoralClientMobileApp/Converters/ValueConverters.cs:15-20 | the same negation backwards |
| Converters.InvertedRoundTrip | CoralClientMobileApp/Converters/ValueConverters.cs:8-20 | a two-way binding gives a bool back, in both directions |
| Converters.InvertedRoundTripOther | CoralClientMobileApp/Converters/ValueConverters.cs:8-20 | a non-bool source comes back as true |
| Converters.GreaterThanZero | CoralClientMobileApp/Converters/ValueConverters.cs:42-53 | true exactly for a boxed positive `int` |
| Converters.EditCreateText | CoralClientMobileApp/Converters/ValueConverters.cs:63-70 | the title for edit, for create, and for a non-bool |
| Converters.SaveUpdateText | CoralClientMobileApp/Converters/ValueConverters.cs:80-87 | "Update" exactly for true, "Save" otherwise |
| Converters.EditCreateTextsDistinct | CoralClientMobileApp/Converters/ValueConverters.cs:63-70 | the three titles differ and all end in "Custom Command" |
| Converters.EditorLabels | CoralClientMobileApp/Converters/ValueConverters.cs:63-87 | bound to the editor's mode, the title and the button agree with whether a command was opened |
| Converters.OneWayConvertBack | CoralClientMobileApp/Converters/ValueConverters.cs:55-58 | the one-way converters always throw on convert-back |
| PlayerAvatar.GetPlayerAvatarUrl | CoralClientMobileApp/Services/PlayerAvatarService.cs:21-27 | "" for a null or blank name; otherwise the mc-heads address of the name and size |
| PlayerAvatar.ParseAvatarUrl | CoralClientMobileApp/Services/PlayerAvatarService.cs:26 | a parsed address starts with the prefix, the name and a '/' |
| PlayerAvatar.AvatarUrlRoundTrip | CoralClientMobileApp/Services/PlayerAvatarService.cs:21-27 | an address reads back as its name and size, even when the name contains '/' |
| PlayerAvatar.AvatarUrlInjective | CoralClientMobileApp/Services/PlayerAvatarService.cs:21-27 | different names or sizes give different addresses |
| PlayerAvatar.DefaultSizeAddress | CoralClientMobileApp/Services/PlayerAvatarService.cs:7-26 | the default size asks for a 100-pixel head |
| PlayerAvatar.NewPlayer | CoralClientMobileApp/Model/Player.cs:7-30 | a new player is a survival-mode non-operator in the Overworld, "Online" unless a status is given |
| PlayerAvatar.LoadPlayerAvatar | CoralClientMobileApp/Services/PlayerAvatarService.cs:29-49 | a null player or blank name is left alone; otherwise only the address changes, and the loading flag ends lowered |
| PlayerAvatar.LoadedAvatarNamesPlayer | CoralClientMobileApp/Services/PlayerAvatarService.cs:29-49 | after loading, the address names the player and size, and loading again changes nothing |
| PlayerCount.DigitRunIsRun | CoralClientMobileApp/ViewModel/RconPageViewModel.cs:161 | `\d+` takes all digits and stops before a non-digit |
| PlayerCount.MatchAtSound | CoralClientMobileApp/ViewModel/RconPageViewModel.cs:161 | what the matcher finds at a position is a match of the pattern |
| PlayerCount.MatchAtComplete | CoralClientMobileApp/ViewModel/RconPageViewModel.cs:161 | every match at a position is the one the matcher finds, so it is unique |
| PlayerCount.FindMatch | CoralClientMobileApp/ViewModel/RconPageViewModel.cs:161-167 | `Regex.Match` gives the leftmost match, or none when no position matches |
| PlayerCount.DigitTextParses | CoralClientMobileApp/ViewModel/RconPageViewModel.cs:172-173 | a captured run parses to its value, or 0 when it overflows `int` |
| PlayerCount.CountValue | CoralClientMobileApp/ViewModel/RconPageViewModel.cs:172-173 | the shown count is non-negative: the value, or 0 past `int.MaxValue` |
| PlayerCount.UpdatePlayerText | CoralClientMobileApp/ViewModel/RconPageViewModel.cs:148-176 | a blank body or no match keeps the text; otherwise it shows the leftmost match's two numbers |
| PlayerCount.MatchesFilledIn | CoralClientMobileApp/ViewModel/RconPageViewModel.cs:157-161 | the pattern's text with any digit runs filled in matches at its start |
| PlayerCount.ListReplyExample | CoralClientMobileApp/ViewModel/RconPageViewModel.cs:157-175 | "There are 0 of a max of 20 players online:" shows "Players: 0/20" |
| RconPage.StateName | CoralClientMobileApp/ViewModel/RconPageViewModel.cs:9-14 | a state's name is never empty |
| RconPage.StateNameInjective | CoralClientMobileApp/ViewModel/RconPageViewModel.cs:9-14 | different states show different status texts |
| RconPage.NewPage | CoralClientMobileApp/ViewModel/RconPageViewModel.cs:18-92 | a new page is disconnected, cannot send, offers Connect, shows the profile's address and an unknown player count |
| RconPage.NewPageConsistent | CoralClientMobileApp/ViewModel/RconPageViewModel.cs:18-92 | a new page's controls agree with its state |
| RconPage.WriteLog | CoralClientMobileApp/ViewModel/RconPageViewModel.cs:236-253 | blank text is not logged; other text adds one line with its colour codes removed |
| RconPage.WriteLogAppends | CoralClientMobileApp/ViewModel/RconPageViewModel.cs:236-253 | logging only appends at most one line, and changes nothing else |
| RconPage.SetState | CoralClientMobileApp/ViewModel/RconPageViewModel.cs:30-38 | setting a state updates the status text and the controls, logs the change, leaves every other field as it was, and keeps the controls consistent |
| RconPage.NoColourCodes | CoralClientMobileApp/ViewModel/RconPageViewModel.cs:135-228 | the page's fixed log texts are logged exactly as written |
| RconPage.Disconnect | CoralClientMobileApp/ViewModel/RconPageViewModel.cs:276-280 | only a connected page disconnects, and it ends disconnected |
| RconPage.Connect | CoralClientMobileApp/ViewModel/RconPageViewModel.cs:255-274 | a failed resolve logs "Failed to connect!" with the message, then "Disconnected". A failed connect first logs the address with the Minecraft port. A successful one logs the address, then "Connection established", and ends CONNECTED |
| RconPage.Fail | CoralClientMobileApp/ViewModel/RconPageViewModel.cs:268-273 | the failure path appends "Failed to connect!" with the message, then "Disconnected", and ends DISCONNECTED |
| RconPage.Toggle | CoralClientMobileApp/ViewModel/RconPageViewModel.cs:113-125 | the toggle disconnects a connected page, connects a disconnected one, and ignores a connecting one |
| RconPage.Send | CoralClientMobileApp/ViewModel/RconPageViewModel.cs:94-111 | nothing happens unless connected with a non-blank entry. Then the entry is logged and is cleared exactly when the call returns. When the client's guard finds the link down, the page ends DISCONNECTED with two "Disconnected" lines after the entry. Otherwise only the log and entry change |
| RconPage.GetServerInfo | CoralClientMobileApp/ViewModel/RconPageViewModel.cs:205-209 | a page that is not connected sends nothing. A returning `list` leaves the page as it was, or as the guard's two Disconnected events leave it. A throwing one fails with its message |
| RconPage.Refresh | CoralClientMobileApp/ViewModel/RconPageViewModel.cs:127-142 | nothing happens unless connected. A returning `list` logs "Refreshed server info". When the link is down, two "Disconnected" lines come first and the page ends DISCONNECTED. A throwing `list` logs the error first and reconnects |
| RconPage.RefreshFailed | CoralClientMobileApp/ViewModel/RconPageViewModel.cs:137-141 | the refresh error is logged first, then the page reconnects and ends in the state the reconnect reaches |
| RconPage.Authenticated | CoralClientMobileApp/ViewModel/RconPageViewModel.cs:195-202 | after authenticating returns, success is logged first. A page no longer connected sends no `list`. A `list` that finds the link down leaves the page as entering DISCONNECTED does. A thrown one is logged as "Failed to authenticate!" with its message |
| RconPage.AfterConnected | CoralClientMobileApp/ViewModel/RconPageViewModel.cs:187-209 | a thrown authentication logs only its error. A link found down while authenticating logs two "Disconnected" lines, then "Authenticated successfully", and sends no `list`. A successful one logs "Authenticated successfully" first. A failing `list` is then reported as an authentication failure. The page ends DISCONNECTED exactly when a call found the link down |
| RconPage.LogsVisible | CoralClientMobileApp/ViewModel/RconPageViewModel.cs:236-253 | text that starts with a visible character is logged as exactly one colour-stripped line, and nothing else changes |
| RconPage.AfterConnectedAppends | CoralClientMobileApp/ViewModel/RconPageViewModel.cs:187-209 | the post-connect logic only appends to the log unless it finds the link down; then the rest of the page changes exactly as entering DISCONNECTED changes it, and the controls stay consistent |
| RconPage.Classify | MinecraftRcon/RconClient.cs:72-79 | how a client call ends as the page sees it: a throw, the guard's two Disconnected events, or a normal return |
| RconPage.CommandOutcomes | MinecraftRcon/RconClient.cs:63-79 | a command throws while there is no stream, and finds the link down exactly when the stream exists but cannot write or the socket is not connected |
| RconPage.AuthenticateOutcomes | CoralClientMobileApp/ViewModel/RconPageViewModel.cs:193 | authenticating with a profile's null password always throws; otherwise it finds the link down exactly as a command does |
| RconPage.LinkDrops | CoralClientMobileApp/ViewModel/RconPageViewModel.cs:144 | the guard's two Disconnected events leave the page DISCONNECTED and consistent, with two "Disconnected" lines logged |
| RconPage.LinkDropsOnce | CoralClientMobileApp/ViewModel/RconPageViewModel.cs:211-225 | apart from the log, the second Disconnected event changes nothing the first did not |
| RconPage.Received | CoralClientMobileApp/ViewModel/RconPageViewModel.cs:146-176 | a server message is logged and then updates the player count, and nothing else |
| RconPage.StepKeepsConsistent | CoralClientMobileApp/ViewModel/RconPageViewModel.cs:94-280 | every user action or client event keeps the log and keeps the controls consistent. This includes calls that throw and calls that find the link down |
| RconPage.RunKeepsConsistent | CoralClientMobileApp/ViewModel/RconPageViewModel.cs:94-280 | any sequence of actions and call outcomes, including a link found down, keeps the controls consistent, and the log only grows |
| RconPage.DisconnectedCannotSend | CoralClientMobileApp/ViewModel/RconPageViewModel.cs:211-225 | whatever the actions and call outcomes, a disconnected page never has sending enabled |

## Left out

- UTF-16: a Dafny `char` is a Unicode scalar value, so `string.Length` is the
  number of UTF-16 code units only for text inside the Basic Multilingual
  Plane. This covers the declared packet length and the ASCII writer, which
  writes one '?' per surrogate.
- Unicode classes: `\w` and `\d` are ASCII only (letters, digits, '_'). .NET
  also accepts every Unicode letter and digit.
- Case mapping: `ToLower` maps only 'A'..'Z', not the culture's full case
  mapping.
- `ServerProfileView.PlayerListText`: the names are sorted in code-point
  order, not with the current culture's comparer. A null name is shown as ""
  at once, which gives the same text.
- `CommandOrder.Sort`: SQLite's order among commands with equal keys is not
  specified, so an insertion sort stands in for it and nothing is stated
  about the order of equal keys. Strings compare by
  code point, as SQLite's BINARY collation does.
- `RconClient.SendMessage`: the response read is one `ReadAsync` call; the
  model takes the bytes it delivers as a parameter.
- `Numbers.Lex`: the sign symbols are the invariant culture's '+' and '-';
  the current culture's `NumberFormatInfo` sign strings are not modelled.
- Message bodies: the two terminating zero bytes are cut by position, so a
  short read that lost them cuts two body bytes instead. A NUL inside a body
  decodes as a character, as in the source.
- `Message.DefaultMessage`: `default(Message)` has a null body in C#; the
  model uses "".
- Outside effects: sockets, DNS lookup, timestamps in log lines, colours,
  favicons, the logger and the clock are not modelled. Each is a parameter or
  a fixed outcome.
- Concurrency: `async` interleaving is not modelled. Each call is one atomic
  step, and the page's event handlers run at the point the event is raised.
- `MotdText` reads `ServerStatus.StrippedMotd`, and `HasFavicon` reads
  `FaviconBytes`. Neither field is declared in the `ServerStatus` class.
  The model adds a favicon length to the record and leaves `MotdText` out.
- `StatusColorConverter.Convert` returns colours; only its throwing
  `ConvertBack` is modelled.
- `Converters.GreaterThanZero`: only boxed `int` values are modelled; the
  `double`, `float` and `decimal` branches are floating point or decimal.
- `Environment.NewLine` is "\n", its value on the phone platforms; Windows
  would use "\r\n".
- `DisplayAlert` pop-ups are returned as their message text. `TestConnection`
  only waits and shows alerts, so it is left out.
- `CustomCommandEditor.Cancel` only raises the Cancelled event, and event
  subscribers are outside the model.
- `Player.AvatarUrl` and `Player.IsLoadingAvatar` are used by the avatar
  service but are not declared in the `Player` class. They are added to
  the model's player record.
- `PlayerAvatar.LoadPlayerAvatar`: the logger `catch` cannot be reached,
  because formatting the address does not throw.
- `PlayerAvatar.NewPlayer`: an explicit null status argument is not
  modelled; `None` stands for the omitted argument.
- `CustomCommandEditor.Save`: in edit mode the caller's command object is
  mutated in place. The model returns the updated command and stores it as
  the editor's original.
- `CustomCommandService`: the database context's table of custom commands is
  an in-memory sequence. Change tracking, the logger and `SaveChangesAsync`
  failures other than a single "throws" flag are not modelled.
- Legacy desktop client: the CoralClient/CoralClient view models, services
  and pages are not part of this model, except `MinecraftHelper`.
- `MinecraftQuery`: the status query client is not part of this model;
  its result is the `ServerStatus` input of the tile.
- `RconPage.Received`: the page subscribes to a `MessageReceived` event that
  RconClient.cs does not declare. The model treats each server message as
  one `Received` action.
- `RconPage.Send`, `RconPage.Refresh` and `RconPage.AfterConnected` take how
  each client call ends as an input (`CallOutcome`). `Classify` ties that input
  to the client model, and `CommandOutcomes` and `AuthenticateOutcomes` state
  when each case arises. The text of a thrown exception is a parameter.
- `RconPage.AfterConnected` is a separate step of the page. In the source,
  `ConnectedLogic` starts from inside the state change to CONNECTED.
- `RconPage.AfterConnected`: the result of authentication is ignored by the
  source and by the model. A wrong password still logs "Authenticated
  successfully".
