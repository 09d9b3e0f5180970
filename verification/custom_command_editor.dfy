/** The custom-command editor: a form over the six editable fields of a
    command, in create mode or in edit mode, whose Save hands a command to
    whoever listens and whose Delete hands back the command being edited. */
module CustomCommandEditor {
  import opened Wrappers
  import opened Text
  import opened Numbers
  import opened CustomCommand
  import CustomCommandService

  /** The six fields the form edits, in the order the form shows them. */
  datatype Fields = Fields(
    name: string,
    description: string,
    command: string,
    category: string,
    requiresPlayerName: bool,
    target: CommandTarget)

  /** `original` is the command passed to `Initialize`, `serverProfileId`
      the server it was opened for. `isEditMode` is a bindable property of
      its own, so it is kept apart from `original`. */
  datatype Editor = Editor(
    original: Option<CustomCommand>,
    serverProfileId: Option<Guid>,
    form: Fields,
    isEditMode: bool)

  /** The editable fields of a command. */
  function FieldsOf(c: CustomCommand): (f: Fields)
    ensures c.(name := f.name, description := f.description, command := f.command,
               category := f.category, requiresPlayerName := f.requiresPlayerName,
               target := f.target) == c
  {
    Fields(c.name, c.description, c.command, c.category, c.requiresPlayerName, c.target)
  }

  /** The form's state for a new command: the field defaults of a fresh
      command. */
  const BlankFields: Fields := Fields("", "", "", DefaultCategory, false, Server)

  lemma BlankFieldsAreCommandDefaults(id: Guid)
    ensures BlankFields == FieldsOf(NewCommand(id))
  {
  }

  /** The editor as constructed, before `Initialize`. */
  const NewEditor: Editor := Editor(None, None, BlankFields, false)

  /** The choices of the target picker, in order. */
  const TargetOptions: seq<CommandTarget> := [Server, Player]

  /** `Initialize(command, serverProfileId)`: edit mode exactly when a
      command is given, whose fields fill the form; otherwise the form is
      reset to the defaults of a new command. */
  function Initialize(command: Option<CustomCommand>, serverProfileId: Option<Guid>): (e: Editor)
    ensures e.original == command && e.serverProfileId == serverProfileId
    ensures e.isEditMode <==> command.Some?
    ensures command.Some? ==> e.form == FieldsOf(command.value)
    ensures command.None? ==> e.form == FieldsOf(NewCommand(0))
  {
    match command
    case Some(c) => Editor(command, serverProfileId, FieldsOf(c), true)
    case None => Editor(command, serverProfileId, BlankFields, false)
  }

  /** The form may be saved: the name and the command text each have a
      visible character. */
  predicate CanSave(e: Editor) {
    !IsBlank(e.form.name) && !IsBlank(e.form.command)
  }

  /** `Save`, with `freshId` standing for the Guid a new command gets. It
      returns the editor afterwards and the command raised with
      `CommandSaved`, if any. Nothing is raised when the name or the
      command text is blank. In edit mode the original command object is
      updated in place with the form's fields, so the editor's own
      reference sees the change too, and its id and server stay; otherwise
      a new command is built from the form, attached to the editor's server
      when it has one. */
  function Save(e: Editor, freshId: Guid): (r: (Editor, Option<CustomCommand>))
    ensures r.1.None? <==> !CanSave(e)
    ensures r.1.Some? ==> FieldsOf(r.1.value) == e.form
    ensures r.1.Some? && e.isEditMode && e.original.Some? ==>
              r.1.value.id == e.original.value.id
              && r.1.value.serverProfileId == e.original.value.serverProfileId
              && r.0 == e.(original := r.1)
    ensures r.1.Some? && !(e.isEditMode && e.original.Some?) ==>
              r.1.value.id == freshId
              && r.1.value.serverProfileId == e.serverProfileId.GetOr(EmptyGuid)
              && r.0 == e
    ensures r.1.None? ==> r.0 == e
  {
    if !CanSave(e) then (e, None)
    else if e.isEditMode && e.original.Some? then
      var f := e.form;
      var c := e.original.value.(name := f.name, description := f.description, command := f.command,
                                 category := f.category, requiresPlayerName := f.requiresPlayerName,
                                 target := f.target);
      (e.(original := Some(c)), Some(c))
    else
      var f := e.form;
      var c := MakeCommand(freshId, f.name, f.description, f.command, f.requiresPlayerName, f.category, f.target);
      var c' := if e.serverProfileId.Some? then c.(serverProfileId := e.serverProfileId.value) else c;
      (e, Some(c'))
  }

  /** `Delete`: the command raised with `CommandDeleted`, which is the
      command being edited; nothing in create mode. */
  function Delete(e: Editor): (r: Option<CustomCommand>)
    ensures r.Some? <==> e.original.Some?
    ensures r.Some? ==> r == e.original
  {
    e.original
  }

  // ---------------------------------------------------------------------
  // Properties across calls

  /** Opening a command and saving without touching the form gives back
      the very same command. */
  lemma SaveUntouchedIsIdentity(c: CustomCommand, serverProfileId: Option<Guid>, freshId: Guid)
    requires !IsBlank(c.name) && !IsBlank(c.command)
    ensures Save(Initialize(Some(c), serverProfileId), freshId).1 == Some(c)
  {
  }

  /** A command created for a server is saved under that server, with the
      form's fields and the fresh id. */
  lemma CreateForServer(sid: Guid, form: Fields, freshId: Guid)
    requires !IsBlank(form.name) && !IsBlank(form.command)
    ensures Save(Initialize(None, Some(sid)).(form := form), freshId).1
         == Some(MakeFullCommand(freshId, form.name, form.description, form.command,
                                 form.requiresPlayerName, form.category, form.target, sid))
  {
  }

  /** Editing a stored command and handing the result to the store's save
      overwrites that row: the table keeps its size, and the id now finds
      the edited command. */
  lemma {:induction false} EditedCommandReplacesRow(t: CustomCommandService.Table, c: CustomCommand, form: Fields, freshId: Guid)
    requires c in t
    requires !IsBlank(form.name) && !IsBlank(form.command)
    ensures var saved := Save(Initialize(Some(c), None).(form := form), freshId).1.value;
            var u := CustomCommandService.Upsert(t, saved);
            |u| == |t| && CustomCommandService.Find(u, c.id) == Some(saved)
  {
    var k :| 0 <= k < |t| && t[k] == c;
    assert c.id in CustomCommandService.IdsOf(t);
  }

  /** A new command whose fresh id is not yet in the store adds one row,
      and deleting it from the editor opened on it restores the table. */
  lemma {:induction false} CreatedCommandAddsRow(t: CustomCommandService.Table, sid: Guid, form: Fields, freshId: Guid)
    requires freshId !in CustomCommandService.IdsOf(t)
    requires !IsBlank(form.name) && !IsBlank(form.command)
    ensures var saved := Save(Initialize(None, Some(sid)).(form := form), freshId).1.value;
            var u := CustomCommandService.Upsert(t, saved);
            && |u| == |t| + 1
            && CustomCommandService.Remove(u, Delete(Initialize(Some(saved), Some(sid))).value.id) == t
  {
    var saved := Save(Initialize(None, Some(sid)).(form := form), freshId).1.value;
    CustomCommandService.SaveNewThenDelete(t, saved);
  }
}
