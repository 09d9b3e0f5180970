/** The value converters of the mobile app's bindings. A binding hands a
    converter an untyped object; `Value` keeps the cases the converters
    tell apart: a boxed bool, a boxed int, and anything else (including
    null). */
module Converters {
  import opened Wrappers
  import opened Numbers
  import opened CustomCommand
  import CustomCommandEditor

  datatype Value = BoolValue(b: bool) | IntValue(i: Int32) | OtherValue

  /** `InvertedBoolConverter.Convert`: the negation of a bool; false for
      anything else. */
  function InvertedConvert(v: Value): (r: bool)
    ensures v.BoolValue? ==> r == !v.b
    ensures !v.BoolValue? ==> !r
  {
    if v.BoolValue? then !v.b else false
  }

  /** `InvertedBoolConverter.ConvertBack`: the same negation. */
  function InvertedConvertBack(v: Value): (r: bool)
    ensures v.BoolValue? ==> r == !v.b
    ensures !v.BoolValue? ==> !r
  {
    if v.BoolValue? then !v.b else false
  }

  /** A two-way binding through the inverter gives back the bool it
      started from, in both directions. */
  lemma InvertedRoundTrip(b: bool)
    ensures InvertedConvertBack(BoolValue(InvertedConvert(BoolValue(b)))) == b
    ensures InvertedConvert(BoolValue(InvertedConvertBack(BoolValue(b)))) == b
  {
  }

  /** A non-bool source does not survive the round trip: it comes back as
      true. */
  lemma InvertedRoundTripOther()
    ensures InvertedConvertBack(BoolValue(InvertedConvert(OtherValue))) == true
    ensures InvertedConvertBack(BoolValue(InvertedConvert(IntValue(0)))) == true
  {
  }

  /** `GreaterThanZeroConverter.Convert` on its int and non-numeric
      inputs. */
  function GreaterThanZero(v: Value): (r: bool)
    ensures r <==> v.IntValue? && v.i > 0
  {
    match v
    case IntValue(i) => i > 0
    case _ => false
  }

  /** `BoolToEditCreateTextConverter.Convert`: the editor page's title. */
  function EditCreateText(v: Value): (r: string)
    ensures v == BoolValue(true) ==> r == "Edit Custom Command"
    ensures v == BoolValue(false) ==> r == "Create Custom Command"
    ensures !v.BoolValue? ==> r == "Custom Command"
  {
    match v
    case BoolValue(isEditMode) => if isEditMode then "Edit Custom Command" else "Create Custom Command"
    case _ => "Custom Command"
  }

  /** `BoolToSaveUpdateTextConverter.Convert`: the save button's label. */
  function SaveUpdateText(v: Value): (r: string)
    ensures r == "Update" <==> v == BoolValue(true)
    ensures r != "Update" ==> r == "Save"
  {
    match v
    case BoolValue(isEditMode) => if isEditMode then "Update" else "Save"
    case _ => "Save"
  }

  /** The three titles are distinct and all end in "Custom Command". */
  lemma EditCreateTextsDistinct(v: Value, w: Value)
    ensures EditCreateText(v) == EditCreateText(w) <==> (v.BoolValue? <==> w.BoolValue?) && (v.BoolValue? ==> v.b == w.b)
    ensures |EditCreateText(v)| >= 14 && EditCreateText(v)[|EditCreateText(v)| - 14..] == "Custom Command"
  {
    EndsInCustomCommand(EditCreateText(v));
  }

  lemma EndsInCustomCommand(t: string)
    requires t == "Edit Custom Command" || t == "Create Custom Command" || t == "Custom Command"
    ensures |t| >= 14 && t[|t| - 14..] == "Custom Command"
  {
  }

  /** Bound to the editor's mode, the title and the button agree: the
      editor opened on an existing command reads "Edit … / Update", a new
      one "Create … / Save". */
  lemma EditorLabels(command: Option<CustomCommand>, serverProfileId: Option<Guid>)
    ensures var e := CustomCommandEditor.Initialize(command, serverProfileId);
            && (EditCreateText(BoolValue(e.isEditMode)) == "Edit Custom Command" <==> command.Some?)
            && (SaveUpdateText(BoolValue(e.isEditMode)) == "Update" <==> command.Some?)
            && (EditCreateText(BoolValue(e.isEditMode)) == "Create Custom Command" <==> SaveUpdateText(BoolValue(e.isEditMode)) == "Save")
  {
  }

  /** What a one-way converter's `ConvertBack` throws. */
  datatype NotImplemented = NotImplemented

  /** `ConvertBack` of the status-colour, greater-than-zero, edit/create
      and save/update converters: every call throws. */
  function OneWayConvertBack(v: Value): (r: Result<Value, NotImplemented>)
    ensures r.Failure?
  {
    Failure(NotImplemented)
  }
}
