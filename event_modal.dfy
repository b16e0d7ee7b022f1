/**
 * components/EventModal.tsx: the "Neuer Termin" form. Seven text fields and
 * an error message; the name inputs accept letters only, "Hinzufügen"
 * checks the required fields and the order of start and end before it hands
 * the new appointment on and asks to close, and closing the modal clears
 * the form.
 */
module EventModal {
  import opened Wrappers
  import opened Strings

  const NameError := "Der Name darf nur mit einem Buchstaben des Alphabets beginnen."
  const RequiredError := "Alle Pflichtfelder ausfüllen."
  const OrderError := "Das Enddatum muss nach dem Startdatum liegen."

  /** The object `onAddAction` receives. */
  datatype NewAppointment = NewAppointment(
    title: string, start: string, end: string, notes: string,
    firstname: string, lastname: string, category: string)

  /** The character class `[A-Za-z]`: one of the 52 ASCII letters. */
  predicate IsAsciiLetter(c: char) {
    'A' <= c <= 'Z' || 'a' <= c <= 'z'
  }

  /** `/^[A-Za-z]*$/.test(s)`: every character is in the class, the empty string included; digits and spaces never pass. */
  function IsAsciiLetters(s: string): (r: bool)
    ensures r <==> forall c :: c in s ==> IsAsciiLetter(c)
    ensures r ==> forall i :: 0 <= i < |s| ==> !IsDigit(s[i]) && s[i] != ' '
  {
    forall i :: 0 <= i < |s| ==> IsAsciiLetter(s[i])
  }

  /** The `YYYY-MM-DDTHH:MM` value of a `datetime-local` input. */
  predicate IsDateTimeLocal(s: string) {
    |s| == 16
    && IsDigit(s[0]) && IsDigit(s[1]) && IsDigit(s[2]) && IsDigit(s[3]) && s[4] == '-'
    && IsDigit(s[5]) && IsDigit(s[6]) && s[7] == '-' && IsDigit(s[8]) && IsDigit(s[9])
    && s[10] == 'T' && IsDigit(s[11]) && IsDigit(s[12]) && s[13] == ':' && IsDigit(s[14]) && IsDigit(s[15])
  }

  /**
   * `new Date(start) > new Date(end)`. Two values of the input's fixed format
   * compare as their strings do; a value `Date` cannot parse gives NaN, and
   * a comparison with NaN is false.
   */
  predicate StartAfterEnd(start: string, end: string)
    ensures StartAfterEnd(start, end) ==> start != end && !LexLess(start, end)
    ensures IsDateTimeLocal(start) && IsDateTimeLocal(end)
            ==> (StartAfterEnd(start, end) <==> !(start == end || LexLess(start, end)))
  {
    LexTrichotomy(start, end);
    IsDateTimeLocal(start) && IsDateTimeLocal(end) && LexLess(end, start)
  }

  /** The outcome of `handleAdd`'s checks: the error it sets, or `None` when it adds. */
  function Validate(a: NewAppointment): (err: Option<string>)
    ensures err.None? ==> a.title != "" && a.start != "" && a.firstname != "" && a.lastname != "" && a.category != ""
    ensures err.None? ==> a.end == "" || !LexLess(a.end, a.start) || !IsDateTimeLocal(a.start) || !IsDateTimeLocal(a.end)
    ensures err.Some? ==> err.value in {RequiredError, OrderError}
    ensures a.title != "" && a.start != "" && a.firstname != "" && a.lastname != "" && a.category != ""
            && (a.end == "" || !StartAfterEnd(a.start, a.end))
            ==> err.None?
  {
    if a.title == "" || a.start == "" || a.firstname == "" || a.lastname == "" || a.category == "" then
      Some(RequiredError)
    else if a.end != "" && StartAfterEnd(a.start, a.end) then
      Some(OrderError)
    else
      None
  }

  /** End and notes are optional: with every required field filled and no end, the appointment is added. */
  lemma EndAndNotesOptional(a: NewAppointment)
    requires a.title != "" && a.start != "" && a.firstname != "" && a.lastname != "" && a.category != ""
    requires a.end == ""
    ensures Validate(a).None?
    ensures Validate(a.(notes := "")).None?
  {
  }

  /**
   * With the required fields filled and both times in the input's format, the
   * form is accepted exactly when the end is not before the start: an end
   * equal to or after the start passes, an end before it fails.
   */
  lemma OrderCheck(a: NewAppointment)
    requires a.title != "" && a.start != "" && a.firstname != "" && a.lastname != "" && a.category != ""
    requires IsDateTimeLocal(a.start) && IsDateTimeLocal(a.end)
    ensures Validate(a.(end := a.start)).None?
    ensures Validate(a) == Some(OrderError) <==> LexLess(a.end, a.start)
    ensures Validate(a).None? <==> a.end == a.start || LexLess(a.start, a.end)
  {
    LexLessIrreflexive(a.start);
  }

  /** A missing required field is reported before the order is looked at. */
  lemma RequiredFirst(a: NewAppointment)
    requires a.title == "" || a.start == "" || a.firstname == "" || a.lastname == "" || a.category == ""
    ensures Validate(a) == Some(RequiredError)
  {
  }

  /** The form's component state. */
  class NewAppointmentForm {
    var title: string
    var start: string
    var end: string
    var notes: string
    var firstname: string
    var lastname: string
    var category: string
    var error: Option<string>

    /** The name fields only ever hold letters. */
    predicate Valid()
      reads this
    {
      IsAsciiLetters(firstname) && IsAsciiLetters(lastname)
    }

    function Contents(): (a: NewAppointment)
      reads this
      ensures a.firstname == firstname && a.lastname == lastname && a.start == start && a.end == end
    {
      NewAppointment(title, start, end, notes, firstname, lastname, category)
    }

    /** Every field starts empty, with no error. */
    constructor ()
      ensures Valid()
      ensures Contents() == NewAppointment("", "", "", "", "", "", "") && error.None?
    {
      title, start, end, notes := "", "", "", "";
      firstname, lastname, category := "", "", "";
      error := None;
    }

    /** `handleFirstnameChange`: a letters-only value is taken, anything else keeps the name and sets the error. */
    method ChangeFirstname(val: string)
      requires Valid()
      modifies this
      ensures Valid()
      ensures IsAsciiLetters(val) ==> Contents() == old(Contents()).(firstname := val) && error == old(error)
      ensures !IsAsciiLetters(val) ==> Contents() == old(Contents()) && error == Some(NameError)
    {
      if IsAsciiLetters(val) {
        firstname := val;
      } else {
        error := Some(NameError);
      }
    }

    /** `handleLastnameChange`, the same rule for the last name. */
    method ChangeLastname(val: string)
      requires Valid()
      modifies this
      ensures Valid()
      ensures IsAsciiLetters(val) ==> Contents() == old(Contents()).(lastname := val) && error == old(error)
      ensures !IsAsciiLetters(val) ==> Contents() == old(Contents()) && error == Some(NameError)
    {
      if IsAsciiLetters(val) {
        lastname := val;
      } else {
        error := Some(NameError);
      }
    }

    /** The title input takes any text. */
    method SetTitle(val: string)
      requires Valid()
      modifies this
      ensures Valid() && Contents() == old(Contents()).(title := val) && error == old(error)
    {
      title := val;
    }

    method SetStart(val: string)
      requires Valid()
      modifies this
      ensures Valid() && Contents() == old(Contents()).(start := val) && error == old(error)
    {
      start := val;
    }

    method SetEnd(val: string)
      requires Valid()
      modifies this
      ensures Valid() && Contents() == old(Contents()).(end := val) && error == old(error)
    {
      end := val;
    }

    method SetNotes(val: string)
      requires Valid()
      modifies this
      ensures Valid() && Contents() == old(Contents()).(notes := val) && error == old(error)
    {
      notes := val;
    }

    method SetCategory(val: string)
      requires Valid()
      modifies this
      ensures Valid() && Contents() == old(Contents()).(category := val) && error == old(error)
    {
      category := val;
    }

    /**
     * `handleAdd`: the error is cleared, then the first failing check sets
     * its message and nothing is handed on; when both pass, all seven fields
     * go to `onAddAction` and `onCloseAction` is requested. The fields are
     * left as they are.
     */
    method Add() returns (added: Option<NewAppointment>, closeRequested: bool)
      requires Valid()
      modifies this
      ensures Valid() && Contents() == old(Contents())
      ensures error == Validate(Contents())
      ensures added.Some? <==> error.None?
      ensures added.Some? ==> added.value == Contents()
      ensures closeRequested <==> added.Some?
      ensures added.Some? ==> IsAsciiLetters(added.value.firstname) && IsAsciiLetters(added.value.lastname)
    {
      error := None;
      if title == "" || start == "" || firstname == "" || lastname == "" || category == "" {
        error := Some(RequiredError);
        return None, false;
      }
      if end != "" && StartAfterEnd(start, end) {
        error := Some(OrderError);
        return None, false;
      }
      added := Some(NewAppointment(title, start, end, notes, firstname, lastname, category));
      closeRequested := true;
    }

    /** The reset effect: when the modal is closed, every field is emptied and the error cleared. */
    method SyncOpen(open: bool)
      requires Valid()
      modifies this
      ensures Valid()
      ensures !open ==> Contents() == NewAppointment("", "", "", "", "", "", "") && error.None?
      ensures open ==> Contents() == old(Contents()) && error == old(error)
    {
      if !open {
        title := "";
        start := "";
        end := "";
        firstname := "";
        lastname := "";
        category := "";
        notes := "";
        error := None;
      }
    }
  }
}
