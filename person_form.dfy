/**
 * The form that adds one person: three text inputs, a submit handler that
 * insists on all three being non-empty, builds a record from them as typed
 * and clears the inputs.
 *
 * `crypto.randomUUID()` is the parameter `newId` of the submit handler.
 */
module PersonForm {
  import opened Records

  /** What one submission hands on: a record when every input is non-empty,
      nothing otherwise. White space counts as content: nothing is trimmed. */
  function Submission(name: string, birthDate: string, documentNumber: string, newId: string): (r: Option<Person>)
    ensures r.Some? <==> name != "" && birthDate != "" && documentNumber != ""
    ensures r.Some? ==> r.value == Person(newId, name, birthDate, documentNumber)
  {
    if name == "" || birthDate == "" || documentNumber == "" then None
    else Some(Person(newId, name, birthDate, documentNumber))
  }

  /** An input holding only a blank is not empty: the record is built with it. */
  lemma BlankNameAccepted(birthDate: string, documentNumber: string, newId: string)
    requires birthDate != "" && documentNumber != ""
    ensures Submission(" ", birthDate, documentNumber, newId) == Some(Person(newId, " ", birthDate, documentNumber))
  {
  }

  /** The three controlled inputs of the form. */
  class PersonForm {
    var name: string
    var birthDate: string
    var documentNumber: string

    constructor ()
      ensures name == "" && birthDate == "" && documentNumber == ""
    {
      name, birthDate, documentNumber := "", "", "";
    }

    /** `handleSubmit`: on an incomplete form nothing is handed on and the
        inputs keep their text; otherwise the record built from the inputs is
        handed on and the three inputs are cleared. */
    method HandleSubmit(newId: string) returns (added: Option<Person>)
      modifies this
      ensures added == Submission(old(name), old(birthDate), old(documentNumber), newId)
      ensures added.None? ==> name == old(name) && birthDate == old(birthDate) && documentNumber == old(documentNumber)
      ensures added.Some? ==> name == "" && birthDate == "" && documentNumber == ""
    {
      if name == "" || birthDate == "" || documentNumber == "" {
        return None;
      }
      added := Some(Person(newId, name, birthDate, documentNumber));
      name := "";
      birthDate := "";
      documentNumber := "";
    }
  }
}
