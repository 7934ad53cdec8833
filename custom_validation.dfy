/**
 * The per-item checks of src/app/customValidation.ts and the form messages the validators return.
 * A message is modelled by which message it is; `None` is the validators' `null` (valid).
 */
module CustomValidation {
  import opened Wrappers
  import opened Models

  /** The validators' messages, one constructor per distinct message text. */
  datatype ValidationError =
    | Required                 // the field is required
    | StartNotBeforeEnd        // the start must come before the end
    | EndNotAfterStart         // the end must come after the start
    | TooFewCharacters         // add at least one character
    | TooManyCharacters        // at most ten characters
    | TooManyPlaces            // at most ten places
    | CharacterNameRequired    // a character needs a name
    | PlaceNameRequired        // a place needs a name
    | NoCharacterSelected      // select at least one character

  /** `validateCharacterItem`: an error exactly when the name is empty; no other field is read. */
  function ValidateCharacterItem(ch: Character): (r: Option<ValidationError>)
    ensures r.Some? <==> ch.name == ""
    ensures r.Some? ==> r.value == CharacterNameRequired
  {
    if ch.name == "" then Some(CharacterNameRequired) else None
  }

  /** `validatePlaceItem`: an error exactly when the name is empty; no other field is read. */
  function ValidatePlaceItem(place: Place): (r: Option<ValidationError>)
    ensures r.Some? <==> place.name == ""
    ensures r.Some? ==> r.value == PlaceNameRequired
  {
    if place.name == "" then Some(PlaceNameRequired) else None
  }

  /**
   * Only the name is inspected: two characters (or two places) with the same name get the same
   * verdict, and any non-empty name, even a single space, is accepted.
   */
  lemma OnlyNameMatters(a: Character, b: Character, p: Place, q: Place)
    ensures a.name == b.name ==> ValidateCharacterItem(a) == ValidateCharacterItem(b)
    ensures p.name == q.name ==> ValidatePlaceItem(p) == ValidatePlaceItem(q)
    ensures ValidateCharacterItem(a.(name := " ")).None? && ValidatePlaceItem(p.(name := " ")).None?
  {
  }
}
