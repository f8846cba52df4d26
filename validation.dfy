/** The two field validators of the models, run before a value is stored. */
module Validation {
  import opened Wrappers

  const MinDescriptionLength := 20
  const DescriptionMessage := "Description must be at least 20 characters long"

  const Strengths: seq<string> := ["Strong", "Weak", "Average"]
  const StrengthMessage := "Strength must be 'Strong', 'Weak', or 'Average'"

  /** `Power.validate_description`: an absent or empty description, or one with
      fewer than 20 characters, is refused; any other is returned as given. */
  function ValidateDescription(description: Option<string>): (r: Result<string>)
    ensures r.Ok? <==> description.Some? && |description.value| >= MinDescriptionLength
    ensures r.Ok? ==> r.value == description.value
    ensures r.Err? ==> r.message == DescriptionMessage
  {
    if description.None? || description.value == "" || |description.value| < MinDescriptionLength then
      Err(DescriptionMessage)
    else
      Ok(description.value)
  }

  /** `HeroPower.validate_strength`: only the three listed strengths are accepted,
      and an accepted strength is returned as given. */
  function ValidateStrength(strength: Option<string>): (r: Result<string>)
    ensures r.Ok? <==> strength == Some("Strong") || strength == Some("Weak") || strength == Some("Average")
    ensures r.Ok? ==> r.value == strength.value
    ensures r.Err? ==> r.message == StrengthMessage
  {
    if strength.Some? && strength.value in Strengths then Ok(strength.value) else Err(StrengthMessage)
  }
}
