/** The two data-annotation attributes the application's DTOs use, as
    predicates over a possibly-null string property. */
module DataAnnotations {
  import opened Common

  /** `[Required]`: null fails, and so does an empty or whitespace-only
      string unless `AllowEmptyStrings` is set. */
  predicate RequiredHolds(value: Option<string>, allowEmptyStrings: bool)
  {
    value.Some? && (allowEmptyStrings || !IsBlank(value.value))
  }

  /** The default message of `[Required]` for a property. */
  function RequiredMessage(property: string): string
  {
    "The " + property + " field is required."
  }

  /** `[AllowedValues(...)]`: the value equals one of the listed values; null is not among them. */
  predicate AllowedValuesHold(value: Option<string>, allowed: seq<string>)
  {
    value.Some? && value.value in allowed
  }
}
