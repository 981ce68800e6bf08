/** The club record of the bundled catalogue, and `String(club.Id)`.
    The catalogue file holds some identifiers as JSON numbers although the
    declared type is a string, so an identifier is either text or a number. */
module Types {
  import opened Strings

  datatype Option<T> = None | Some(value: T)

  datatype ClubId = TextId(text: string) | NumericId(number: int)

  /** One organisation of the catalogue; every field but `Id` and `Name` is optional. */
  datatype Club = Club(
    id: ClubId,
    name: string,
    shortName: Option<string>,
    description: Option<string>,
    summary: Option<string>,
    profilePicture: Option<string>,
    categoryNames: Option<seq<string>>,
    websiteKey: Option<string>)

  /** `String(id)`: text stays as it is, a whole number becomes its decimal text. */
  function IdString(id: ClubId): (r: string)
    ensures id.TextId? ==> r == id.text
    ensures id.NumericId? && id.number >= 0 ==>
              |r| >= 1 && AllDigits(r) && DigitsValue(r) == id.number && (r[0] == '0' ==> r == "0")
    ensures id.NumericId? && id.number < 0 ==>
              |r| >= 2 && r[0] == '-' && AllDigits(r[1..]) && DigitsValue(r[1..]) == -id.number
              && r[1] != '0'
  {
    match id
    case TextId(t) => t
    case NumericId(n) =>
      if n >= 0 then DecimalRoundTrip(n); NatToString(n)
      else DecimalRoundTrip(-n); "-" + NatToString(-n)
  }

  /** Two numeric identifiers render to the same text only when they are equal. */
  lemma NumericIdStringInjective(a: int, b: int)
    requires IdString(NumericId(a)) == IdString(NumericId(b))
    ensures a == b
  {
  }
}
