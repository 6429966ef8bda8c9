/** The direction of a vote request and its case-insensitive parser. */
module VoteDirections {
  import opened Wrappers
  import opened Text

  /** UP, DOWN and NONE ("remove my vote"). */
  datatype VoteDirection = Up | Down | NoVote

  /** `getValue`: the lower-case wire form of each direction. */
  function Value(d: VoteDirection): (r: string)
    ensures r != [] && ToLower(r) == r
  {
    match d
    case Up => "up"
    case Down => "down"
    case NoVote => "none"
  }

  const NullOrEmptyMessage: string := "Vote direction cannot be null or empty"

  function InvalidMessage(value: string): string {
    "Invalid vote direction: " + value
  }

  /**
   * `fromString`: null or "" is refused first; otherwise the lower-cased text must be exactly
   * "up", "down" or "none" (no trimming). The error carries the exception's message.
   */
  function FromString(value: Option<string>): (r: Result<VoteDirection, string>)
    ensures value.None? || value == Some("") ==> r == Err(NullOrEmptyMessage)
    ensures r.Ok? ==> value.Some? && ToLower(value.value) == Value(r.value)
    ensures value.Some? && value.value != "" && r.Err? ==> r.error == InvalidMessage(value.value)
  {
    if value.None? || value.value == [] then Err(NullOrEmptyMessage)
    else
      var lower := ToLower(value.value);
      if lower == "up" then Ok(Up)
      else if lower == "down" then Ok(Down)
      else if lower == "none" then Ok(NoVote)
      else Err(InvalidMessage(value.value))
  }

  /** Every casing of a direction's wire form parses to that direction. */
  lemma FromStringIgnoresCase(s: string, d: VoteDirection)
    requires EqualsIgnoreCase(s, Value(d))
    ensures FromString(Some(s)) == Ok(d)
  {
    var v := Value(d);
    assert ToLower(v) == v;
    assert forall j :: 0 <= j < |v| ==> 'a' <= v[j] <= 'z' && v[j] != 'i' && v[j] != 's' && v[j] != 'k';
    forall i | 0 <= i < |s|
      ensures ToLower(s)[i] == v[i]
    {
      PlainLetterCasing(s[i], v[i]);
    }
    assert ToLower(s) == v;
  }

  /** The only chars equal, ignoring case, to a lower-case letter other than i, s and k are its two ASCII casings. */
  lemma PlainLetterCasing(c: char, letter: char)
    requires 'a' <= letter <= 'z' && letter != 'i' && letter != 's' && letter != 'k'
    requires CharEqualsIgnoreCase(c, letter)
    ensures LowerChar(c) == letter
  {
  }

  /** A string parses to a direction only if it is a casing of that direction's wire form. */
  lemma FromStringOnlyCasings(s: string)
    requires FromString(Some(s)).Ok?
    ensures EqualsIgnoreCase(s, Value(FromString(Some(s)).value))
  {
    var v := Value(FromString(Some(s)).value);
    assert ToLower(s) == v;
    forall i | 0 <= i < |s|
      ensures CharEqualsIgnoreCase(s[i], v[i])
    {
      assert LowerChar(s[i]) == v[i];
    }
  }

  /** Round trip: parsing the wire form of a direction gives that direction back. */
  lemma FromStringValue(d: VoteDirection)
    ensures FromString(Some(Value(d))) == Ok(d)
  {
    FromStringIgnoresCase(Value(d), d);
  }

  /** The input is not trimmed: a leading space makes "up" invalid. */
  lemma FromStringDoesNotTrim()
    ensures FromString(Some(" up")) == Err(InvalidMessage(" up"))
  {
    assert ToLower(" up")[0] == ' ';
  }
}
