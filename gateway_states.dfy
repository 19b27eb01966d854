/** BookingState.from (gateway): the case-insensitive parser for the `state`
    query parameter, checked before a request is forwarded to the server. */
module GatewayStates {
  import opened Base
  import opened Text

  /** gateway BookingState, in declaration order. */
  datatype BookingState = All | Current | Future | Past | Rejected | Waiting

  /** BookingState.values(). */
  const Values: seq<BookingState> := [All, Current, Future, Past, Rejected, Waiting]

  /** BookingState.name(). */
  function Name(s: BookingState): string
  {
    match s
    case All => "ALL"
    case Current => "CURRENT"
    case Future => "FUTURE"
    case Past => "PAST"
    case Rejected => "REJECTED"
    case Waiting => "WAITING"
  }

  /** String.equalsIgnoreCase: equal lengths and equal letters up to case. */
  predicate EqualsIgnoreCase(a: string, b: string)
  {
    |a| == |b| && forall i :: 0 <= i < |a| ==> UpperAscii(a[i]) == UpperAscii(b[i])
  }

  /** The first constant of `vals` whose name equals `text` up to case. */
  function Matching(vals: seq<BookingState>, text: string): (r: Option<BookingState>)
    ensures r.Some? ==> r.value in vals && EqualsIgnoreCase(Name(r.value), text)
    ensures r.None? <==> forall s :: s in vals ==> !EqualsIgnoreCase(Name(s), text)
  {
    if vals == [] then None
    else if EqualsIgnoreCase(Name(vals[0]), text) then Some(vals[0])
    else Matching(vals[1..], text)
  }

  /** Distinct constants have names that differ even up to case. */
  lemma NamesDistinctIgnoringCase(s: BookingState, t: BookingState)
    requires s != t
    ensures !EqualsIgnoreCase(Name(s), Name(t))
  {
    if |Name(s)| == |Name(t)| {
      assert UpperAscii(Name(s)[0]) != UpperAscii(Name(t)[0]);
    }
  }

  /** Every constant is listed in values(). */
  lemma ValuesComplete(s: BookingState)
    ensures s in Values
  {
  }

  /** Matching returns the constant at the first position whose name matches. */
  lemma {:induction false} MatchingFirst(vals: seq<BookingState>, text: string, i: nat)
    requires i < |vals| && EqualsIgnoreCase(Name(vals[i]), text)
    requires forall k :: 0 <= k < i ==> !EqualsIgnoreCase(Name(vals[k]), text)
    ensures Matching(vals, text) == Some(vals[i])
  {
    if i > 0 {
      MatchingFirst(vals[1..], text, i - 1);
    }
  }

  /** Any text equal up to case to a constant's name parses to that constant. */
  lemma MatchingIgnoresCase(s: BookingState, text: string)
    requires EqualsIgnoreCase(Name(s), text)
    ensures Matching(Values, text) == Some(s)
  {
    ValuesComplete(s);
    var t := Matching(Values, text).value;
    if t != s {
      NamesDistinctIgnoringCase(t, s);
      assert false;
    }
  }

  /** Lower-casing a string keeps it equal to itself up to case. */
  lemma LowerIgnoresCase(s: string)
    ensures EqualsIgnoreCase(s, Lower(s))
  {
    var low := Lower(s);
    forall i | 0 <= i < |s| ensures UpperAscii(s[i]) == UpperAscii(low[i]) {
      if 'A' <= s[i] <= 'Z' {
        assert low[i] as int == s[i] as int + 32;
      }
    }
  }

  /** from(s.name()) and from of its lower-case spelling both give s. */
  lemma FromRoundTrip(s: BookingState)
    ensures Matching(Values, Name(s)) == Some(s)
    ensures Matching(Values, Lower(Name(s))) == Some(s)
  {
    MatchingIgnoresCase(s, Name(s));
    LowerIgnoresCase(Name(s));
    MatchingIgnoresCase(s, Lower(Name(s)));
  }

  /** BookingState.from: returns the first constant whose name equals the text
      ignoring case, and throws UnknownStateException otherwise; the trailing
      `Optional.empty()` is never reached, so a normal return always carries a state. */
  method From(stringState: string) returns (r: Result<Option<BookingState>>)
    ensures r.Ok? <==> Matching(Values, stringState).Some?
    ensures r.Ok? ==> r.value == Matching(Values, stringState)
    ensures r.Err? ==> r.error == UnknownState("Unknown state: " + stringState)
  {
    var checkState := false;
    var i := 0;
    while i < |Values|
      invariant 0 <= i <= |Values|
      invariant forall k :: 0 <= k < i ==> !EqualsIgnoreCase(Name(Values[k]), stringState)
    {
      if EqualsIgnoreCase(Name(Values[i]), stringState) {
        checkState := true;
        MatchingFirst(Values, stringState, i);
        return Ok(Some(Values[i]));
      }
      i := i + 1;
    }
    if !checkState {
      return Err(UnknownState("Unknown state: " + stringState));
    }
    r := Ok(None);
  }
}
