/** BookingStatus.findState (server snapshot): the case-sensitive parser for
    the `state` query parameter of the booking lists. */
module StateParsing {
  import opened Base

  /** booking.dto.State: the six views of a user's bookings. */
  datatype State = All | Current | Past | Future | Waiting | Rejected

  /** State.values(), in declaration order. */
  const Values: seq<State> := [All, Current, Past, Future, Waiting, Rejected]

  /** State.toString(): the constant's name. */
  function Name(s: State): string
  {
    match s
    case All => "ALL"
    case Current => "CURRENT"
    case Past => "PAST"
    case Future => "FUTURE"
    case Waiting => "WAITING"
    case Rejected => "REJECTED"
  }

  /** The first constant of `vals` whose name equals `text` exactly (State.valueOf). */
  function Named(vals: seq<State>, text: string): (r: Option<State>)
    ensures r.Some? ==> r.value in vals && Name(r.value) == text
    ensures r.None? <==> forall s :: s in vals ==> Name(s) != text
  {
    if vals == [] then None
    else if Name(vals[0]) == text then Some(vals[0])
    else Named(vals[1..], text)
  }

  /** Every state is listed in State.values(). */
  lemma ValuesComplete(s: State)
    ensures s in Values
  {
  }

  /** findState(s.toString()) == s for every state. */
  lemma NamedRoundTrip(s: State)
    ensures Named(Values, Name(s)) == Some(s)
  {
    assert forall t :: t in Values && Name(t) == Name(s) ==> t == s;
    ValuesComplete(s);
  }

  /** The match is case-sensitive: "all" is not a state name. */
  lemma LowerCaseRejected()
    ensures Named(Values, "all") == None
  {
    assert forall t :: t in Values ==> Name(t) != "all" by {
      forall t | t in Values ensures Name(t) != "all" {
        assert Name(t)[0] != 'a';
      }
    }
  }

  /** findState: scans State.values() with a found-flag and throws
      UnknownStateException("Unknown state: " + text) when no name matches;
      it never falls back to ALL. */
  method FindState(stateText: string) returns (r: Result<State>)
    ensures r.Ok? <==> Named(Values, stateText).Some?
    ensures r.Ok? ==> r.value == Named(Values, stateText).value && Name(r.value) == stateText
    ensures r.Err? ==> r.error == UnknownState("Unknown state: " + stateText)
  {
    var checkState := false;
    var i := 0;
    while i < |Values|
      invariant 0 <= i <= |Values|
      invariant !checkState
      invariant forall k :: 0 <= k < i ==> Name(Values[k]) != stateText
    {
      if Name(Values[i]) == stateText {
        checkState := true;
        break;
      }
      i := i + 1;
    }
    if !checkState {
      return Err(UnknownState("Unknown state: " + stateText));
    }
    r := Ok(Named(Values, stateText).value);
  }
}
