/** Choosing and validating a serial port: the default selection loop in
    `index` and `arduinoConnect` (web_interface/app.py:268-272, 507-511) and
    the port check of the reconnect action (app.py:525-548). */
module Ports {
  import opened Wrappers
  import opened Text

  /** The index of the LAST description containing `preferred` (the
      configured `arduinoPort`), or 0 when none does. */
  method SelectPort(descriptions: seq<string>, preferred: string) returns (selected: nat)
    ensures |descriptions| > 0 ==> selected < |descriptions|
    ensures (exists j :: 0 <= j < |descriptions| && Contains(descriptions[j], preferred)) ==>
              selected < |descriptions| && Contains(descriptions[selected], preferred)
    ensures forall j :: selected < j < |descriptions| ==> !Contains(descriptions[j], preferred)
    ensures (forall j :: 0 <= j < |descriptions| ==> !Contains(descriptions[j], preferred)) ==> selected == 0
  {
    selected := 0;
    var index := 0;
    while index < |descriptions|
      invariant index <= |descriptions|
      invariant |descriptions| > 0 ==> selected < |descriptions|
      invariant selected == 0 || (selected < index && Contains(descriptions[selected], preferred))
      invariant (exists j :: 0 <= j < index && Contains(descriptions[j], preferred)) ==>
                  selected < index && Contains(descriptions[selected], preferred)
      invariant forall j :: selected < j < index ==> !Contains(descriptions[j], preferred)
    {
      if Contains(descriptions[index], preferred) {
        selected := index;
      }
      index := index + 1;
    }
  }

  /** Why a reconnect request was refused. */
  datatype PortError =
    | Unreadable      // the `port` field is missing or not all digits
    | OutOfRange      // the index is past the current device list
    | ProbeFailed     // opening the device (or connecting to it) raised

  /** The error message the request returns for each refusal. */
  function Message(e: PortError): string {
    match e
    case Unreadable => "Unable to read [port] POST data"
    case OutOfRange => "Invalid serial port selected"
    case ProbeFailed => "Unable to connect to selected serial port"
  }

  /** The `port` field is accepted only when it is all digits and names an
      index into the device list (its value is never negative). */
  function ValidatePort(port: Option<string>, count: nat): (r: Result<nat, PortError>)
    ensures r.Ok? <==> port.Some? && IsDigits(port.value) && DigitsValue(port.value) < count
    ensures r.Ok? ==> r.value < count && r.value == DigitsValue(port.value)
    ensures r == Err(Unreadable) <==> port.None? || !IsDigits(port.value)
  {
    if port.None? || !IsDigits(port.value) then Err(Unreadable)
    else
      var portNum := DigitsValue(port.value);
      if portNum < count then Ok(portNum) else Err(OutOfRange)
  }

  /** Each refusal has its own message. */
  lemma MessagesDistinct(e1: PortError, e2: PortError)
    ensures Message(e1) == Message(e2) ==> e1 == e2
  {
  }

  /** The index the page offers (`str(index)`) is accepted back as that index. */
  lemma ValidateOfferedIndex(index: nat, count: nat)
    requires index < count
    ensures ValidatePort(Some(NatToString(index)), count) == Ok(index)
  {
  }

  /** An index at or past the device list is refused as out of range. */
  lemma ValidateRejectsPastEnd(index: nat, count: nat)
    requires count <= index
    ensures ValidatePort(Some(NatToString(index)), count) == Err(OutOfRange)
  {
  }
}
