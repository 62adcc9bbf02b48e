/** The telemetry parser `parseArduinoMessage` (web_interface/app.py:117-133)
    and the battery-level state it writes. */
module Telemetry {
  import opened Text

  /** The marker a battery message contains. */
  const Marker := "Battery"

  /** The field separator of a battery message. */
  const Underscore := '_'

  /** The global `batteryLevel`: the integer sentinel -999 until a battery
      message arrives, afterwards the TEXT of the message's second field
      (the source stores the string and converts it with int() only when
      it draws the display). */
  datatype Battery = Unknown | Reported(text: string)

  const UnknownLevel := -999

  /** Every reported level is text that int() accepts. */
  predicate WellFormed(b: Battery) {
    b.Reported? ==> IsInt(b.text)
  }

  /** `int(batteryLevel)`. */
  function Level(b: Battery): (level: int)
    requires WellFormed(b)
    ensures level < 0 ==> b.Unknown? || b.text[0] == '-'
    ensures b.Reported? && IsDigits(b.text) ==> level == DigitsValue(b.text)
  {
    if b.Unknown? then UnknownLevel else IntValue(b.text)
  }

  /** What parsing one line does: nothing, a new battery level, or the
      IndexError raised by `dataList[1]` when a battery line has no '_'
      (only ValueError is caught, so it escapes to the worker). */
  datatype Reading = NoEvent | Update(field: string) | MissingField

  function Parse(line: string): (r: Reading)
    ensures !Contains(line, Marker) ==> r == NoEvent
    ensures r.Update? ==> Contains(line, Marker) && IsInt(r.field) && NoneIn(r.field, {Underscore})
  {
    if !Contains(line, Marker) then NoEvent
    else
      var fields := Split(line, {Underscore});
      if |fields| < 2 then MissingField
      else if IsInt(fields[1]) then Update(fields[1])
      else NoEvent
  }

  /** The global update the parser performs. */
  function Apply(b: Battery, r: Reading): (level: Battery)
    ensures WellFormed(b) && (r.Update? ==> IsInt(r.field)) ==> WellFormed(level)
    ensures !r.Update? ==> level == b
    ensures r.Update? ==> level == Reported(r.field)
  {
    if r.Update? then Reported(r.field) else b
  }

  /** Applying parse results line after line: the last valid reading wins. */
  function ApplyAll(b: Battery, lines: seq<string>): (level: Battery)
    ensures level == b || (level.Reported? && exists k :: 0 <= k < |lines| && Parse(lines[k]) == Update(level.text))
  {
    if lines == [] then b
    else
      var init := lines[..|lines| - 1];
      var prev := ApplyAll(b, init);
      assert forall k :: 0 <= k < |init| ==> init[k] == lines[k];
      Apply(prev, Parse(lines[|lines| - 1]))
  }

  /** The last line that parses to an update decides the level. */
  lemma {:induction false} ApplyAllLast(b: Battery, lines: seq<string>, k: nat)
    requires k < |lines| && Parse(lines[k]).Update?
    requires forall j :: k < j < |lines| ==> !Parse(lines[j]).Update?
    ensures ApplyAll(b, lines) == Reported(Parse(lines[k]).field)
  {
    if k < |lines| - 1 {
      ApplyAllLast(b, lines[..|lines| - 1], k);
    }
  }

  /** Without any update the level is the one before. */
  lemma {:induction false} ApplyAllNone(b: Battery, lines: seq<string>)
    requires forall j :: 0 <= j < |lines| ==> !Parse(lines[j]).Update?
    ensures ApplyAll(b, lines) == b
  {
    if lines != [] {
      ApplyAllNone(b, lines[..|lines| - 1]);
    }
  }

  lemma {:induction false} ApplyAllWellFormed(b: Battery, lines: seq<string>)
    requires WellFormed(b)
    ensures WellFormed(ApplyAll(b, lines))
  {
    if lines != [] {
      ApplyAllWellFormed(b, lines[..|lines| - 1]);
    }
  }

  /** The parser raises exactly on a battery line without an underscore. */
  lemma ParseMissingField(line: string)
    ensures Parse(line) == MissingField <==> Contains(line, Marker) && NoneIn(line, {Underscore})
  {
    CountZero(line, {Underscore});
  }

  /** The level is the second '_'-separated field, taken exactly when int()
      accepts it; whatever follows a further '_' is ignored. */
  lemma ParseSecondField(line: string, first: string, field: string, rest: string)
    requires Contains(line, Marker)
    requires line == first + [Underscore] + field + rest
    requires NoneIn(first, {Underscore}) && NoneIn(field, {Underscore})
    requires rest == [] || rest[0] == Underscore
    ensures Parse(line) == if IsInt(field) then Update(field) else NoEvent
  {
    SecondField(first, field, rest);
  }

  lemma SecondField(first: string, field: string, rest: string)
    requires NoneIn(first, {Underscore}) && NoneIn(field, {Underscore})
    requires rest == [] || rest[0] == Underscore
    ensures var fields := Split(first + [Underscore] + field + rest, {Underscore});
            |fields| >= 2 && fields[1] == field
  {
    assert first + [Underscore] + field + rest == first + [Underscore] + (field + rest);
    SplitAtFirst(first, Underscore, field + rest, {Underscore});
    LeadingField(field, rest, {Underscore});
  }

  /** Conversely, an update always carries the second field: the text
      between the first '_' and the next '_' or the end of the line. */
  lemma ParseUpdateIsSecondField(line: string) returns (first: string, rest: string)
    requires Parse(line).Update?
    ensures line == first + [Underscore] + Parse(line).field + rest
    ensures NoneIn(first, {Underscore})
    ensures rest == [] || rest[0] == Underscore
  {
    var fields := Split(line, {Underscore});
    assert |fields| >= 2 && Parse(line).field == fields[1];
    first, rest := DecomposeSecondField(line, fields);
  }

  lemma DecomposeSecondField(line: string, fields: seq<string>) returns (first: string, rest: string)
    requires fields == Split(line, {Underscore}) && |fields| >= 2
    ensures line == first + [Underscore] + fields[1] + rest
    ensures NoneIn(first, {Underscore})
    ensures rest == [] || rest[0] == Underscore
  {
    var after := SplitFirst(line, {Underscore});
    var tail := after[1..];
    var tailFields := Split(tail, {Underscore});
    assert tailFields == fields[1..];
    rest := SplitFirst(tail, {Underscore});
    first := fields[0];
    var field := fields[1];
    assert tail == field + rest;
    assert after == [Underscore] + tail;
    assert line == first + after;
    assert first + ([Underscore] + (field + rest)) == first + [Underscore] + field + rest;
  }

  /** A line without the marker never changes the battery level. */
  lemma {:induction false} UnmarkedLinesKeepLevel(b: Battery, lines: seq<string>)
    requires forall k :: 0 <= k < |lines| ==> !Contains(lines[k], Marker)
    ensures ApplyAll(b, lines) == b
  {
    if lines != [] {
      UnmarkedLinesKeepLevel(b, lines[..|lines| - 1]);
    }
  }

  /** A battery message sets the level to its second field; fields after
      the second are ignored. */
  lemma ParseExampleLevel()
    ensures Parse("Battery_87") == Update("87")
    ensures Parse("Battery_12_34") == Update("12")
  {
    assert OccursAt("Battery_87", Marker, 0);
    ParseSecondField("Battery_87", "Battery", "87", "");
    assert OccursAt("Battery_12_34", Marker, 0);
    ParseSecondField("Battery_12_34", "Battery", "12", "_34");
  }

  /** An empty or non-numeric second field is no event. */
  lemma ParseExampleNoNumber()
    ensures Parse("Battery_") == NoEvent
    ensures Parse("Battery_x7") == NoEvent
  {
    assert OccursAt("Battery_", Marker, 0);
    assert !IsInt("");
    ParseSecondField("Battery_", "Battery", "", "");
    assert OccursAt("Battery_x7", Marker, 0);
    assert !IsDigit("x7"[0]) && "x7"[0] != '+' && "x7"[0] != '-';
    assert !IsInt("x7");
    ParseSecondField("Battery_x7", "Battery", "x7", "");
  }

  /** A battery line with no '_' raises. */
  lemma ParseExampleNoField()
    ensures Parse("Battery") == MissingField
  {
    assert OccursAt("Battery", Marker, 0);
    ParseMissingField("Battery");
  }
}
