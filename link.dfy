/** The serial command bridge as values: the state the globals of
    web_interface/app.py hold, and what each operation of the bridge does
    to it. The class SerialBridge.Bridge performs these updates in place;
    the lemmas here state what the source promises of them. */
module Link {
  import opened Text
  import opened Telemetry

  /** The characters that end an inbound line. */
  const Terminators: set<char> := {'\n', '\r'}

  /** What one poll of the serial device yields: no waiting input, one
      character, or an exception from `inWaiting`, `read` or `decode`. */
  datatype Arrival = Idle | Received(c: char) | ReadFault

  /** What the device does during one iteration of the worker loop:
      whether a write (if one is attempted) succeeds, and what a read yields. */
  datatype Event = Event(writeOk: bool, arrival: Arrival)

  /** The bridge state: `arduinoActive`, `exitFlag`, `batteryLevel`, the
      command queue, the started worker threads (each named by the device
      path it was bound to), the worker's line buffer `dataString`, the
      frames written to the device, and the lines handed to the parser. */
  datatype Link = Link(
    active: bool,
    exitFlag: bool,
    battery: Battery,
    queue: seq<string>,
    threads: seq<string>,
    dataString: string,
    written: seq<string>,
    handed: seq<string>)

  /** At most one worker, and exactly one while active; the line buffer never
      holds a terminator; the battery level is text int() accepts. */
  predicate Valid(s: Link) {
    && (s.active ==> |s.threads| == 1)
    && (!s.active ==> s.threads == [])
    && NoneIn(s.dataString, Terminators)
    && WellFormed(s.battery)
  }

  /** The module-level initial values (app.py:55-62). */
  function Initial(): (s: Link)
    ensures Valid(s) && !s.active && s.queue == []
  {
    Link(false, false, Unknown, [], [], "", [], [])
  }

  /** The line a command becomes on the wire. */
  function Frame(cmd: string): string {
    cmd + "\n"
  }

  function Frames(cmds: seq<string>): (r: seq<string>)
    ensures |r| == |cmds|
    ensures forall k :: 0 <= k < |cmds| ==> r[k] == Frame(cmds[k])
  {
    if cmds == [] then [] else Frames(cmds[..|cmds| - 1]) + [Frame(cmds[|cmds| - 1])]
  }

  // ---------------------------------------------------------------------
  // Connection lifecycle: onoff_arduino (app.py:136-175), test_arduino (179-189)

  /** The connect branch of `onoff_arduino`: clear the stop flag, bind one
      worker to `devices[portNum]`. An index past the device list raises
      IndexError after the flag is cleared; `raised` reports it. A new
      worker starts with an empty line buffer. */
  function Connect(s: Link, devices: seq<string>, portNum: nat): (r: (Link, bool))
    ensures !r.0.exitFlag
    ensures r.1 <==> portNum >= |devices|
    ensures !r.1 ==> r.0.active && r.0.threads == s.threads + [devices[portNum]] && r.0.dataString == ""
    ensures r.1 ==> r.0.active == s.active && r.0.threads == s.threads
    ensures r.0.queue == s.queue && r.0.battery == s.battery && r.0.written == s.written
  {
    if portNum < |devices| then
      (s.(exitFlag := false, threads := s.threads + [devices[portNum]], active := true, dataString := ""), false)
    else
      (s.(exitFlag := false), true)
  }

  /** The disconnect branch of `onoff_arduino`: set the stop flag, reset the
      battery to the sentinel, drain the queue, join and forget the workers. */
  function Disconnect(s: Link): (r: Link)
    ensures Valid(r) <==> NoneIn(s.dataString, Terminators)
    ensures !r.active && r.exitFlag && r.threads == [] && r.queue == [] && r.battery == Unknown
    ensures r.written == s.written && r.handed == s.handed && r.dataString == s.dataString
  {
    s.(exitFlag := true, battery := Unknown, queue := [], threads := [], active := false)
  }

  /** `onoff_arduino`: a toggle, not an idempotent connect. */
  function Toggle(s: Link, devices: seq<string>, portNum: nat): (r: (Link, bool))
    ensures r.1 || r.0.active == !s.active
    ensures s.active ==> !r.1 && r.0.queue == [] && r.0.exitFlag
    ensures !s.active ==> !r.0.exitFlag
  {
    if s.active then (Disconnect(s), false) else Connect(s, devices, portNum)
  }

  /** `test_arduino`: live exactly when active and not faulted; a faulted
      active link is torn down first (the call then returns None, falsy). */
  function Test(s: Link): (r: (Link, bool))
    ensures r.1 <==> s.active && !s.exitFlag
    ensures r.1 || !s.active ==> r.0 == s
    ensures r.1 || !r.0.active
  {
    if s.active && !s.exitFlag then (s, true)
    else if s.exitFlag && s.active then (Toggle(s, [], 0).0, false)
    else (s, false)
  }

  /** `workQueue.put(cmd)`. */
  function Enqueue(s: Link, cmd: string): Link {
    s.(queue := s.queue + [cmd])
  }

  // ---------------------------------------------------------------------
  // One iteration of the worker loop (process_data, app.py:89-113)

  /** Lines 91-98: dequeue at most one command and write it with '\n'. The
      command has left the queue before the write is attempted, so a failed
      write loses it and raises the stop flag. */
  function Transmit(s: Link, writeOk: bool): (r: Link)
    ensures s.queue == [] ==> r == s
    ensures s.queue != [] ==> r.queue == s.queue[1..]
    ensures r.written == s.written || (s.queue != [] && r.written == s.written + [Frame(s.queue[0])])
    ensures r.exitFlag ==> s.exitFlag || r.written == s.written
    ensures s.queue != [] ==> (r.written == s.written + [Frame(s.queue[0])] <==> writeOk)
    ensures r.exitFlag <==> s.exitFlag || (s.queue != [] && !writeOk)
    ensures r.active == s.active && r.threads == s.threads && r.battery == s.battery
    ensures r.dataString == s.dataString && r.handed == s.handed
  {
    if s.queue == [] then s
    else if writeOk then s.(queue := s.queue[1..], written := s.written + [Frame(s.queue[0])])
    else s.(queue := s.queue[1..], exitFlag := true)
  }

  /** Lines 99-106: read at most one character. A terminator hands the buffer
      to the parser and empties it; the IndexError of a battery line without
      '_' escapes before the buffer is emptied and raises the stop flag. */
  function Receive(s: Link, arrival: Arrival): (r: Link)
    ensures r.queue == s.queue && r.written == s.written
    ensures r.active == s.active && r.threads == s.threads
    ensures r.handed == s.handed || r.handed == s.handed + [s.dataString]
    ensures arrival.Idle? ==> r == s
  {
    match arrival
    case Idle => s
    case ReadFault => s.(exitFlag := true)
    case Received(c) =>
      if c in Terminators then
        var reading := Parse(s.dataString);
        var s' := s.(handed := s.handed + [s.dataString]);
        if reading.MissingField? then s'.(exitFlag := true)
        else s'.(battery := Apply(s.battery, reading), dataString := "")
      else s.(dataString := s.dataString + [c])
  }

  function Step(s: Link, e: Event): (r: Link)
    ensures r.active == s.active && r.threads == s.threads
    ensures r.queue == s.queue || (s.queue != [] && r.queue == s.queue[1..])
    ensures |s.written| <= |r.written| <= |s.written| + 1
  {
    var t := Transmit(s, e.writeOk);
    if t.exitFlag then t else Receive(t, e.arrival)
  }

  /** The `while not exitFlag` loop over a schedule of device events: it
      stops at the first iteration that raises. */
  function Run(s: Link, events: seq<Event>): (r: Link)
    ensures s.exitFlag ==> r == s
    ensures r.active == s.active && r.threads == s.threads
  {
    if events == [] then s
    else
      var p := Run(s, events[..|events| - 1]);
      if p.exitFlag then p else Step(p, events[|events| - 1])
  }

  /** The characters the worker reads under a schedule of events. */
  function Read(events: seq<Event>): string {
    if events == [] then ""
    else
      Read(events[..|events| - 1])
        + match events[|events| - 1].arrival
          case Received(c) => [c]
          case _ => ""
  }

  /** The complete lines of a character stream and its unterminated tail. */
  function Completed(text: string): seq<string> {
    var p := Split(text, Terminators);
    p[..|p| - 1]
  }

  function Pending(text: string): string {
    var p := Split(text, Terminators);
    p[|p| - 1]
  }

  function Min(a: nat, b: nat): nat {
    if a < b then a else b
  }

  // ---------------------------------------------------------------------
  // Properties

  /** A worker iteration keeps the invariant and never touches the workers. */
  lemma StepValid(s: Link, e: Event)
    requires Valid(s)
    ensures Valid(Step(s, e))
    ensures Step(s, e).active == s.active && Step(s, e).threads == s.threads
  {
  }

  /** So does the whole loop. */
  lemma {:induction false} RunValid(s: Link, events: seq<Event>)
    requires Valid(s)
    ensures Valid(Run(s, events))
    ensures Run(s, events).active == s.active && Run(s, events).threads == s.threads
  {
    if events != [] {
      RunValid(s, events[..|events| - 1]);
      var p := Run(s, events[..|events| - 1]);
      if !p.exitFlag { StepValid(p, events[|events| - 1]); }
    }
  }

  /** Once the stop flag is up, further events change nothing. */
  lemma {:induction false} RunStopsAtFault(s: Link, events: seq<Event>, more: seq<Event>)
    requires Run(s, events).exitFlag
    ensures Run(s, events + more) == Run(s, events)
  {
    if more != [] {
      var all := events + more;
      assert all[..|all| - 1] == events + more[..|more| - 1];
      RunStopsAtFault(s, events, more[..|more| - 1]);
    } else {
      assert events + more == events;
    }
  }

  /** A run that has used up its schedule, or stopped, is the whole run. */
  lemma RunPrefix(s: Link, events: seq<Event>, i: nat)
    requires i <= |events|
    requires i == |events| || Run(s, events[..i]).exitFlag
    ensures Run(s, events) == Run(s, events[..i])
  {
    if i < |events| {
      RunStopsAtFault(s, events[..i], events[i..]);
      assert events[..i] + events[i..] == events;
    } else {
      assert events[..i] == events;
    }
  }

  /** One iteration removes at most one command, always the head, and
      writes exactly that command followed by '\n'. */
  lemma StepFifo(s: Link, e: Event)
    ensures var r := Step(s, e);
            if s.queue == [] then r.queue == [] && r.written == s.written
            else (&& r.queue == s.queue[1..]
                  && (r.written == s.written + [s.queue[0] + "\n"] || (r.written == s.written && r.exitFlag)))
  {
  }

  /** What one iteration without a fault does to the line state. */
  lemma StepLine(p: Link, e: Event)
    requires !p.exitFlag && !Step(p, e).exitFlag
    ensures var r := Step(p, e);
            && !e.arrival.ReadFault?
            && (e.arrival.Idle? ==> r.handed == p.handed && r.dataString == p.dataString && r.battery == p.battery)
            && (e.arrival.Received? && e.arrival.c in Terminators ==>
                  && r.handed == p.handed + [p.dataString] && r.dataString == ""
                  && r.battery == Apply(p.battery, Parse(p.dataString)))
            && (e.arrival.Received? && e.arrival.c !in Terminators ==>
                  r.handed == p.handed && r.dataString == p.dataString + [e.arrival.c] && r.battery == p.battery)
  {
  }

  /** One more event extends the run by one iteration unless it has stopped. */
  lemma RunSnoc(s: Link, events: seq<Event>, e: Event)
    ensures var all := events + [e];
            Run(s, all) == if Run(s, events).exitFlag then Run(s, events) else Step(Run(s, events), e)
  {
  }

  /** The queue discipline after `n` iterations from `s`: `k` commands have
      been taken from the head, and all of them written in order except that
      the last one is lost when a failed write stopped the worker. */
  predicate Fifo(s: Link, r: Link, n: nat, k: nat) {
    && k <= |s.queue|
    && r.queue == s.queue[k..]
    && (|| r.written == s.written + Frames(s.queue[..k])
        || (r.exitFlag && k > 0 && r.written == s.written + Frames(s.queue[..k - 1])))
    && (!r.exitFlag ==> k == Min(n, |s.queue|))
  }

  /** Over a whole run the worker takes a prefix of the queue, in order, and
      writes those commands in the same order; only the last one taken can
      be lost, by a failed write that stops the worker. Without a fault every
      iteration takes one command while any are left. */
  lemma {:induction false} RunFifo(s: Link, events: seq<Event>) returns (k: nat)
    requires !s.exitFlag
    ensures var r := Run(s, events);
            && k <= |s.queue|
            && r.queue == s.queue[k..]
            && (|| r.written == s.written + Frames(s.queue[..k])
                || (r.exitFlag && k > 0 && r.written == s.written + Frames(s.queue[..k - 1])))
            && (!r.exitFlag ==> k == Min(|events|, |s.queue|))
  {
    if events == [] {
      k := 0;
      assert s.queue[..0] == [];
    } else {
      var init := events[..|events| - 1];
      var e := events[|events| - 1];
      assert init + [e] == events;
      RunSnoc(s, init, e);
      var j := RunFifo(s, init);
      k := FifoStep(s, Run(s, init), e, |init|, j);
    }
  }

  /** One more loop turn keeps the queue discipline. */
  lemma FifoStep(s: Link, p: Link, e: Event, n: nat, j: nat) returns (k: nat)
    requires Fifo(s, p, n, j)
    ensures Fifo(s, if p.exitFlag then p else Step(p, e), n + 1, k)
  {
    if p.exitFlag || p.queue == [] {
      k := j;
      if !p.exitFlag { StepFifo(p, e); }
    } else {
      StepFifo(p, e);
      k := j + 1;
      assert s.queue[k..] == p.queue[1..];
      assert s.queue[..k] == s.queue[..j] + [s.queue[j]];
      assert s.queue[..k - 1] == s.queue[..j];
      assert p.queue[0] == s.queue[j];
    }
  }

  /** The line state after reading `text` from `s`: the handed lines are its
      complete segments, the buffer its tail, the battery the fold. */
  predicate Reassembled(s: Link, r: Link, text: string) {
    && r.handed == s.handed + Completed(text)
    && r.dataString == Pending(text)
    && r.battery == ApplyAll(s.battery, Completed(text))
  }

  /** Line reassembly and last-write-wins telemetry: after a run without a
      fault, the lines handed to the parser are the complete
      terminator-separated segments of the buffer and the characters read,
      in order and empty ones included, the buffer holds the unterminated
      tail, and the battery level is the previous one updated by those
      lines in order. */
  lemma {:induction false} RunReassembly(s: Link, events: seq<Event>)
    requires !s.exitFlag && NoneIn(s.dataString, Terminators)
    requires !Run(s, events).exitFlag
    ensures var r := Run(s, events);
            var text := s.dataString + Read(events);
            && r.handed == s.handed + Completed(text)
            && r.dataString == Pending(text)
            && r.battery == ApplyAll(s.battery, Completed(text))
  {
    if events == [] {
      assert s.dataString + Read(events) == s.dataString;
      SplitNoSeparator(s.dataString, Terminators);
      assert Completed(s.dataString) == [];
    } else {
      var init := events[..|events| - 1];
      var e := events[|events| - 1];
      assert init + [e] == events;
      RunSnoc(s, init, e);
      var p := Run(s, init);
      assert !p.exitFlag;
      RunReassembly(s, init);
      var text0 := s.dataString + Read(init);
      assert s.dataString + Read(events) == text0 + match e.arrival
        case Received(c) => [c]
        case _ => "";
      ReassembledStep(s, p, e, text0);
    }
  }

  /** One more loop turn without a fault keeps the line state. */
  lemma ReassembledStep(s: Link, p: Link, e: Event, text: string)
    requires !p.exitFlag && !Step(p, e).exitFlag && Reassembled(s, p, text)
    ensures Reassembled(s, Step(p, e), text + match e.arrival
              case Received(c) => [c]
              case _ => "")
  {
    StepLine(p, e);
    if e.arrival.Idle? {
      assert text + "" == text;
    } else {
      var c := e.arrival.c;
      if c in Terminators {
        CompletedSnocTerminator(text, c);
        ApplyAllSnoc(s.battery, Completed(text), Pending(text));
      } else {
        SplitSnocOther(text, c, Terminators);
        assert Completed(text + [c]) == Completed(text);
      }
    }
  }

  lemma CompletedSnocTerminator(text: string, c: char)
    requires c in Terminators
    ensures Completed(text + [c]) == Completed(text) + [Pending(text)]
    ensures Pending(text + [c]) == ""
  {
    SplitSnocSeparator(text, c, Terminators);
  }

  lemma ApplyAllSnoc(b: Battery, lines: seq<string>, line: string)
    ensures ApplyAll(b, lines + [line]) == Apply(ApplyAll(b, lines), Parse(line))
  {
  }

  /** Connecting an inactive link clears the stop flag, starts exactly one
      worker and marks the link active; toggling again tears it down. */
  lemma ToggleConnects(s: Link, devices: seq<string>, portNum: nat)
    requires Valid(s) && !s.active && portNum < |devices|
    ensures var (c, raised) := Toggle(s, devices, portNum);
            && !raised && Valid(c) && c.active && !c.exitFlag
            && c.threads == [devices[portNum]]
            && c.queue == s.queue
            && var d := Toggle(c, devices, portNum).0;
               Valid(d) && !d.active && d.threads == [] && d.queue == []
  {
  }

  /** Disconnecting an active link raises the stop flag, resets the battery
      to the sentinel, empties the queue and leaves no worker; a liveness
      check right after it reports the link dead. */
  lemma ToggleDisconnects(s: Link, devices: seq<string>, portNum: nat)
    requires Valid(s) && s.active
    ensures var d := Toggle(s, devices, portNum).0;
            && Valid(d) && d.exitFlag && Level(d.battery) == -999
            && d.queue == [] && d.threads == [] && !d.active
            && Test(d) == (d, false)
  {
  }

  /** `test_arduino` is live exactly when active and not faulted; when it is
      not live, the link it leaves behind is inactive, and a faulted link
      has been torn down. */
  lemma TestLiveness(s: Link)
    requires Valid(s)
    ensures var (t, live) := Test(s);
            && (live <==> s.active && !s.exitFlag)
            && Valid(t)
            && (live ==> t == s)
            && (!s.active ==> t == s)
            && (!live ==> !t.active && t.threads == [])
            && (s.active && s.exitFlag ==> t.queue == [] && t.battery == Unknown)
  {
  }

  /** A failed write stops the worker within that iteration, and the next
      liveness check tears the link down. */
  lemma WriteFaultDetected(s: Link, a: Arrival)
    requires Valid(s) && s.active && !s.exitFlag && s.queue != []
    ensures var r := Step(s, Event(false, a));
            && r.exitFlag
            && var (t, live) := Test(r);
               !live && !t.active && t.queue == [] && t.threads == []
  {
  }

  /** A battery line without '_' raises in the parser: the worker stops with
      the line still in its buffer and the battery level unchanged. */
  lemma MissingFieldStopsWorker(s: Link, c: char)
    requires !s.exitFlag && c in Terminators
    requires Contains(s.dataString, Marker) && NoneIn(s.dataString, {Underscore})
    ensures var r := Step(s, Event(true, Received(c)));
            && r.exitFlag && r.dataString == s.dataString && r.battery == s.battery
            && r.handed == s.handed + [s.dataString]
  {
    ParseMissingField(s.dataString);
  }
}
