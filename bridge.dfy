/** The serial command bridge of web_interface/app.py as one object: the
    module globals the source shares between the request handlers and the
    worker thread become the fields of a Bridge, and each operation updates
    them in place. Every method is proved to perform the transition the
    Link module defines, whose properties are proved there. */
module SerialBridge {
  import opened Wrappers
  import opened Text
  import opened Telemetry
  import Link
  import opened Ports

  /** The reply of the reconnect action. */
  datatype Reply = Disconnected | Connected | Failed(error: PortError)

  class Bridge {
    var arduinoActive: bool
    var exitFlag: bool
    var batteryLevel: Battery
    /** The pending commands, head first (`workQueue`). */
    var queue: seq<string>
    /** The started worker threads, each named by its device path (`threads`). */
    var threads: seq<string>
    /** The worker's buffer of the current inbound line. */
    var dataString: string
    /** Every frame written to the device, in order. */
    var written: seq<string>
    /** Every line handed to the parser, in order. */
    ghost var handed: seq<string>

    ghost function State(): Link.Link
      reads this
    {
      Link.Link(arduinoActive, exitFlag, batteryLevel, queue, threads, dataString, written, handed)
    }

    ghost predicate Valid()
      reads this
    {
      Link.Valid(State())
    }

    /** The initial values of the globals (app.py:55-62). */
    constructor ()
      ensures Valid() && State() == Link.Initial()
    {
      arduinoActive, exitFlag, batteryLevel := false, false, Unknown;
      queue, threads, dataString, written := [], [], "", [];
      handed := [];
    }

    /** `workQueue.put(cmd)` under the queue lock. */
    method Enqueue(cmd: string)
      requires Valid()
      modifies this
      ensures Valid() && State() == Link.Enqueue(old(State()), cmd)
    {
      queue := queue + [cmd];
    }

    /** `onoff_arduino(q, portNum)`: connect when inactive, disconnect when
        active. `raised` reports the IndexError of a port index past the
        device list, which escapes after the stop flag is cleared. */
    method Toggle(devices: seq<string>, portNum: nat) returns (raised: bool)
      requires Valid()
      modifies this
      ensures Valid() && (State(), raised) == Link.Toggle(old(State()), devices, portNum)
    {
      raised := false;
      if !arduinoActive {
        exitFlag := false;
        if portNum < |devices| {
          threads := threads + [devices[portNum]];
          dataString := "";
          arduinoActive := true;
        } else {
          raised := true;
        }
      } else {
        exitFlag := true;
        batteryLevel := Unknown;
        while queue != []
          invariant State() == old(State()).(exitFlag := true, battery := Unknown, queue := queue)
          decreases |queue|
        {
          queue := queue[1..];
        }
        threads := [];
        arduinoActive := false;
      }
    }

    /** `test_arduino()`: live exactly when active and not faulted; a
        faulted link is torn down before the check reports it dead. */
    method Test() returns (live: bool)
      requires Valid()
      modifies this
      ensures Valid() && (State(), live) == Link.Test(old(State()))
    {
      if arduinoActive && !exitFlag {
        live := true;
      } else if exitFlag && arduinoActive {
        var _ := Toggle([], 0);
        live := false;
      } else {
        live := false;
      }
    }

    /** A request handler's send (app.py:330-333, 454-457, 476-479): the
        command is queued only when the link is live. */
    method Send(cmd: string) returns (sent: bool)
      requires Valid()
      modifies this
      ensures Valid()
      ensures var (t, live) := Link.Test(old(State()));
              sent == live && State() == if live then Link.Enqueue(t, cmd) else t
    {
      sent := Test();
      if sent {
        Enqueue(cmd);
      }
    }

    /** The motor handler (app.py:306-310): the X and Y commands are queued
        together, X first, when the link is live. */
    method SendMotor(xVal: int, yVal: int) returns (sent: bool)
      requires Valid()
      modifies this
      ensures Valid()
      ensures var (t, live) := Link.Test(old(State()));
              && sent == live
              && State() == if live then t.(queue := t.queue + ["X" + IntToString(xVal), "Y" + IntToString(yVal)]) else t
    {
      sent := Test();
      if sent {
        queue := queue + ["X" + IntToString(xVal), "Y" + IntToString(yVal)];
      }
    }

    /** One iteration of the worker loop (app.py:90-113). An exception
        anywhere in the iteration becomes the stop flag and ends it. */
    method Step(e: Link.Event)
      requires Valid() && arduinoActive && !exitFlag
      modifies this
      ensures Valid() && State() == Link.Step(old(State()), e)
    {
      ghost var s := State();
      if queue != [] {
        var data := queue[0] + "\n";
        queue := queue[1..];
        if e.writeOk {
          written := written + [data];
        } else {
          exitFlag := true;
        }
      }
      if !exitFlag {
        match e.arrival
        case Idle =>
        case ReadFault =>
          exitFlag := true;
        case Received(c) =>
          if c == '\n' || c == '\r' {
            handed := handed + [dataString];
            var reading := Parse(dataString);
            if reading.MissingField? {
              exitFlag := true;
            } else {
              batteryLevel := Apply(batteryLevel, reading);
              dataString := "";
            }
          } else {
            dataString := dataString + [c];
          }
      }
      Link.StepValid(s, e);
    }

    /** The worker loop `while not exitFlag` (app.py:89), driven by a schedule
        of device events; it ends at the first fault or when the schedule is
        exhausted. */
    method Run(events: seq<Link.Event>)
      requires Valid() && arduinoActive
      modifies this
      ensures Valid() && State() == Link.Run(old(State()), events)
    {
      ghost var s := State();
      var i := 0;
      while i < |events| && !exitFlag
        invariant i <= |events|
        invariant Valid() && arduinoActive
        invariant State() == Link.Run(s, events[..i])
      {
        Step(events[i]);
        Link.RunSnoc(s, events[..i], events[i]);
        assert events[..i] + [events[i]] == events[..i + 1];
        i := i + 1;
      }
      Link.RunPrefix(s, events, i);
    }

    /** The reconnect action of `arduinoConnect` (app.py:516-548): a live
        link is disconnected; otherwise (after the liveness check has torn
        down a faulted link) the requested port is validated, probed, and
        connected. The probe's outcome is a parameter. */
    method Reconnect(port: Option<string>, devices: seq<string>, probeOk: bool) returns (reply: Reply)
      requires Valid()
      modifies this
      ensures Valid()
      ensures var (t, live) := Link.Test(old(State()));
              if live then reply == Disconnected && State() == Link.Disconnect(t)
              else match ValidatePort(port, |devices|)
                case Err(e) => reply == Failed(e) && State() == t
                case Ok(n) =>
                  if probeOk then reply == Connected && State() == Link.Connect(t, devices, n).0
                  else reply == Failed(ProbeFailed) && State() == t
      ensures reply == Connected ==> arduinoActive && !exitFlag && |threads| == 1
      ensures reply.Failed? ==> !arduinoActive && threads == []
    {
      var live := Test();
      if live {
        var _ := Toggle(devices, 0);
        reply := Disconnected;
      } else {
        var checked := ValidatePort(port, |devices|);
        if checked.Err? {
          reply := Failed(checked.error);
        } else if !probeOk {
          reply := Failed(ProbeFailed);
        } else {
          var raised := Toggle(devices, checked.value);
          reply := Connected;
        }
      }
    }
  }
}
