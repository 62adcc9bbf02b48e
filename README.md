# Serial command bridge of the WALL-E replica control panel

This project models, in Dafny, the sequential core of the robot's web
control panel (`web_interface/app.py`). The panel drives an Arduino over a
serial link: request handlers put short commands (`X-40`, `Y100`, `A3`, …) on
a queue, and one worker thread writes them to the device. The same worker
reassembles inbound characters into lines and passes each line to a parser
that picks out battery telemetry. `onoff_arduino` connects and disconnects
the link, and `test_arduino` checks it and tears down a faulted link.
Around this core sit small pure decisions:

- the default serial port;
- validation of a reconnect request;
- classification of sound files by name;
- the battery gauge drawn on the OLED display.

Modules:

- `Wrappers` has `Option` and `Result`.
- `Text` models Python's `str.isdigit`, `int()`, `str(int)`, substring `in` and
  `str.split`, with the split/join round trips.
- `Telemetry` models `parseArduinoMessage` and the battery level it writes.
- `Link` holds the bridge's global state as a value, a function for each
  transition, and the lemmas that state what the code promises.
- `SerialBridge` has the class `Bridge`. Its fields are the globals. Its
  methods update them in place, and each is proved to perform the matching
  `Link` transition.
- `Ports` models port selection and reconnect validation.
- `Sounds` models the sound list of the main page.
- `BatteryDisplay` models the battery gauge.

Device input and output are modelled as a schedule of per-iteration events.
Each event says whether the write succeeds and what the read yields: nothing,
one character, or an exception. An exception is an explicit outcome that
raises `exitFlag`.

Behaviour of the code that the model keeps as written:

- `"Battery_12_34"` stores `"12"`: only the second `'_'`-field is checked
  (app.py:126-132).
- A line that contains `Battery` but no `'_'` raises IndexError in the
  parser, whose own handler catches only ValueError. The worker's
  `except Exception` catches it and stops the worker
  (`Link.MissingFieldStopsWorker`).
- The battery level holds the text of the field. `int()` is applied only
  when the gauge is drawn (`Telemetry.Battery`, `Telemetry.Level`).
- The port loop keeps the last matching description (`Ports.SelectPort`).
- `test_arduino` returns `None` after a teardown; its callers treat it as
  false.

## Model

| member | source | states |
|---|---|---|
| `Text.IsDigits` | web_interface/app.py:245 | `str.isdigit`: non-empty and made of digits only |
| `Text.IsInt` | web_interface/app.py:126 | the text `int()` accepts: digits, optionally after one sign |
| `Text.IntValue` | web_interface/app.py:126 | the value `int()` reads: negative only after a `-`; a `+` or no sign gives the value of the digits |
| `Text.IntToString` | web_interface/app.py:308-309 | `str(n)` is text that `int()` reads back as exactly `n`; it has no sign exactly when `n >= 0` |
| `Text.Contains` | web_interface/app.py:121 | `sub in s` holds exactly when `sub` occurs at some index of `s` |
| `Text.Split` | web_interface/app.py:122 | `s.split(sep)` has one more field than `s` has separators, and no field contains a separator |
| `Text.JoinSplit` | web_interface/app.py:122 | joining the fields of `s.split(sep)` with `sep` gives back `s` |
| `Text.SplitJoin` | web_interface/app.py:244-255 | splitting a join of separator-free parts gives back the parts |
| `Text.SplitFirst` | web_interface/app.py:122 | every string is its first field followed by nothing or by a separator and the text of the remaining fields |
| `Text.SplitSnocSeparator` | web_interface/app.py:101-104 | appending a terminator opens a new, empty last segment |
| `Text.SplitSnocOther` | web_interface/app.py:105-106 | appending any other character extends the last segment |
| `Telemetry.Parse` | web_interface/app.py:117-133 | a line without `Battery` is no event; an update carries text `int()` accepts and containing no `'_'` |
| `Telemetry.Level` | web_interface/app.py:610 | `int(batteryLevel)`: the sentinel -999 or the value of the stored text; negative only for the sentinel or a `-`-signed field; an unsigned field gives its digits' value |
| `Telemetry.Apply` | web_interface/app.py:131-132 | an update replaces the level by its field, anything else keeps it; a well-formed level stays well-formed |
| `Telemetry.ApplyAll` | web_interface/app.py:99-133 | after a sequence of lines the level is the starting one or the field of an update carried by one of those lines |
| `Telemetry.ApplyAllLast` | web_interface/app.py:99-133 | the last line that parses to an update decides the level, whatever came before it |
| `Telemetry.ApplyAllNone` | web_interface/app.py:99-133 | lines none of which parses to an update leave the level as it was |
| `Telemetry.ParseMissingField` | web_interface/app.py:121-131 | the parser raises (IndexError) exactly on a line that contains `Battery` and no `'_'` |
| `Telemetry.ParseSecondField` | web_interface/app.py:121-133 | on a `Battery` line the level is the second `'_'`-field exactly when `int()` accepts it, else no event; later fields are ignored |
| `Telemetry.ParseUpdateIsSecondField` | web_interface/app.py:122-132 | conversely, every update is the text between the first `'_'` and the next `'_'` or the end of the line |
| `Telemetry.ParseExampleLevel` | web_interface/app.py:121-133 | `Battery_87` sets the level to `87`, and `Battery_12_34` to `12`: later fields are ignored |
| `Telemetry.ParseExampleNoNumber` | web_interface/app.py:125-131 | `Battery_` and `Battery_x7` are no event |
| `Telemetry.ParseExampleNoField` | web_interface/app.py:121-128 | `Battery` raises IndexError |
| `Telemetry.UnmarkedLinesKeepLevel` | web_interface/app.py:121 | lines without `Battery` never change the battery level |
| `Telemetry.ApplyAllWellFormed` | web_interface/app.py:131-132 | the battery level only ever holds the sentinel or text `int()` accepts |
| `Link.Initial` | web_interface/app.py:55-62 | the initial state is inactive with an empty queue and satisfies the bridge invariant |
| `Link.Frames` | web_interface/app.py:93-95 | each command goes on the wire as itself followed by `'\n'`, in order |
| `Link.Connect` | web_interface/app.py:142-155 | connecting clears `exitFlag`; it raises IndexError exactly for an index past the device list, otherwise it starts a worker bound to that device and marks the link active; the queue, the battery level and the wire are untouched |
| `Link.Disconnect` | web_interface/app.py:157-173 | disconnecting raises `exitFlag`, resets the battery to -999, empties the queue, leaves no worker and marks the link inactive; what was written stays written |
| `Link.Toggle` | web_interface/app.py:136-175 | a toggle flips the active flag unless the connect raises; from an active link it always disconnects with an empty queue |
| `Link.Test` | web_interface/app.py:179-189 | live exactly when active and not faulted; a live or inactive link is unchanged; afterwards the link is live or inactive |
| `Link.Transmit` | web_interface/app.py:91-98 | with an empty queue nothing happens; otherwise the head is dequeued and either written as one frame or lost to a failed write; the read side is untouched |
| `Link.Receive` | web_interface/app.py:99-113 | the read side never touches the queue, the wire or the workers; it hands at most the buffered line to the parser; no input changes nothing |
| `Link.Step` | web_interface/app.py:90-113 | an iteration keeps the workers, takes at most the head of the queue and writes at most one frame |
| `Link.Run` | web_interface/app.py:89-113 | a stopped loop performs no iteration; the loop never touches the workers |
| `Link.StepValid` | web_interface/app.py:89-113 | a worker iteration keeps the invariant (one worker while active, no terminator buffered) and never touches the connection flags or the workers |
| `Link.RunValid` | web_interface/app.py:89-114 | the whole worker loop keeps the invariant |
| `Link.RunStopsAtFault` | web_interface/app.py:89-113 | once an exception has raised `exitFlag`, the loop performs no further iteration |
| `Link.RunPrefix` | web_interface/app.py:89 | the loop is done when the events run out or `exitFlag` is up |
| `Link.StepFifo` | web_interface/app.py:91-98 | an iteration removes at most one command, always the head, and writes exactly that command followed by `'\n'` (or loses it to a failed write that stops the worker) |
| `Link.RunFifo` | web_interface/app.py:89-98 | over a run the worker takes a prefix of the queue and writes it in order; only a failed write loses a command, and it stops the worker; without a fault it takes `min(iterations, queued)` commands |
| `Link.StepLine` | web_interface/app.py:99-106 | a character that does not fault either hands the buffer to the parser and empties it (a terminator) or is appended to the buffer |
| `Link.RunReassembly` | web_interface/app.py:99-106 | after a run without a fault the lines handed to the parser are the `'\n'`/`'\r'`-separated segments of buffer plus input, in order and empty ones included; the buffer is the unterminated tail; the battery level is the last valid reading |
| `Link.CompletedSnocTerminator` | web_interface/app.py:101-104 | a terminator completes the pending segment as a line and leaves an empty tail |
| `Link.MissingFieldStopsWorker` | web_interface/app.py:99-113 | a `Battery` line without `'_'` stops the worker with the line still buffered and the level unchanged |
| `Link.ToggleConnects` | web_interface/app.py:142-155 | connecting an inactive link clears `exitFlag`, starts exactly one worker bound to the chosen device, and marks it active; toggling again tears it down |
| `Link.ToggleDisconnects` | web_interface/app.py:157-173 | disconnecting sets `exitFlag`, resets the battery to -999, empties the queue, leaves no worker and marks the link inactive; a liveness check then reports it dead |
| `Link.TestLiveness` | web_interface/app.py:179-189 | live exactly when active and not faulted; a live check changes nothing; a failed check leaves the link inactive, and a faulted link has been torn down (empty queue, sentinel battery) |
| `Link.WriteFaultDetected` | web_interface/app.py:91-113 | a failed write stops the worker in that iteration, and the next liveness check reports the link dead and tears it down |
| `SerialBridge.Bridge.constructor` | web_interface/app.py:55-62 | the globals start at their initial values |
| `SerialBridge.Bridge.Enqueue` | web_interface/app.py:331-333 | a put appends the command at the tail and changes nothing else |
| `SerialBridge.Bridge.Toggle` | web_interface/app.py:136-175 | performs the connect or disconnect transition in place, draining the queue with a loop; reports the IndexError of an index past the device list |
| `SerialBridge.Bridge.Test` | web_interface/app.py:179-189 | performs the liveness check in place, tearing down a faulted link |
| `SerialBridge.Bridge.Send` | web_interface/app.py:330-335 | a handler's command is queued exactly when the liveness check passes |
| `SerialBridge.Bridge.SendMotor` | web_interface/app.py:306-313 | when live, `X<x>` then `Y<y>` are appended together, adjacent at the tail with X first; otherwise nothing is queued |
| `SerialBridge.Bridge.Step` | web_interface/app.py:90-113 | one worker iteration in place: dequeue and write at most one command, read at most one character, any exception raises `exitFlag` |
| `SerialBridge.Bridge.Run` | web_interface/app.py:83-114 | the `while not exitFlag` loop in place, over a schedule of device events |
| `SerialBridge.Bridge.Reconnect` | web_interface/app.py:516-548 | a live link is disconnected; otherwise a valid, probed port is connected (exactly one worker, not faulted) and every refusal leaves the link inactive |
| `Ports.SelectPort` | web_interface/app.py:268-272 | the selection is the last description containing the preferred text (`arduinoPort`, `ARDUINO` in the source), 0 when none does, and a valid index whenever the list is non-empty |
| `Ports.Message` | web_interface/app.py:541-548 | the error text of each refusal |
| `Ports.ValidatePort` | web_interface/app.py:525-548 | a port is accepted exactly when it is present, all digits, and its value is below the device count; a missing or non-digit port is refused as unreadable |
| `Ports.MessagesDistinct` | web_interface/app.py:543-548 | each refusal carries its own error message |
| `Ports.ValidateOfferedIndex` | web_interface/app.py:526-534 | the index a page offers is accepted back as that index |
| `Ports.ValidateRejectsPastEnd` | web_interface/app.py:534-546 | an index at or past the device list is refused as an invalid port |
| `Sounds.Stem` | web_interface/app.py:236 | the name without `.ogg`, except that a name of only dots keeps the extension |
| `Sounds.Classify` | web_interface/app.py:238-256 | the entry keeps the file name; its group is `Other` or a single `'_'`-part, its name is the whole file name or a single part |
| `Sounds.ClassifyTimed` | web_interface/app.py:244-247 | `name_digits` is group `Other`, that name, and the digits as milliseconds |
| `Sounds.ClassifyGrouped` | web_interface/app.py:244-250 | `group_name` whose second part is not all digits is that group and name with time 0 |
| `Sounds.ClassifyGroupedTimed` | web_interface/app.py:251-255 | `group_name_time` is that group and name, timed only when the third part is all digits |
| `Sounds.ClassifyOther` | web_interface/app.py:238-241 | any other number of parts is group `Other`, the whole name, time 0 |
| `Sounds.OggItems` | web_interface/app.py:234-235 | the `.ogg` items of the listing: every one of them, only items of the listing, and a single item is kept exactly when it ends in `.ogg` |
| `Sounds.OggItemsAppend` | web_interface/app.py:234-235 | filtering distributes over concatenation, so the kept items appear in listing order with their multiplicity |
| `Sounds.ListSounds` | web_interface/app.py:232-258 | the sound list has one entry per `.ogg` item, in listing order, each the classification of its stem |
| `BatteryDisplay.Normalize` | web_interface/app.py:610-622 | the drawn level is between 0 and 110: above 110 becomes 100, negative becomes 0, others are kept |
| `BatteryDisplay.Bars` | web_interface/app.py:624-628 | at most ten segments; segment k from the bottom is filled exactly when `10k` is below the level |
| `BatteryDisplay.DrawnRows` | web_interface/app.py:624-628 | the drawing loop fills exactly the bottom `Bars(level)` rows |
| `BatteryDisplay.Display` | web_interface/app.py:588-632 | nothing is drawn while a video plays; otherwise the drawn level is the normalised `int()` of the stored level, in 0..110, the bars are those of that level, and the warning is shown exactly below 4 |
| `BatteryDisplay.DisplayUnknown` | web_interface/app.py:610-632 | the sentinel shows `ERR:No Con -999`, no bars and the warning |
| `BatteryDisplay.DisplayNoConnection` | web_interface/app.py:610-632 | any negative level, the sentinel or a reported one, shows `ERR:No Con ` and the level's text, no bars and the warning |
| `BatteryDisplay.DisplayCharging` | web_interface/app.py:615-617 | a level above 110 shows `Charging …`, a full gauge and no warning |
| `BatteryDisplay.DisplayPercent` | web_interface/app.py:621-632 | a level in 0..110 is shown as sent with `%`; no bars only at 0; the warning implies at most one bar |
| `BatteryDisplay.BarsMonotone` | web_interface/app.py:624-628 | more charge never shows fewer segments |

## Left out

- Flask routing, sessions, login, JSON responses, and the `updateList` and unknown-action branches of `arduinoConnect` are left out. They are web-framework plumbing. Only the selection and validation decisions are kept.
- Real serial I/O is left out: `serial.Serial`, `flushInput`, `inWaiting`, `read`, `write` and `close`. They are foreign driver calls. Device behaviour is the `Link.Event` schedule, and the reconnect probe is the `probeOk` parameter.
- The worker's own `serial.Serial(port, 115200)` (app.py:86) lies outside the `try`. If it raised, the thread would die without setting `exitFlag`. The model assumes the worker opens its device.
- Threads, `queueLock` and `join` are left out. Commands, worker iterations and toggles are modelled as one sequential interleaving. A worker iteration that races a disconnect is not captured.
- The `time.sleep` backpressure while a video plays (app.py:107-109) is timing only.
- The `videoFlag`/`stopVideo` handshake of `PlayMovie` and `videoPlayer` is left out, because it is concurrency. `BatteryDisplay.Display` keeps only the early return while a video is active.
- pygame audio, OLED/PIL drawing and cv2 frames are vendor I/O. The worker's call of the display after an update is not modelled. `BatteryDisplay.Display` states what that call would draw.
- `subprocess` stream control and shutdown are process I/O.
- The volume setting, the audio and animate handlers, `TryInitArduinoCon`, and the sorting and listing of the sound folder are outside the bridge. `Sounds.ListSounds` takes the listing already sorted.
- `print` logging is left out.
- `SerialBridge.Bridge.SendMotor`: takes the integer motor values. It does not model the float scaling `int(-float(stickX)*100)` (app.py:303-304).
- `Sounds.Classify`: keeps the time as integer milliseconds, the digits' value. The source's float seconds `float(t)/1000.0` is not modelled.
- `Telemetry.Parse`: a successful `int()` is modelled as an optional sign followed by at least one ASCII digit. Python also accepts surrounding whitespace, underscores between digits and non-ASCII digits.
- `Text.IsDigits`: `str.isdigit` is modelled on ASCII digits only, for all three uses: the sound-name time fields (app.py:245 and app.py:254) and the reconnect port (app.py:526). Python also accepts other Unicode digits. For a sound name such as `a_٣`, `isdigit` holds and `float('٣')` is 3.0, so the source lists it as group `Other`, name `a`, time 0.003 s; the model lists it as group `a`, name `٣`, time 0. For `a_²`, `isdigit` holds but `float('²')` raises ValueError, which the source does not catch, while the model lists it as group `a`, name `²`.
- `Ports.ValidatePort`: `isdigit` is modelled on ASCII digits only, and any other character is refused as unreadable. Python's `isdigit` also accepts non-ASCII decimal digits, which `int()` reads (`'٣'` is 3), so the source accepts such a port when its value is in range. It also accepts digits that are not decimal, such as `'²'`, on which `int()` raises. The model refuses both kinds as unreadable.
- `SerialBridge.Bridge.Reconnect`: uses one device enumeration for validation, the probe and the connect. The source enumerates again inside `onoff_arduino` (app.py:146-149), so a device that vanishes in between is not modelled.
- `SerialBridge.Bridge.Toggle`: takes a non-negative port index. Python would also accept a negative index counted from the end, but no caller passes one.
- `SerialBridge.Bridge.Test`: returns false where the source returns `None` after a teardown. Every caller treats `None` as false.
- `Link.Read`: characters stand for decoded bytes. A byte that fails to decode is a `ReadFault`, and multi-byte characters are not modelled.
- `Sounds.Stem`: `os.path.basename` is the identity on directory-listing names, which contain no `/`.
