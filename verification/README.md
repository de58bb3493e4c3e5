# ThrottleX, verified

ThrottleX lets wiThrottle hand controllers drive model trains through LocoNet command stations. This project models
what lies between the two and proves what it is for.

- **The slot bridge.** Throttles write a table of loco rows: wanted or not, speed, direction, emergency stops, function
  changes. One send thread per LocoNet connection scans the table and drives a small state machine per address, which
  takes a slot over, sends what changed, and gives the slot back. `SlotBridge` states this as a transition system on
  values: throttle commands, other connections and visits of the send thread in any interleaving, any answers of the command station,
  and an exception at any report. The classes in `Functions`, `Rows` and `SendThread` have the program's own fields
  and loops, and each method is proved to do what the transition system says. On top of it:
  `TraceSafety` (which frames may ever be sent), `EmergencyStop`, `Convergence` (the loop comes to rest),
  `CommandStation` (last-sent bytes are what the station holds), `FunctionLog` and `RowLog` (a row is what its commands in
  the run amount to), `Sessions` (from takeover to rest, end to end) and `SlotBytes` (handshake and operation, told from
  the bits of the slot's bytes).
- **Several stations** (`Verdict`, `Stations`): n connections report in any order and one answer comes out; and all send threads,
  the collector of their reports and the waiting throttle together, where each connection is a run of the slot bridge.
- **LocoNet messages** (`Fields`, `Codec`, `Wire`): numbers scattered over bits of shared field objects, the printer and
  parser of thirteen message formats with their check byte, and each message byte by byte, after the message format description of Digitrax
  "LocoNet Personal Use Edition 1.0".
- **LocoNet over TCP** (`HexText`, `Lines`, `LineClient`, `ReplyMatching`, `Client`): bytes to lines, lines to messages, messages to
  listeners, and which message a request takes for its reply.
- **Two caches** (`CpuHistory`, `Mirror`): the pruned history of CPU samples, and the mirror of a station's slot table.
- **A throttle's set of locos** (`Throttle`), which must agree with the activity flags of the rows.

A specification function gives the value that an object stands for (`Abs`), the methods' contracts tie the new value to the
old one, and the lemmas are about those values. `Bits`, `Frames` and `Wrappers` hold what the others share.

Where the program does not keep what one might expect, the model follows the program and says exactly when it does:

- 2^32 emergency stops between two visits are not seen (`EmergencyStop.ComingRoundHidesStops`; `StopsLost` is such a run).
- A release asks for an emergency stop, but the slot is given back without one. The stop is sent first thing when the slot is
  operated again (`EmergencyStop.StopIsSentOnlyWhileWanted`, `ReleaseSendsNoStop`).
- Function commands between taking a slot over and adopting its state, and entries left in the queue, can leave the throttle
  side's function flags apart from the station. `Sessions.SessionFollows` says what each side then holds and exactly when
  they are the same, `WholeSession` the same for the station at rest, and `EarlyChangeStands` shows such a session.
- A message that arrives just before a request is taken for its reply if a reply was still awaited
  (`ReplyMatching.ExchangeReturnsFirstAnswer`, `StaleReplyIsReturned`).
- The parser accepts any check byte, any length byte, and a message 256 bytes too long (`Codec.ParsedExactlyWhenCarried`, with
  `WrongCheckByteIsAccepted`, `WrongLengthByteIsAccepted` and `LongMessageIsAccepted`).
- A line over 1000 bytes is lost with the connection (`Lines.LineFitsOrOverflows`).
- Address search in the mirror goes wrong exactly when slot data claims a taken address or moves a slot
  (`Mirror.CommandStationMirror.OnMessage`); slot 127 has no entry. The indexer there names its tuple parts (high, low) while the
  keys are (low, high); tuples compare by position, so `Find` takes the key as stored.
- A new connection of a throttle forgets its locos without releasing them (`Throttle.StepAgrees`).
- A throttle activates the row first and waits for the stations then. If a send thread visits the row in between, or
  somebody else has the row already, that connection does not report and the wait runs into its timeout
  (`Stations.AnswerComes`, `TooLateForAnswer`, `PromptOrTooLate`).
- A report after the verdict raises an exception in the reporting thread (`Verdict.AnswerGivenOnce`), and a connection that was not
  asked holds the verdict up for ever (`Verdict.NoAnswerBefore`).

`dafny verify dfyconfig.toml` checks the whole project.

## Model

| member | source | states |
|---|---|---|
| Sessions.WholeSession | src/ThrottleX.Core/Services/Loconet/LoconetSend.cs:156-369 | Whatever happened before: take over a slot, adopt what was learnt, command freely among all other steps of the system, then leave the rows alone. At rest the station holds the speed and the direction asked for, and each of F0 to F8 as the slot was read, changed by all changes asked for, those queued or asked for before the adoption included. The throttle side's flag is the last change or adopted state of all that the row was ever given. The two are the same exactly when the early changes leave the function as it was read, or a later change is for it. |
| Sessions.UndisturbedSession | src/ThrottleX.Core/Services/Loconet/LoconetSend.cs:156-369 | So a session whose early changes leave all functions as read ends with speed, direction and F0 to F8 in the station as the throttle side has them. |
| Sessions.EarlyChangeStands | src/ThrottleX.Core/Services/LocoTable/LocoRowImpl.cs:65-77 | Others do not: F0 forced on before the slot is taken over and read with F0 off is still to be sent when the throttle adopts F0 off. |
| Sessions.StationAtRest | src/ThrottleX.Core/Services/Loconet/LoconetSend.cs:156-255 | With rows left alone and a truthful station, a held slot ends up with the row's speed and direction and with what was due for each function when the rows were left alone, whatever the throttle side's flags are. |
| Sessions.StationHasLastCommands | src/ThrottleX.Core/Services/Loconet/LoconetSend.cs:156-255 | At rest the station's slot has the speed byte of the last speed that throttles asked for or adopted (1 for emergency stop, 0 for stop, one more than the speed above), and bit 0x20 of its DIRF is set exactly when the last direction was Reverse. |
| Sessions.StationEndsUpAsRequested | src/ThrottleX.Core/Services/Loconet/LoconetSend.cs:156-255 | In the middle of a session, with rows left alone and a truthful station: once the loop had (weight + 1) passes, the station's slot holds the speed, the direction and F0 to F8 of the row as it was when it was left alone. |
| Sessions.SessionKeepsFunctions | src/ThrottleX.Core/Services/LocoTable/LocoRowImpl.cs:70-117 | Take over, adopt later, then command freely. In every later state the station's function bits, once the queue is drained into them, are the throttle side's On flags exactly when each of F0 to F8 was left as read by the changes queued before and asked for until the adoption, or commanded since. |
| Sessions.SessionFollows | src/ThrottleX.Core/Services/LocoTable/LocoRowImpl.cs:70-117 | What both sides hold in every later state, for each of F0 to F8: the station the slot as read, changed by early and later changes, the throttle side the slot as read, changed by the later ones only; and exactly when they are the same. |
| Sessions.AdoptStartsInStep | src/ThrottleX.Core/Services/LocoTable/LocoRowImpl.cs:70-77 | For any slot that is held: adopting starts in step exactly when what is due for each of F0 to F8 is what was learnt. |
| Sessions.DueAfter | src/ThrottleX.Core/Services/Loconet/LoconetSend.cs:164-255 | Over any steps of a session, what is due for a function is the last change asked for meanwhile, or else what was due before. |
| Sessions.OnAfter | src/ThrottleX.Core/Services/LocoTable/FunctionProcessing.cs:29-113 | Over the same steps, without adopting again, the throttle side's flag is the last change asked for meanwhile, or else what it was before. |
| Sessions.StepMovesDue | src/ThrottleX.Core/Services/LocoTable/FunctionProcessing.cs:29-113 | One step of anybody moves what is due for a function exactly as it changes the function, except for an adoption, which moves the flags only. |
| Sessions.FirstVisitTakesOver | src/ThrottleX.Core/Services/Loconet/LoconetSend.cs:169-202 | Sessions do begin: when the handshake succeeds, the first visit of a wanted loco takes its slot over, and the row learns what the handshake read. |
| Sessions.TakingOverShowsDue | src/ThrottleX.Core/Services/Loconet/LoconetSend.cs:280-329 | Right after taking over, what is due for each of F0 to F8 is what the row learns, changed by what was left in the queue. |
| FunctionLog.FunctionIsItsLastWrite | src/ThrottleX.Core/Services/LocoTable/FunctionProcessing.cs:29-113 | In every run of the whole system, a row's functions are the fold of the events of that row, and each function is its last change or adopted state. |
| FunctionLog.TableAfter | src/ThrottleX.Core/Services/LocoTable/FunctionProcessing.cs:29-113 | The same for any part of a run. |
| RowLog.RowIsItsLastCommands | src/ThrottleX.Core/Services/LocoTable/LocoRowImpl.cs:30-102 | In every run of the whole system speed, direction and activity of a row are those of the last command or adoption that sets them, and at first 0, Forward and inactive. |
| Sessions.StepKeepsInStep | src/ThrottleX.Core/Services/Loconet/LoconetSend.cs:164-255 | Every step of anybody keeps a session's functions in step with the station's slot, but for a release, a new adoption, and another connection taking from the queue. |
| Sessions.DrainingOne | src/ThrottleX.Core/Services/Loconet/SlotControl.cs:78-124 | Sending the oldest queued function change moves it from the queue into the slot bytes and loses nothing for any of F0 to F8. |
| Sessions.OperationIsARun | src/ThrottleX.Core/Services/Loconet/LoconetSend.cs:156-220 | The whole send loop is a sequence of row visits, so everything proved of runs holds of it. |
| CommandStation.LastSentIsWhatTheStationHolds | src/ThrottleX.Core/Services/Loconet/SlotControl.cs:39-108 | In every run against a truthful station, last-sent speed, DIRF and SND of every Active slot are the bytes the station holds. |
| CommandStation.HandshakeIsHarmless | src/ThrottleX.Core/Services/Loconet/LoconetSend.cs:310-369 | Taking over a slot changes no speed, direction or function in the station. |
| CommandStation.VisitInSync | src/ThrottleX.Core/Services/Loconet/LoconetSend.cs:169-212 | One visit keeps its own address in sync and touches no other slot of the station. |
| TraceSafety.EveryFrameInTurn | src/ThrottleX.Core/Services/Loconet/LoconetSend.cs:181-329 | In every run, whatever the station answers and whichever report raises an exception, no frame of any address is out of turn: lookup, null move and id write in order and about one slot, commands only while the slot is held, a release with slot number and status of its own lookup. |
| TraceSafety.CommandsOnlyWhileHeld | src/ThrottleX.Core/Services/Loconet/LoconetSend.cs:181-267 | A speed, direction, function or status frame is only ever sent for an address whose latest activation succeeded and was not released since, for that slot. |
| TraceSafety.HandshakeInTurn | src/ThrottleX.Core/Services/Loconet/LoconetSend.cs:310-329 | An activation sends lookup, null move and id write in this order, each as the answers so far call for, and ends held exactly on success; the watcher reads status bits 0x30 and ids (42, 1) from the answers themselves. |
| TraceSafety.VisitInTurn | src/ThrottleX.Core/Services/Loconet/LoconetSend.cs:181-212 | After each visit the watcher of the wire and the slot's state agree on whether the slot is held. |
| SlotBytes.InUseDecides | src/ThrottleX.Core/Services/Loconet/LoconetSend.cs:315-321 | When the lookup shows both status bits of 0x30, nothing more is sent: the attempt ends Active with this slot data when the ids are (42, 1), and Occupied otherwise. |
| SlotBytes.OthersAreMoved | src/ThrottleX.Core/Services/Loconet/LoconetSend.cs:323-369 | With any other status the second frame is the null move, whatever the ids, and the attempt never ends Occupied. What the move reports is taken over when the ids are (42, 1); otherwise these ids are written, all else as reported, and the attempt succeeds exactly when that is acknowledged. |
| SlotBytes.LookupFirst | src/ThrottleX.Core/Services/Loconet/LoconetSend.cs:331-341 | Every attempt begins with the lookup of the loco's own number, and fails without more frames when no slot data comes back. |
| SlotBytes.BusyActiveIsThree | src/Loconet/Msg/SlotDataBase.cs:67-70 | The group of the bits ACTIVE and BUSY reads 3, IN_USE, exactly when both bits of 0x30 are set. |
| SlotBytes.SpeedFrame | src/ThrottleX.Core/Services/Loconet/LoconetSend.cs:230-236 | With no stop pending, a speed byte that differs from the requested speed's is sent first, in its own code. |
| SlotBytes.DirectionFrame | src/ThrottleX.Core/Services/Loconet/LoconetSend.cs:238-245 | Then a differing direction is sent: bit 0x20 is set exactly for Reverse, and all other bits are as before. |
| SlotBytes.FunctionFrame | src/ThrottleX.Core/Services/Loconet/LoconetSend.cs:247-252 | Then the oldest function change leaves the queue: F0 to F4 in bits 0x10, 0x01, 0x02, 0x04, 0x08 of DIRF, F5 to F8 in bits 0x01 to 0x08 of SND, other bits as before, and higher functions without a frame. |
| SlotBytes.NoFrame | src/ThrottleX.Core/Services/Loconet/LoconetSend.cs:254 | And with nothing to say, nothing is sent and nothing changes. |
| EmergencyStop.StopComesFirst | src/ThrottleX.Core/Services/Loconet/LoconetSend.cs:222-255 | The next operation sees a stop exactly when the requests since the last one are no multiple of 2^32; then its only frame is LocoSpd 1, and pending speed, direction and functions wait untouched. |
| EmergencyStop.CountersTell | src/ThrottleX.Core/Services/Loconet/SlotControl.cs:54-70 | The row counts every stop request, and the slot's mirror counts those seen when it was last operated, never more. |
| EmergencyStop.PendingStopsStay | src/ThrottleX.Core/Services/LocoTable/LocoRowImpl.cs:79-97 | While fewer than 2^32 requests are outstanding, counter and mirror stay apart over any steps of anybody until the slot is operated: no speed command, release or new activation takes a pending stop back. |
| EmergencyStop.DifferenceTells | src/ThrottleX.Core/Services/Loconet/SlotControl.cs:54-70 | In every state counter and mirror differ exactly when the stop requests since the last operation are no multiple of 2^32. |
| EmergencyStop.StopIsSentOnlyWhileWanted | src/ThrottleX.Core/Services/Loconet/LoconetSend.cs:187-206 | With a stop pending for a slot that is held, the next visit sends it and catches up exactly when the row is still wanted; otherwise its only frame gives the slot back, the station's speed, direction and functions stay as they are, and so does the pending stop. |
| EmergencyStop.ReleaseSendsNoStop | src/ThrottleX.Core/Services/Loconet/LoconetSend.cs:187-190 | A run in which that happens: acquire, take over, release, visit puts only the lookup and the status frame on the wire. |
| EmergencyStop.ComingRoundHidesStops | src/ThrottleX.Core/Services/Loconet/SlotControl.cs:63-70 | In any run with a slot that is operated and nothing pending, n stops in a row are noticed by the next visit exactly when n is no multiple of 2^32. After 2^32 stops the visit sends at most the ordinary stop, and the requests are forgotten. |
| EmergencyStop.StopsInARow | src/ThrottleX.Core/Services/LocoTable/LocoRowImpl.cs:88-92 | n stops in a row raise the count of requests by n, set the speed to stop, and change nothing else. |
| EmergencyStop.StopsLost | src/ThrottleX.Core/Services/Loconet/SlotControl.cs:63-70 | A run from the start in which 2^32 stops go unseen: acquire, take over, stop. |
| EmergencyStop.StepMovesCounters | src/ThrottleX.Core/Services/LocoTable/LocoRowImpl.cs:79-92 | Only stops and releases move a row's counter, and only operating moves the slot's mirror. |
| Convergence.NormalOperationConverges | src/ThrottleX.Core/Services/Loconet/LoconetSend.cs:156-255 | From any state, with rows left alone, the loop comes to rest within (weight + 1) passes: every Active slot has the requested speed and direction, no stop pending and an empty queue, and it stays so. |
| Convergence.PassLowersWeight | src/ThrottleX.Core/Services/Loconet/LoconetSend.cs:158-215 | Every pass that finds work lowers the sum of all rows' weights. |
| Convergence.VisitPaysOff | src/ThrottleX.Core/Services/Loconet/LoconetSend.cs:181-212 | A visit reports work exactly when the row's weight was not zero, and then lowers it. |
| Convergence.IdleMeansServed | src/ThrottleX.Core/Services/Loconet/LoconetSend.cs:222-255 | A row without weight is exactly a row that is served. |
| Convergence.OnePassAligns | src/ThrottleX.Core/Services/Loconet/LoconetSend.cs:164-215 | After one full pass active rows are Active, Failed or Occupied, and inactive known ones None or Inactive. |
| Convergence.SecondPassChangesNoState | src/ThrottleX.Core/Services/Loconet/LoconetSend.cs:181-212 | A further pass changes no state of any address. |
| SlotBridge.TakeKeepsWellFormed | src/ThrottleX.Core/Services/Loconet/LoconetSend.cs:156-329 | Every step keeps: unique row addresses, Active slots with number, status, speed, DIRF and SND present and at most 127, and only representable frames in the log, which only grows. |
| SlotBridge.VisitIsValid | src/ThrottleX.Core/Services/Loconet/LoconetSend.cs:181-212 | A visit, even one cut short by an exception, leaves the slot memory ready for the send path. |
| SlotBridge.OperateIsValid | src/ThrottleX.Core/Services/Loconet/LoconetSend.cs:222-255 | Operating picks up every stop request, sends at most one frame and keeps all bytes within 127. |
| SlotBridge.AttemptIsValid | src/ThrottleX.Core/Services/Loconet/LoconetSend.cs:310-369 | An attempt ends Active only with a complete slot memory and with data to report. |
| SendThread.LoconetSend.NormalOperation | src/ThrottleX.Core/Services/Loconet/LoconetSend.cs:156-220 | The loops over the growing table and the dictionary of slot objects amount to the transition system's send loop, for any moment at which cancellation is asked for. |
| SendThread.LoconetSend.ScanPass | src/ThrottleX.Core/Services/Loconet/LoconetSend.cs:160-219 | One pass over the rows, with its polls for cancellation and its early end by an exception. |
| SendThread.LoconetSend.Visit | src/ThrottleX.Core/Services/Loconet/LoconetSend.cs:169-214 | One iteration sets up a slot object on first need, and changes the slot of its own row and nothing else. |
| SendThread.LoconetSend.Drive | src/ThrottleX.Core/Services/Loconet/LoconetSend.cs:181-211 | The switch over activity and slot state is the transition system's visit. |
| SendThread.LoconetSend.Operate | src/ThrottleX.Core/Services/Loconet/LoconetSend.cs:222-255 | Row, slot object and log after operating are those of the transition system. |
| SendThread.LoconetSend.Activating | src/ThrottleX.Core/Services/Loconet/LoconetSend.cs:310-369 | Frames, slot memory and outcome of the handshake, for all answers. |
| SendThread.LoconetSend.Activate | src/ThrottleX.Core/Services/Loconet/LoconetSend.cs:280-298 | The outcome becomes the slot's state unless reporting it raises an exception. |
| SendThread.LoconetSend.Deactivate | src/ThrottleX.Core/Services/Loconet/LoconetSend.cs:258-267 | One status frame with the slot number and the status last known. |
| SendThread.SlotControl.IsEmergencyStopRequested | src/ThrottleX.Core/Services/Loconet/SlotControl.cs:63-70 | Reports a moved counter, once. |
| SendThread.SlotControl.SendSpeed | src/ThrottleX.Core/Services/Loconet/SlotControl.cs:72-76 | The remembered speed is the speed in the frame. |
| SendThread.SlotControl.SendDirf | src/ThrottleX.Core/Services/Loconet/SlotControl.cs:78-87 | The remembered DIRF is the one in the frame, and differs from before in the masked bit only. |
| SendThread.SlotControl.SendSnd | src/ThrottleX.Core/Services/Loconet/SlotControl.cs:90-99 | The same for SND. |
| SendThread.SlotControl.SendFunction | src/ThrottleX.Core/Services/Loconet/SlotControl.cs:110-124 | F0 to F8 reach the bit of theirs, other functions no frame. |
| SendThread.SlotControl.InitializeFromSlot | src/ThrottleX.Core/Services/Loconet/SlotControl.cs:101-108 | All five remembered bytes come from the slot, the state and the stop counter do not. |
| Bits.FunctionWriteIsLocal | src/ThrottleX.Core/Services/Loconet/SlotControl.cs:78-124 | Writing one function changes its bit and no other function, nor the direction. |
| Bits.DirectionWriteIsLocal | src/ThrottleX.Core/Services/Loconet/SlotControl.cs:78-87 | Writing the direction bit changes no function. |
| Bits.DirectionIsBit | src/Loconet/Msg/Accessor/EDirf.cs:3-11 | The direction is bit 0x20 of DIRF, set for Reverse, and writing it changes this bit only. |
| Bits.SpeedScalesAgree | src/Shared/Models/Speed.cs:26-60 | The wiThrottle scale and the LocoNet scale are in bijection, both ways. |
| Bits.SpeedCodes | src/Shared/Models/Speed.cs:26-60 | Stop is 0 and emergency stop 1 on the wire, -1 for the throttle, and the steps are one apart. |
| Frames.AddressBytesIdentify | src/Shared/Models/LongAddress.cs:13-32 | The two address bytes fit data bytes and identify a valid address, short or long. |
| Frames.AddressBytes | src/Shared/Models/LongAddress.cs:32 | They are the number modulo 128 and divided by 128; a short address has no upper part. |
| Frames.AddressRange | src/Shared/Models/LongAddress.cs:11-20 | Short addresses are 1 to 127, long ones 128 to 10239. |
| Frames.ReplyFunctions | src/Shared/LocoTable/OccupySlotReply.cs:17-34 | The reply lists F0 to F8, each with the state of its own slot bit. |
| Frames.ReplyMoves | src/Shared/LocoTable/OccupySlotReply.cs:17-21 | Its direction is Reverse exactly when bit 0x20 of the slot's DIRF is set, and its speed is the slot's speed byte on the throttle's scale. |
| Functions.QueueIsFifo | src/ThrottleX.Core/Services/LocoTable/FunctionProcessing.cs:29-113 | In every run, entries taken followed by entries queued are all changes asked for, in order. |
| Functions.LastWriteWins | src/ThrottleX.Core/Services/LocoTable/FunctionProcessing.cs:29-84 | A function's On is its last change or report from the command station. |
| Functions.ButtonsDecide | src/ThrottleX.Core/Services/LocoTable/FunctionProcessing.cs:29-46 | Over button events a latching function is flipped by the parity of its presses, and a momentary one follows its button. |
| Functions.ConfigureSetsKind | src/ThrottleX.Core/Services/LocoTable/FunctionProcessing.cs:48-51 | After configuring, a function is momentary exactly when asked to be; its state, its button, the queue and all other functions stay. |
| Functions.ConfiguredButtons | src/ThrottleX.Core/Services/LocoTable/FunctionProcessing.cs:29-51 | A function configured as momentary follows its button from then on, any other is flipped by each press. |
| Functions.UnknownFunctionToggles | src/ThrottleX.Core/Services/LocoTable/FunctionProcessing.cs:29-46 | A function that nobody mentioned is off and flipped by each press. |
| Functions.FunctionProcessing.SetFunctionKey | src/ThrottleX.Core/Services/LocoTable/FunctionProcessing.cs:29-46 | Dictionary, function object and queue after a button event. |
| Functions.FunctionProcessing.SetMomentaryFunction | src/ThrottleX.Core/Services/LocoTable/FunctionProcessing.cs:48-51 | The configuration changes, the state and the queue do not. |
| Functions.FunctionProcessing.InitializeFromCommandStation | src/ThrottleX.Core/Services/LocoTable/FunctionProcessing.cs:53-65 | States are taken over without queueing anything. |
| Functions.FunctionProcessing.ForceFunction | src/ThrottleX.Core/Services/LocoTable/FunctionProcessing.cs:72-84 | The forced state is set and queued. |
| Functions.FunctionProcessing.PerformFunctionProcessing | src/ThrottleX.Core/Services/LocoTable/FunctionProcessing.cs:94-108 | An unknown function is added in its initial state; nothing else changes. |
| Functions.FunctionProcessing.TryDequeue | src/ThrottleX.Core/Services/LocoTable/FunctionProcessing.cs:110-113 | Takes the oldest entry, if any. |
| Rows.Speed.SetWiThrottle | src/Shared/Models/Speed.cs:26-35 | Refuses exactly what is outside -1 to 126, and then keeps the old speed. |
| Rows.Speed.SetLocoNet | src/Shared/Models/Speed.cs:49-59 | Refuses exactly what is above 127; otherwise the speed's slot byte is the byte set. |
| Rows.MakeReply | src/Shared/LocoTable/OccupySlotReply.cs:17-34 | A fresh speed object, the direction and the nine functions, read from the right bits of the slot. |
| Rows.LocoRow.InitializeFromSlot | src/ThrottleX.Core/Services/LocoTable/LocoRowImpl.cs:70-77 | The row adopts speed, direction and functions, and shares the reply's speed object from then on. |
| Rows.LocoRow.SetEmergencyStop | src/ThrottleX.Core/Services/LocoTable/LocoRowImpl.cs:88-92 | One more stop, with the 32-bit counter's wrap-around, and speed zero. |
| Rows.LocoRow.Deactivate | src/ThrottleX.Core/Services/LocoTable/LocoRowImpl.cs:79-85 | Not wanted any more, and one more stop. |
| Rows.LocoRow.SetSpeed | src/ThrottleX.Core/Services/LocoTable/LocoRowImpl.cs:94-97 | The requested speed, or nothing for one outside the scale. |
| Rows.CountersAgree | src/ThrottleX.Core/Services/Loconet/SlotControl.cs:63-70 | Two 32-bit counts look alike exactly when they differ by a multiple of 2^32. |
| Rows.LocoTable.GetRowForAddress | src/ThrottleX.Core/Services/LocoTable/LocoTableImpl.cs:39-51 | The row of the address; a new one only for a new address, at the end, so indexes stay. |
| Rows.LocoTable.RowsAreUnique | src/ThrottleX.Core/Services/LocoTable/LocoTableImpl.cs:13-53 | Map and list hold the same rows, and no two rows have the same address. |
| Throttle.ControlMeansActive | src/WiThrottle/WifredClient.cs:298-387 | Over any run in which no new connection forgets the loco and nobody else uses its row, the loco is in the session's set exactly when its row is active. |
| Throttle.StepAgrees | src/WiThrottle/WifredClient.cs:106-115 | Of all steps exactly the new connection that forgets a controlled loco breaks this. |
| Throttle.RemovingOne | src/WiThrottle/WifredClient.cs:298-316 | Giving back one loco takes it out of the session and releases its row if the session has it; every other loco and row stays as it is. |
| Throttle.RemovingAll | src/WiThrottle/WifredClient.cs:298-316 | The wildcard does so for each loco of the session, and leaves the rows of others alone. |
| Throttle.CommandReaches | src/WiThrottle/WifredClient.cs:250-296 | A command reaches the loco it names if the session has it, with the wildcard every loco of the session, and no other row. |
| Throttle.AddingOne | src/WiThrottle/WifredClient.cs:318-339 | Taking a loco is refused with the wildcard and for a loco of the session; otherwise its row, a new one if need be, becomes active, and no other row changes. |
| Throttle.WildcardReleasesAll | src/WiThrottle/WifredClient.cs:298-316 | The wildcard empties the set and releases each loco of the session once, and no other. |
| Throttle.WifredSession.MtAdd | src/WiThrottle/WifredClient.cs:318-339 | Refuses the wildcard and a loco it has; otherwise loco and row are in control and active together. |
| Throttle.WifredSession.MtRemove | src/WiThrottle/WifredClient.cs:298-316 | The loop over the dictionary that shrinks meanwhile releases exactly the selected locos. |
| Throttle.WifredSession.GiveBack | src/WiThrottle/WifredClient.cs:366-370 | One loco leaves the set and its row is released. |
| Verdict.AnswerGivenOnce | src/ThrottleX.Core/Services/LocoTable/AllLoconetsReply.cs:53-101 | The report that completes the set fixes the answer from each connection's latest report: Failure before Occupied before Success with the last connection's data. No later report changes the answer; each raises an exception. |
| Verdict.OneReportEach | src/ThrottleX.Core/Services/LocoTable/AllLoconetsReply.cs:53-101 | With one report of each connection, in any order: no answer before the last report, exactly one with it, and no exception. |
| Verdict.AnswerIgnoresOrder | src/ThrottleX.Core/Services/LocoTable/AllLoconetsReply.cs:53-101 | The same reports in any two orders give the waiting throttle the same answer, without an exception. |
| Verdict.LastReportCompletes | src/ThrottleX.Core/Services/LocoTable/AllLoconetsReply.cs:57-71 | With one report of each connection, the last one completes the set. |
| Verdict.NoAnswerBefore | src/ThrottleX.Core/Services/LocoTable/AllLoconetsReply.cs:62-71 | While one connection, asked or not, has not reported, there is no answer. |
| Verdict.OrderDoesNotMatter | src/ThrottleX.Core/Services/LocoTable/AllLoconetsReply.cs:53-101 | Two orders of the same reports call for the same answer. |
| Verdict.DecideCalls | src/ThrottleX.Core/Services/LocoTable/AllLoconetsReply.cs:57-81 | Deciding from the recorded arrays is deciding from the reports. |
| Verdict.AllLoconetsReply.Check | src/ThrottleX.Core/Services/LocoTable/AllLoconetsReply.cs:53-82 | The loop over the results, its early end, and the exception of a second completion. |
| Verdict.AllLoconetsReply.SlotSuccess | src/ThrottleX.Core/Services/LocoTable/AllLoconetsReply.cs:84-89 | Records the result and the slot's data of this connection only, then checks. |
| Verdict.AllLoconetsReply.SlotFailed | src/ThrottleX.Core/Services/LocoTable/AllLoconetsReply.cs:91-95 | Records a failure of this connection only, then checks. |
| Verdict.AllLoconetsReply.SlotOccupied | src/ThrottleX.Core/Services/LocoTable/AllLoconetsReply.cs:97-101 | Records an occupied slot of this connection only, then checks. |
| Verdict.SlotsWereReported | src/ThrottleX.Core/Services/LocoTable/AllLoconetsReply.cs:57-89 | The slot data of an answer came with a report of success. |
| Stations.AnswerTellsSlots | src/ThrottleX.Core/Services/LocoTable/LocoRowImpl.cs:41-61 | Any number of connections with one throttle waiting for a row that stays wanted: there is an answer exactly when every connection's slot was free to be attempted when the wait began and has been attempted since. It is Success exactly when all slots are Active at this very moment, with what the last connection learned, otherwise Failure with a failed slot and Occupied without; and no report raises an exception. |
| Stations.SuccessMeansHeld | src/ThrottleX.Core/Services/LocoTable/AllLoconetsReply.cs:53-89 | In every run, releases and repeated reports included: Success means that every connection's slot was Active right after its latest report before the answer, and the slot data handed out is what the last connection learned. |
| Stations.AnswerComes | src/ThrottleX.Core/Services/LocoTable/LocoRowImpl.cs:41-61 | Once every connection has visited the row since the wait began, it is answered exactly when no slot was settled already when it began. |
| Stations.TooLateForAnswer | src/WiThrottle/WifredClient.cs:327-341 | A throttle that begins to wait when some connection's slot for the row is Active, Failed or Occupied already gets no answer, whatever follows, until the row is released or the wait ends. |
| Stations.PromptOrTooLate | src/WiThrottle/WifredClient.cs:335-341 | Both happen: waiting begins before the visit of the send thread, or after it. |
| Stations.ConnectionIsARun | src/ThrottleX.Core/Services/Loconet/LoconetSend.cs:156-220 | Each connection, whatever the others and the waiting throttle do, takes a run of the system with one connection, so all that holds in those runs holds for each of several. |
| Stations.EveryStationInTurn | src/ThrottleX.Core/Services/Loconet/LoconetSend.cs:181-329 | In particular no station ever gets a frame out of turn. |
| Stations.StepKeepsUndisturbed | src/ThrottleX.Core/Services/LocoTable/LocoRowImpl.cs:136-173 | Every step of anybody but a release keeps: each connection reports at most once in a wait, its slot was free before and shows what it reported; slots that are settled stay so, and a visit settles the slot. |
| Stations.TakeIsSound | src/ThrottleX.Core/Services/LocoTable/LocoRowImpl.cs:142-173 | Every step keeps all connections well formed, the collector in the state its reports call for, and every report honest: what it says was learned, and the slot is Active after a success unless reporting raised an exception. |
| Fields.GroupRoundTrip | src/Loconet/Msg/Accessor/BitGroupAccessUInt.cs:25-50 | A number written to n mappings on separate bits, of fields shared or not, reads back as its n low bits, for all 32-bit numbers. |
| Fields.GroupLeavesOtherBits | src/Loconet/Msg/Accessor/BitGroupAccessUInt.cs:40-49 | No bit of any field that no mapping covers changes, even when a write fails half way. |
| Fields.ByteRoundTrip | src/Loconet/Msg/Accessor/ByteAccess7And1Bit.cs:26-41 | Every byte survives exactly when its top bit has a place outside its own field. |
| Fields.RegistersAreIndependent | src/Loconet/Msg/ImmPacket.cs:36-72 | Each of the five bytes, the byte number and the repeat count reads back what was written to it, and no write changes another. |
| Fields.AnyOrderOfPuts | src/Loconet/Msg/ImmPacket.cs:36-72 | After any sequence of writes each number reads back its own last value. |
| Fields.RegistersAreBits | src/Loconet/Msg/ImmPacket.cs:16-72 | Which bits the numbers are: byte count in 0x10, 0x20, 0x40 and repeat count in 0x01, 0x02, 0x04 of one field, least bit first; each byte's top bit in 0x01 to 0x10 of another. |
| Fields.Field7Bit.Set | src/Loconet/Msg/Accessor/Field7Bit.cs:28-40 | Accepts exactly what fits, or exactly the constant, and keeps the old value otherwise. |
| Fields.Field7Bit.SetBit | src/Loconet/Msg/Accessor/BitField7BitBase.cs:21-34 | Sets or clears the masked bits; setting the top bit is refused. |
| Fields.BitGroupAccess.GetValue | src/Loconet/Msg/Accessor/BitGroupAccessUInt.cs:27-38 | The loop with its moving mask reads the number that the specification reads, wrap-around of the mask included. |
| Fields.BitGroupAccess.SetValue | src/Loconet/Msg/Accessor/BitGroupAccessUInt.cs:40-49 | The loop over possibly shared field objects leaves the fields as the specification says, up to the bit that fails. |
| Fields.ByteAccess7And1Bit.GetValue | src/Loconet/Msg/Accessor/ByteAccess7And1Bit.cs:28-34 | Seven bits and one, also when both fields are the same object. |
| Fields.ByteAccess7And1Bit.SetValue | src/Loconet/Msg/Accessor/ByteAccess7And1Bit.cs:36-40 | Both fields after the write, also when they are the same object. |
| Fields.ImmPacket.constructor | src/Loconet/Msg/ImmPacket.cs:53-72 | The accessors lie over this packet's own seven distinct fields, at their indexes. |
| Fields.ImmPacket.Write | src/Loconet/Msg/ImmPacket.cs:45-70 | Writing through an accessor is writing its register. |
| Codec.ParseAfterEncode | src/Loconet/Msg/MessageLookup.cs:16-38 | Every known message with every legal field values is parsed back as the same type with the same values. |
| Codec.EncodeAfterParse | src/Loconet/Msg/MessageLookup.cs:21-38 | Whatever is parsed prints again, and gives the bytes received exactly when length, length byte and check byte were right. |
| Codec.ParsedExactlyWhenCarried | src/Loconet/Msg/MessageLookup.cs:21-38 | Bytes are taken for a known message with certain values exactly when opcode, length modulo 256 and the bytes at the fields' indexes say so; nothing else is looked at. |
| Codec.WrongCheckByteIsAccepted | src/Loconet/Msg/MessageLookup.cs:21-38 | So a known message with any check byte is taken for that message, well framed or not. |
| Codec.WrongLengthByteIsAccepted | src/Loconet/Msg/MessageLookup.cs:21-38 | The same for any length byte of the messages that have one. |
| Codec.LongMessageIsAccepted | src/Loconet/Msg/MessageLookup.cs:21-31 | The same for a known message followed by any multiple of 256 bytes. |
| Wire.FourByteMessages | src/Loconet/Msg/MessageEnumerator.cs:12-27 | Opcode 0xBF, 0xA1, 0xA2, 0xA0, 0xB4, 0xB5 or 0xBA, any two data bytes and the check byte are parsed as these two values in this order, and printed as these bytes. |
| Wire.RequestMessage | src/Loconet/Msg/RqSlData.cs:8-21 | The same for 0xBB, a zero and the slot. |
| Wire.SlotMessages | src/Loconet/Msg/SlotDataBase.cs:15-63 | The same for 0xE7 and 0xEF with length byte 14 and the eleven bytes of any slot data, in their order. |
| Wire.ImmediateMessage | src/Loconet/Msg/ImmPacket.cs:10-60 | The same for 0xED with length byte 11, the constant 0x7F and any seven bytes. |
| Wire.FunctionMessages | src/Loconet/Msg/DigitraxD5.cs:11-76 | The same for 0xD5 with its constant 0x36, and for 0xD4. |
| Wire.OthersAreUnknown | src/Loconet/Msg/MessageEnumerator.cs:12-27 | Anything else is unknown: only these thirteen opcodes with their lengths modulo 256 are. |
| Wire.EveryFrameIsAMessage | src/Loconet/LoconetClient.cs:117-122 | Every frame that a send thread sends in any run is one of them, printed as its bytes and parsed back to its values. |
| Wire.LookupOnWire | src/ThrottleX.Core/Services/Loconet/LoconetSend.cs:331-334 | The lookup of a loco is 0xBF, the number divided by 128, and the number modulo 128. |
| Codec.EncodedIsOnTheWire | src/Loconet/Msg/FormatBase.cs:36-56 | The bytes of a message XOR to 0xFF, and only the opcode has the top bit set. |
| Codec.EncodedBytes | src/Loconet/Msg/FormatBase.cs:36-48 | Every field's byte is at its index, in whatever order the fields are enumerated; no other byte is touched. |
| Codec.EncodeAfterDecode | src/Loconet/Msg/FormatBase.cs:28-56 | For every layout that covers all data bytes, printing what was decoded gives the frame back exactly when the frame was well formed. |
| Codec.FormatsAreWellLaid | src/Loconet/Msg/MessageEnumerator.cs:12-27 | The fields of all thirteen formats sit at distinct indexes and leave no data byte out. |
| Codec.OpcodesDiffer | src/Loconet/Msg/MessageEnumerator.cs:12-27 | No two of the thirteen formats share an opcode, so the table takes them all. |
| Codec.Format.Decode | src/Loconet/Msg/FormatBase.cs:28-34 | Succeeds exactly when every field accepts its byte, and then the fields hold them. |
| Codec.Format.Encode | src/Loconet/Msg/FormatBase.cs:36-56 | The array filled field by field, with its check byte, is the encoding of the fields' values. |
| Codec.CheckOf | src/Loconet/Msg/FormatBase.cs:50-53 | The loop computes the complement of the bytes' XOR. |
| Codec.MessageLookup.constructor | src/Loconet/Msg/MessageEnumerator.cs:7-27 | The table finds every known format by opcode and length, and nothing else; adding them never meets a duplicate. |
| Codec.MessageLookup.Parse | src/Loconet/Msg/MessageLookup.cs:21-38 | A fresh message object with the parsed values, null for an unknown message, failure for one whose bytes a field refuses. |
| HexText.HexRoundTrip | src/Loconet/StringHelper.cs:11-28 | Bytes printed as hex text read back as the same bytes, up to the buffer's size. |
| HexText.DigitValues | src/Loconet/StringHelper.cs:11-20 | The value of each digit, small or capital; any other character is refused. |
| HexText.HexOfBytes | src/Loconet/StringHelper.cs:22-28 | Each byte is printed as the digits of its sixteenths and of the rest, in capitals, with a space between bytes. |
| HexText.DigitsAreRead | src/Loconet/LoconetClient.cs:325-345 | A text without spaces is read exactly when it is all digits and no more than 2000 of them, as the bytes of two digits each; a last single digit counts for nothing. |
| HexText.SpacesMeanNothing | src/Loconet/LoconetClient.cs:325-342 | Spaces in a hex text may stand anywhere. |
| HexText.CaseMeansNothing | src/Loconet/StringHelper.cs:11-20 | Small and capital hex letters mean the same. |
| Lines.LinesComeThrough | src/Loconet/LoconetClient.cs:255-282 | Whatever the line ends and blank lines, the lines written are the lines received, in order. |
| Lines.LineFitsOrOverflows | src/Loconet/LoconetClient.cs:255-282 | A line comes through exactly when it has at most 1000 bytes. |
| Lines.CrLfLines | src/Loconet/LoconetClient.cs:269-273 | Lines ended by CR LF, by LF or by CR are two lines. |
| Lines.LettersOf | src/Loconet/LoconetClient.cs:273 | Bytes below 128 are their ASCII characters, any other is a question mark. |
| Lines.LineReader.ReceiveLineIntoBuffer | src/Loconet/LoconetClient.cs:255-282 | The loop over the stream and the buffer array returns the next line, the end or the overflow, and leaves the rest of the stream. |
| LineClient.StreamComesThrough | src/Loconet/LoconetClient.cs:255-372 | From bytes to listeners: every known message in the stream arrives with its type, values and order, and nothing else arrives. |
| LineClient.MessagesComeThrough | src/Loconet/LoconetClient.cs:284-372 | The same for lines, whatever other lines lie between and whatever state the client is in. |
| LineClient.LinesAreRead | src/Loconet/LoconetClient.cs:284-312 | Exactly the lines that begin with RECEIVE and a space, or SENT and a space, are such lines, with the rest as parameter. |
| LineClient.BytesAreRead | src/Loconet/LoconetClient.cs:344-352 | Any bytes on a RECEIVE line are a known message, or themselves when unknown and two or more; only opcode 0x81 is a busy signal. |
| ReplyMatching.ExchangeReturnsFirstAnswer | src/Loconet/LoconetClient.cs:124-194 | A request that is accepted, and whose SENT line is the only one after its preparation began, returns the first message behind that line that is not busy; without one, the last message that answered a SENT line between reset and request; without that too it times out. A message of another kind than expected is an unexpected reply. |
| ReplyMatching.SendingEnds | src/Loconet/LoconetClient.cs:131-164 | How sending ends, for any lines at any time: SocketError exactly without a connection, SentTimeout exactly without a SENT line while waiting, SentError exactly when the last SENT line does not begin with OK, and Success exactly when it does. |
| ReplyMatching.RefusedHasNoReply | src/Loconet/LoconetClient.cs:167-178 | A request that is not accepted returns that result and no reply. |
| ReplyMatching.QuietGap | src/Loconet/LoconetClient.cs:124-136 | That cannot happen when no reply was awaited and no SENT line came in between. |
| ReplyMatching.StaleReplyIsReturned | src/Loconet/LoconetClient.cs:167-194 | Otherwise it can, with any known message. |
| ReplyMatching.ClassificationsArePaidFor | src/Loconet/LoconetClient.cs:351-379 | Over all runs, messages taken for replies never outnumber SENT lines, nor recognised echoes the requests. |
| ReplyMatching.EchoIsRecognised | src/Loconet/LoconetClient.cs:351-370 | Before its SENT line, a request's echo is recognised as ours, once, and nothing is taken for a reply. |
| ReplyMatching.ReplyIsFirstAnswer | src/Loconet/LoconetClient.cs:351-379 | With at most one SENT line to come, the reply is the first answer behind it, and otherwise what it was before. |
| ReplyMatching.ReplyIsLastAnswer | src/Loconet/LoconetClient.cs:351-379 | Over any lines, the reply kept is the last message that is not busy and the first such behind a SENT line, or what it was before. |
| ReplyMatching.SignalledExactlyWhenAnswered | src/Loconet/LoconetClient.cs:351-379 | A reply is signalled exactly when a message that is not busy follows a SENT line. |
| Client.LoconetClient.BytesOf | src/Loconet/LoconetClient.cs:325-345 | The loop over the hex text, which uses the line buffer a second time, yields the bytes of the text or fails where the text is no hex or too long. |
| Client.LoconetClient.OnReceive | src/Loconet/LoconetClient.cs:325-372 | Flags, reply and what the listeners are told, for every text. |
| Client.LoconetClient.OnSent | src/Loconet/LoconetClient.cs:374-379 | Error flag, event and the expectation of a reply. |
| Client.LoconetClient.ProcessLine | src/Loconet/LoconetClient.cs:284-312 | Token and parameter of a line, and what follows from them. |
| Client.LoconetClient.ReceiveUntilEnd | src/Loconet/LoconetClient.cs:213-218 | The receiving loop processes every line of the stream, in order. |
| Client.LoconetClient.BlockingSend | src/Loconet/LoconetClient.cs:124-165 | State and result, for all lines received between its two resets and while it waits. |
| Client.LoconetClient.SendAndWaitReply | src/Loconet/LoconetClient.cs:167-194 | State, result and reply, for all lines received in its four phases. |
| CpuHistory.PruningChangesNothing | src/ThrottleX.Core/Services/SystemHealth/LinuxSystemMetricsReader.cs:120-189 | For every series of readings, rewinds of clock and counter included, pruning changes no result. |
| CpuHistory.SamplesStayTidy | src/ThrottleX.Core/Services/SystemHealth/LinuxSystemMetricsReader.cs:128-155 | Times and CPU times stay in order, and all samples but the first lie within 16 minutes of the last. |
| CpuHistory.ListStaysShort | src/ThrottleX.Core/Services/SystemHealth/LinuxSystemMetricsReader.cs:149-155 | Readings at least d apart keep at most 16 min / d + 2 samples. |
| CpuHistory.BaseIsRightBeforeWindow | src/ThrottleX.Core/Services/SystemHealth/LinuxSystemMetricsReader.cs:170-179 | The base of an average is the last sample at or before the window's beginning, or the first of all. |
| CpuHistory.ShareIsPercentage | src/ThrottleX.Core/Services/SystemHealth/LinuxSystemMetricsReader.cs:181-188 | The percentage times the time that all processors had is 100 times the CPU time used; it is 0 for a negative CPU time and 100 for more than they had. |
| CpuHistory.ReportIsUse | src/ThrottleX.Core/Services/SystemHealth/LinuxSystemMetricsReader.cs:120-162 | What a reading reports: the use since the last sample, and since the samples right before the last 1, 5 and 15 minutes, of at least one processor; and when it reports nothing. |
| CpuHistory.RecordKeeps | src/ThrottleX.Core/Services/SystemHealth/LinuxSystemMetricsReader.cs:128-155 | What becomes of the sample list: when it starts again, stays, grows, and how many samples are dropped. |
| CpuHistory.ProcessCpuReader.CalculateAverageCpuUsage | src/ThrottleX.Core/Services/SystemHealth/LinuxSystemMetricsReader.cs:165-189 | The backward search and the clamped percentage. |
| CpuHistory.ProcessCpuReader.ReadProcessCpuUsage | src/ThrottleX.Core/Services/SystemHealth/LinuxSystemMetricsReader.cs:120-163 | Result and sample list after a reading, reset and pruning loop included. |
| Mirror.TableIsAFold | src/ThrottleX.Core/Services/Loconet/CommandStationMirror.cs:45-97 | After any run each entry depends only on the messages about its own slot, our own ones ignored. |
| Mirror.EntryNeedsSlotData | src/ThrottleX.Core/Services/Loconet/CommandStationMirror.cs:62-80 | There is an entry exactly when slot data was heard. |
| Mirror.EachPartIsTheLatest | src/ThrottleX.Core/Services/Loconet/CommandStationMirror.cs:76-97 | DIRF, SND, speed and status are what the last message that sets them says. |
| Mirror.RestIsTheLatestData | src/ThrottleX.Core/Services/Loconet/SlotData.cs:45-57 | Address, second status and ids are those of the latest slot data. |
| Mirror.DroppedMessages | src/ThrottleX.Core/Services/Loconet/CommandStationMirror.cs:45-60 | Exactly our own messages, those about no slot and those about slot 127 are dropped. |
| Mirror.AddressesStayPut | src/ThrottleX.Core/Services/Loconet/CommandStationMirror.cs:62-74 | While slot data agrees with the table, addresses stay distinct and slots keep theirs. |
| Mirror.CommandStationMirror.OnMessage | src/ThrottleX.Core/Services/Loconet/CommandStationMirror.cs:45-97 | The table of slot objects follows the specification, and a correct address search stays correct exactly when the message keeps addresses. |
| Mirror.CommandStationMirror.Add | src/ThrottleX.Core/Services/Loconet/CommandStationMirror.cs:20-26 | A newly tracked slot keeps the search correct exactly when its address was free. |
| Mirror.CommandStationMirror.Remove | src/ThrottleX.Core/Services/Loconet/CommandStationMirror.cs:28-37 | The slot is forgotten in both tables; the search stays correct. |
| Mirror.CommandStationMirror.FindIsInverse | src/ThrottleX.Core/Services/Loconet/CommandStationMirror.cs:99 | While correct, the search by address is the inverse of the slot table. |
| Mirror.SlotData.Set | src/ThrottleX.Core/Services/Loconet/SlotData.cs:45-57 | All fields are overwritten. |

## Left out

- SendThread.LoconetSend.NormalOperation: a visit of a row is one step; throttle writes between two reads of the same row inside one visit are not modelled. Within one call the rows stay as they are; the transition system adds and changes rows between any two visits.
- SendThread.LoconetSend.ScanPass: the same; rows added during a pass are covered by the transition system only.
- Functions.FunctionProcessing.InitializeFromCommandStation: all functions are initialised in one step; the source locks once per function.
- Client.LoconetClient.SendAndWaitReply: lines are received between its statements, at the points where that can matter; two callers at once, and a wake-up between the two statements of OnSent, are not modelled.
- Throttle.WifredSession.MtAdd: ends where the session starts to wait for the command stations; adopting and giving up are steps of their own.
- CpuHistory.ProcessCpuReader.CalculateAverageCpuUsage: percentages are reals, rounding of doubles is not modelled.
- Convergence.NormalOperationConverges: needs reports that raise no exception from the state on. One that does ends the loop; the thread waits a second, asks for slot 0 and enters the loop again with all it remembers, which the runs of the transition system cover.
- CommandStation.LastSentIsWhatTheStationHolds: the station tells the truth about its slots, acknowledges commands, and nobody else writes them.
- Sessions.SessionKeepsFunctions: ends where another connection takes a change from the queue that all connections share; each queued change reaches only one of them. Runs, safety, emergency stops and last-sent bytes cover such steps.
- Verdict.AllLoconetsReply.Check: writing a result and checking is one step; connections that interleave the two are not modelled.
- Stations.AnswerTellsSlots: the connections share rows and collector on values, and a visit together with its report is one step; the five-second timeout is a step that may come at any time. One row is followed; reports about other rows may raise an exception or not.
- The mask of enabled connections in the row: it is all ones in the source, so only the activity flag decides.
- The slot setting the program reads at start, the guess of the command station, and VERSION, TIMESTAMP, BREAK and ERROR lines, which only log or display.
- A long acknowledge counts as success whatever its code, as in the source; the code itself is not modelled.
- Sockets, threads, timers, cancellation, reconnecting, logging, mDNS, HTTP, XML configuration and web pages.
- Reflection: a message's fields are a sequence, in any order.
- Accessors with an enumeration type, D4 and D5 convenience properties, and display texts.
- The loop of FunctionProcessing's log text, and other metrics readers.
- Parsing of wiThrottle text commands; the commands themselves are modelled.
