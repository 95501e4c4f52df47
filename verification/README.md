# Nux Emulator: a verified model of its stateful cores

This project models the parts of the Nux Android emulator in which many small steps must add up to one promise, and
proves the promises for all inputs, all runs and, where threads or failures are involved, all interleavings and all
points of failure. Floating-point numbers are modelled as reals, rounding halves away from zero and casts saturating.

* **Touch keymap engine** (`TouchTrace`, `SteerVector`, `UiKeymap`, `KeyNames`, `EngineModel`, `EngineSafety`,
  `EngineRuns`, `EngineFire`, `EngineStick`, `EngineAim`, `EngineGestures`, `KeymapEngine`). `EngineModel` is a state
  machine whose steps are what happens under one acquisition of the control socket's lock: the engine accepts an event,
  goes on with the one it is handling, or one of the threads it spawned sends its next command. `EngineSafety` holds the
  invariant, `EngineRuns`, `EngineFire`, `EngineStick` and `EngineAim` what follows for every run, and `EngineGestures`
  what each key and button sends. `KeymapEngine` is the engine as an object with the program's fields; each handler is
  proved to be a run of that state machine that takes in exactly its event, with the threads running whenever the
  handler waits for the lock.
* **ADB wire stack** (`Bytes`, `AdbProtocol`, `AdbTransport`, `AdbShell`, `AdbSyncCodec`, `AdbSyncGuest`, `AdbSync`,
  `WireBytes`). The far end of the wire is either any scripted byte-for-byte behaviour, write failures included, or a
  guest that is the dual of the host's sync code. Statements "against any guest" hold for every script.
* **Provider switch** (`FileSystem`, `Disk`, `Overlay`, `Switching`). The file system is a map from paths to entries.
  Every operation may fail, and leave partial work behind; the disk records each state it goes through, so a
  statement about the record is a statement about every moment at which the program could be interrupted.
* **Input injection** (`Products`, `Coordinate`, `Grab`, `Evdev`, `TouchReceiver`, `Translate`, `InputManager`). The
  manager's output is a byte stream; its meaning is what a slotted multi-touch receiver, as described in the Linux kernel
  document "Multi-touch (MT) Protocol", section "Protocol Example B", makes of the decoded stream.
* **Indexes and lifecycles** (`CoreKeymap`, `CoreKeymapEngine`, `FpsCounter`, `VmManager`), each against a simple
  reference: a linear scan, the full history of frames, the history of state changes.

## What was found

Where the code does less than one would expect, the model follows the code and says exactly when it falls short.

* A session's QUIT is not waited for. If the guest acknowledges it, that OKAY is still unread when the next session opens
  on the same connection, and a pull after a push then fails (`AdbSync.PushThenPull`: it succeeds if and only if the
  channel was drained or the guest does not acknowledge QUIT).
* After a push, an answer of four to seven bytes that begins with FAIL, and no other, makes the host slice out of bounds
  and leaves its stream in the table; an answer of fewer than four bytes counts as success (`AdbSync.PushFile`, shown by
  `AdbSync.BareFail` and `AdbSync.EmptyAnswer`).
* `shell_exec` leaves its stream in the table after every error other than the deadline's: if the guest's side has all
  arrived, the stream is gone exactly if that side reaches CLSE, or falls silent on an open connection
  (`AdbShell.ShellExec`).
* A click node with `switchMap` turns the keymap off without lifting anything (`EngineRuns.SwitchMapReleasesNothing`).
* The fire pointer follows the left button only while the map is active. Its last command is a down exactly if the last
  left-button event accepted then was a press (`EngineFire.FireDownIff`); turning the map off leaves nothing down exactly
  if it was not (`EngineFire.SwitchOffLiftsFireIff`, `EngineFire.FireStaysDown`); and with a release missed while the map
  is off, two presses in a row break the pointer's (down move* up)* (`EngineFire.FireDownIff`).
* A steer wheel recognises only the key spellings the reverse table produces, or the hexadecimal name of a key without
  one, which no keymap resolves; on the arrow keys it is deaf (`EngineRuns.WheelHearsIff`, `EngineRuns.WheelRespondsIff`,
  `EngineRuns.DeafWheel`).
* If a rollback fails, the original overlay survives only as the backup, and the next switch begins by discarding it.
  After two switches of which the first one's rollback failed it is held exactly if the first left it at the overlay
  too, or the second happens to put it there (`Switching.SwitchTwice`, `Overlay.BackupAgain`). If there was no overlay
  before a switch, a failed switch cannot be rolled back (`Switching.SwitchProvider`).
* Tracking ids wrap: a pinch is two live contacts exactly while (number of the pinch - 1) mod 2^31 is below 2^30, and
  not at all if the connection was made while it was in progress (`InputManager.LiveIffActive`).
* The core keymap's resolution is not checked, so one of zero width loads, and its positions are thrown to the ends of the
  32-bit range. Positions land on the display exactly if neither side is zero (`CoreKeymapEngine.LandsOnDisplayIff`,
  `CoreKeymapEngine.ZeroWidthLoads`).
* On a platform whose monotonic clock has a least instant, the frame counter loses frames: its count is wrong exactly if
  it was used within one window of that instant, and a frame older than that use is still in the window
  (`FpsCounter.TrueCountIff`, `FpsCounter.EarlyFrameLost`). On Linux instants are signed and this does not arise
  (`FpsCounter.LateInstantsSpoilNothing`).
* A VM manager starts at most once: nothing ever returns it to Idle (`VmManager.StartsOnce`). A start whose wait for the
  dead process fails is left in Starting, from where `resume` makes it count as running (`VmManager.Manager.Resume`).

## Model

| member | source | states |
|---|---|---|
| AdbProtocol.MagicIsXor | nux-core/src/adb/protocol.rs:90 | the magic word, written arithmetically in the model, is the command xor all ones |
| AdbProtocol.ToBytes | nux-core/src/adb/protocol.rs:86-101 | the buffer filled field by field is the frame: six words, then the payload |
| AdbProtocol.DecodesExactly | nux-core/src/adb/protocol.rs:109-149 | the decoder accepts a buffer as m exactly when the buffer begins with m's frame and m's length fits 32 bits |
| AdbProtocol.RoundTripIff | nux-core/src/adb/protocol.rs:86-149 | decoding an encoded message gives it back exactly when its payload is shorter than 2^32 bytes |
| AdbProtocol.PrefixFree | nux-core/src/adb/protocol.rs:86-149 | no frame is a proper prefix of another |
| AdbProtocol.UniquelyDecodable | nux-core/src/adb/protocol.rs:86-149 | message sequences with the same bytes are the same sequence |
| AdbProtocol.ChecksumExactIff | nux-core/src/adb/protocol.rs:14-83 | the 32-bit sum never overflows for payloads of length n exactly when n is at most 16,843,009, which covers the negotiated maximum |
| AdbProtocol.OneByteCorruptionRejected | nux-core/src/adb/protocol.rs:109-141 | changing any one payload byte of a frame makes the decoder report a checksum mismatch |
| AdbProtocol.WithoutValid | nux-core/src/adb/protocol.rs:264-266 | removal keeps exactly the other streams and their distinct ids |
| AdbProtocol.StreamManager.OpenStream | nux-core/src/adb/protocol.rs:222-231 | a new stream gets an id no live stream has, and goes to the end of the table, pending |
| AdbProtocol.StreamManager.HandleOkay | nux-core/src/adb/protocol.rs:238-249 | succeeds exactly for a registered id, sets that stream's remote id and opens it, and touches no other |
| AdbProtocol.StreamManager.HandleClose | nux-core/src/adb/protocol.rs:252-256 | closes the stream with that id and no other |
| AdbProtocol.StreamManager.RemoveStream | nux-core/src/adb/protocol.rs:264-266 | the table without that id; live ids stay distinct and below the counter |
| AdbTransport.ReadsExactly | nux-core/src/adb/transport.rs:146-163 | reading one frame gives m and leaves rest exactly when the stream is m's frame followed by rest |
| AdbTransport.ReadAllOfEncodeAll | nux-core/src/adb/transport.rs:146-163 | a stream of concatenated frames reads back as the sequence written, what follows untouched |
| AdbTransport.Transport.ReadMessage | nux-core/src/adb/transport.rs:146-163 | one frame off the front of the stream, or end of file or the deadline with the stream drained |
| AdbShell.Handle | nux-core/src/adb/shell.rs:38-63 | one turn of the loop: what each message does to the output, the remote id, the acknowledgements and the table |
| AdbShell.Converse | nux-core/src/adb/shell.rs:36-67 | ends in success only at a CLSE, with all output and one acknowledgement per WRTE; if the guest's side has all arrived, in success exactly when that side reaches CLSE and in a timeout exactly when it is chatter followed by silence |
| AdbShell.ShellExec | nux-core/src/adb/shell.rs:21-88 | success is a finished conversation, its whole output and one OKAY per WRTE; the stream table is restored exactly on success or timeout; an OKAY is never for an unknown stream; on a timeout a CLSE goes out exactly if the guest's id is known, naming both ids; if the guest's side has all arrived, it succeeds exactly when that side reaches CLSE, and the table is restored exactly then or when that side falls silent on an open connection |
| AdbShell.CaptureScreenshot | nux-core/src/adb/shell.rs:178-251 | the same conversation; it succeeds exactly when the output also begins as a PNG, and the table is restored under the same condition on what arrives |
| AdbShell.OutputIsFlatten | nux-core/src/adb/shell.rs:46-51 | the output of WRTE messages is their payloads concatenated |
| AdbShell.RemoteIdIsFirst | nux-core/src/adb/shell.rs:40-45 | the guest's id is the first one an OKAY names |
| AdbShell.AcksName | nux-core/src/adb/shell.rs:46-51 | there is one acknowledgement per WRTE, and to a guest that names its id first each carries the host's id and then the guest's |
| AdbSyncCodec.SyncDecodesExactly | nux-core/src/adb/sync.rs:43-78 | the sync decoder accepts exactly the buffers that begin with the message's encoding |
| AdbSyncCodec.SyncRoundTripIff | nux-core/src/adb/sync.rs:43-78 | the round trip holds exactly below 2^32 bytes |
| AdbSyncGuest.PathBeforeMode | nux-core/src/adb/sync.rs:214-216 | the SEND argument can be taken apart again, path and mode, even if the path has commas |
| AdbSync.OctalReadsBack | nux-core/src/adb/sync.rs:215 | the permissions written in octal read back as the number, without a leading zero |
| AdbSync.OpenSession | nux-core/src/adb/sync.rs:91-120 | OPEN of the sync service; the first message in the channel decides, whatever stream it belongs to |
| AdbSync.SendSyncData | nux-core/src/adb/sync.rs:123-139 | one WRTE, and success exactly if the next message is an OKAY, also for any guest whose side has all arrived |
| AdbSync.RecvSyncData | nux-core/src/adb/sync.rs:142-159 | one WRTE is returned and acknowledged; any other message is an error |
| AdbSync.CloseSession | nux-core/src/adb/sync.rs:162-179 | the stream leaves the table; the guest's answer to QUIT stays unread |
| AdbSync.SendPieces | nux-core/src/adb/sync.rs:222-239 | one DATA per piece read, in order, with cumulative progress; the receiving guest then holds their concatenation |
| AdbSync.FinishPush | nux-core/src/adb/sync.rs:241-272 | DONE with the time as data, then the guest's answer, which decides everything: the slice panics exactly for four to seven bytes that begin with FAIL, leaving the stream registered; success exactly for fewer than four bytes or OKAY; any other answer is a sync error; the guest itself stores the file or refuses it |
| AdbSync.PushFile | nux-core/src/adb/sync.rs:193-272 | however read splits the file, an answer is read exactly if SEND, DATA for each piece, DONE and the acknowledgement went out in that order, and it decides the result and whether the stream is gone as for FinishPush; if the guest's side has all arrived, the answer is the WRTE behind the OKAYs; the guest at rest ends up holding exactly the file, with exactly these permissions and this time, unless it refuses the path; progress counts every byte |
| AdbSync.PushEmpty | nux-core/src/adb/sync.rs:193-272 | pushing an empty file to a guest that acknowledges and gives any one answer: when it panics, when it succeeds, and how many streams are left |
| AdbSync.BareFail | nux-core/src/adb/sync.rs:252-256 | a FAIL of four bytes panics and leaves a stream |
| AdbSync.EmptyAnswer | nux-core/src/adb/sync.rs:252-272 | an empty answer is a success |
| AdbSync.NextChunk | nux-core/src/adb/sync.rs:307-308 | each chunk received moves the sending guest on by one message |
| AdbSync.DataDelivered | nux-core/src/adb/sync.rs:316-326 | a whole DATA message carries exactly its data, whatever follows it |
| AdbSync.DataCutShort | nux-core/src/adb/sync.rs:316-326 | one cut short carries what is there |
| AdbSync.PullPieces | nux-core/src/adb/sync.rs:303-343 | what is written is the concatenation of the DATA payloads up to DONE, and the byte counter its length |
| AdbSync.PullFile | nux-core/src/adb/sync.rs:284-349 | from a guest at rest the file written is exactly the guest's file, or the guest's reason is reported; one unread OKAY makes it fail |
| AdbSync.PushThenPull | nux-core/src/adb/sync.rs:193-349 | push then pull is the identity, and works exactly if nothing was left unread in between |
| WireBytes.LeastFirst | nux-core/src/adb/protocol.rs:86-101 | a word's first byte is its least significant |
| WireBytes.FrameLayout | nux-core/src/adb/protocol.rs:86-101 | command, arguments, length, sum and magic stand in this order before the payload |
| WireBytes.SumOfParts | nux-core/src/adb/protocol.rs:81-83 | the checksum adds up bytes |
| WireBytes.HostMessages | nux-core/src/adb/protocol.rs:59-78 | OPEN, OKAY, WRTE and CLSE spell their names on the wire, the host's id first, the guest's second |
| WireBytes.ServiceNames | nux-core/src/adb/sync.rs:15-22 | services and sync tags spell their names |
| WireBytes.SyncLayout | nux-core/src/adb/sync.rs:43-54 | tag, length and data stand in this order |
| WireBytes.UsualSendArgument | nux-core/src/adb/sync.rs:214-216 | permissions 0o644 go out as "path,644" |
| WireBytes.EventLayout | nux-core/src/input/evdev.rs:74-118 | an event is a zero time, its type, its code, and its value in two's complement |
| KeyNames.ComesBackIff | nux-ui/src/keymap/engine.rs:657-673 | a resolved key name comes back from the reverse table exactly when it is one of the spellings that table uses |
| KeyNames.NamesResolve | nux-ui/src/keymap/engine.rs:657-673 | the name the reverse table gives a keysym resolves to that keysym, except that the hexadecimal names it gives all others resolve to nothing |
| KeyNames.LettersAndDigits | nux-ui/src/keymap/mod.rs:231-260 | letters in either case resolve to the lower-case letter's code, digits to their own |
| KeyNames.PrefixOptional | nux-ui/src/keymap/mod.rs:231-236 | the prefix of a key name does not matter |
| UiKeymap.AddKey | nux-ui/src/keymap/mod.rs:341-345 | one key name appends the node to its keysym's entry and changes no other |
| UiKeymap.BuildKeyLookup | nux-ui/src/keymap/mod.rs:319-347 | for every keysym the table answers as a scan of the nodes would |
| UiKeymap.KeysOfNode | nux-ui/src/keymap/mod.rs:319-341 | a wheel is bound by its four key names, every other node by its own |
| SteerVector.StickDirection | nux-ui/src/keymap/engine.rs:572-597 | the stick's vector is the plain sum times a factor between 0 and 1; it is shrunk exactly if it is diagonal and longer than the largest offset, and then to that length |
| SteerVector.OneDirection | nux-ui/src/keymap/engine.rs:572-597 | with one direction held the stick is exactly that offset away, along that direction |
| SteerVector.StickFollowsKey | nux-ui/src/keymap/engine.rs:572-597 | on each axis it goes to the side of the key held, and really goes there if that offset is not zero; with neither key it stays |
| SteerVector.OpposedKeys | nux-ui/src/keymap/engine.rs:572-597 | opposed keys leave the difference of their offsets if the other axis is at rest |
| SteerVector.Diagonal | nux-ui/src/keymap/engine.rs:572-597 | with one key held on each axis it goes along the diagonal of the two offsets, cut to the largest offset exactly if longer |
| SteerVector.MaxOffsetIsOne | nux-ui/src/keymap/engine.rs:590 | that length is one of the four offsets, and none is larger |
| SteerVector.StickBounded | nux-ui/src/keymap/engine.rs:572-597 | whatever keys are held, the vector is no longer than the largest offset |
| TouchTrace.PhaseReadsTrace | nux-ui/src/keymap/engine.rs:254-359 | within (down move* up)*, a pressed pointer has one down more than ups and last saw a down or move; a lifted one has as many and last saw an up |
| TouchTrace.KindsTellAll | nux-ui/src/keymap/engine.rs:407-471 | a pointer's phase and last command depend only on what that pointer was told |
| TouchTrace.AlternatingIff | nux-ui/src/keymap/engine.rs:407-471 | downs and ups alone stay in (down move* up)* exactly if they alternate |
| EngineModel.Pixel | nux-ui/src/keymap/engine.rs:152-156 | a normalised position lands inside the display |
| EngineModel.ClampedPixel | nux-ui/src/keymap/engine.rs:499-504 | clamping before the cast gives the same pixel as cutting off after it |
| EngineModel.TapPixel | nux-ui/src/keymap/engine.rs:302-303 | so does cutting off before the cast |
| EngineSafety.PixelIsNearest | nux-ui/src/keymap/engine.rs:152-156 | no pixel of the display is nearer to the normalised coordinate |
| EngineSafety.PressLands | nux-ui/src/keymap/engine.rs:254-294 | a click or click-twice press sends one command, of the right kind, on that node's pointer, to the pixel nearest to its position |
| EngineGestures.ClickLifts | nux-ui/src/keymap/engine.rs:254-273 | a click's thread lifts the click's own touch where it came down, and sends nothing else |
| EngineGestures.DragLands | nux-ui/src/keymap/engine.rs:329-360 | pressing a drag's key sends nothing; its thread sends a down at the pixel nearest to the start, five evenly spaced moves between the two ends, the last at the pixel nearest to the end, and an up there |
| EngineGestures.TapsLand | nux-ui/src/keymap/engine.rs:295-311 | pressing a multi-tap's key sends nothing; its thread taps the pixel nearest to each of its positions once, in order |
| EngineGestures.FireLands | nux-ui/src/keymap/engine.rs:407-471 | the left button presses and lifts the fire pointer on the first click node bound to it, while the map is active, and does nothing else |
| EngineGestures.FirePosIsFirst | nux-ui/src/keymap/engine.rs:416-425 | that node is the first one |
| EngineGestures.SwitchOffSends | nux-ui/src/keymap/engine.rs:618-653 | turning the map off sends lifts only, of pointers that were down, each at the place of its touch |
| EngineSafety.AimLands | nux-ui/src/keymap/engine.rs:490-517 | a mouse motion ends with aim down and moved to the pixel nearest to the centre plus what has accumulated |
| EngineAim.AimMovesByDeltas | nux-ui/src/keymap/engine.rs:485-488 | one motion moves the aim by its deltas in pixels, each times its own axis's configured speed and, with ADS on, the ADS sensitivity |
| EngineAim.AimStartsAtStart | nux-ui/src/keymap/engine.rs:490-501 | and the pointer to the pixel nearest to the configured start plus what has accumulated |
| EngineAim.AimRecentres | nux-ui/src/keymap/engine.rs:503-530 | the first motion touches down at the centre; a motion is lifted where it went, and starts anew, exactly if it went more than 0.3 away |
| EngineAim.AdsFollowsKey | nux-ui/src/keymap/engine.rs:237-240 | over every run ADS is on exactly if the last ADS key event while active was a press and the map was not turned off since |
| EngineAim.KeysConfigured | nux-ui/src/keymap/engine.rs:65-106 | which key switches the map and which is the ADS key |
| EngineGestures.FreePixelNear | nux-ui/src/keymap/engine.rs:509-510 | aim's touch-down is within half a pixel of the centre, cut off or not |
| EngineSafety.DragStaysBetween | nux-ui/src/keymap/engine.rs:343-347 | drag moves stay between the end points, never go back, and the last one arrives |
| EngineSafety.DragFits | nux-ui/src/keymap/engine.rs:346-347 | the 32-bit products of a drag do not overflow |
| EngineSafety.WheelFollowsKeys | nux-ui/src/keymap/engine.rs:536-615 | afterwards the steer pointer is down exactly if one of the wheel's keys is held, and its last command moved it to the stick's position |
| EngineStick.KeysAreHeld | nux-ui/src/keymap/engine.rs:312-328 | over every run, under every interleaving, the engine's set of keys is the set of wheel keys pressed while active and not released since, nor since a switch-off, told from the events alone |
| EngineStick.LastKeyLiftsStick | nux-ui/src/keymap/engine.rs:367-404 | once the release of a key that leaves none of its wheels' keys held is dealt with, the steer pointer is up |
| EngineStick.StickFollowsKeys | nux-ui/src/keymap/engine.rs:536-615 | with one wheel, after every run, the steer pointer is down exactly if one of its keys is held, and was last moved to the pixel nearest to where the directions held push it |
| EngineStick.OneKeyPushes | nux-ui/src/keymap/engine.rs:572-597 | so the left, right, up or down key alone pushes it by exactly its own offset, to its own side |
| EngineStick.OneWheelConfigured | nux-ui/src/keymap/engine.rs:66-85 | the engine steers by the centre and offsets of its only wheel |
| EngineSafety.WheelDisturbsNothing | nux-ui/src/keymap/engine.rs:536-615 | the wheel's commands leave every other pointer as it was |
| EngineSafety.Assign | nux-ui/src/keymap/engine.rs:159-165 | a pointer assigned on first use is new and keeps all bookkeeping in order |
| EngineSafety.ClickKeeps | nux-ui/src/keymap/engine.rs:254-278 | a click's down goes out together with a thread that owes its up |
| EngineSafety.ToggleKeeps | nux-ui/src/keymap/engine.rs:279-294 | a click-twice press flips the pointer and its flag together |
| EngineSafety.DragKeeps | nux-ui/src/keymap/engine.rs:329-360 | starting a drag keeps the invariant |
| EngineSafety.ThreadKeeps | nux-ui/src/keymap/engine.rs:263-359 | each command of a click, drag or multi-tap thread keeps the invariant |
| EngineSafety.ToggleUpsRelease | nux-ui/src/keymap/engine.rs:633-643 | walking the toggle table in any order lifts each held pointer once and no other |
| EngineSafety.ReleaseAllLifts | nux-ui/src/keymap/engine.rs:618-653 | after releasing everything, steer, aim and all click-twice pointers are up and fire is as it was |
| EngineRuns.StepKeeps | nux-ui/src/keymap/engine.rs:168-653 | every step, of the engine or of a thread, keeps the invariant |
| EngineRuns.RunKeeps | nux-ui/src/keymap/engine.rs:168-653 | so does every run |
| EngineRuns.FlagsMatchScreen | nux-ui/src/keymap/engine.rs:34-59 | after every run the flags say exactly which of the steer, aim and click-twice pointers the guest sees down, and every held toggle has an assigned pointer |
| EngineRuns.SwitchOffLiftsAll | nux-ui/src/keymap/engine.rs:174-234 | turning the map off with the switch key leaves all of them up |
| EngineRuns.ReleasesAccountedFor | nux-ui/src/keymap/engine.rs:254-360 | downs minus ups of a click or drag pointer equal the releases its threads still owe; with none pending its last command is an up |
| EngineRuns.CommandsOnDisplay | nux-ui/src/keymap/engine.rs:152-653 | every coordinate but those of aim's downs and ups lies inside the display size in force when it was computed |
| EngineRuns.AimStaysNear | nux-ui/src/keymap/engine.rs:519-530 | between events the accumulated aim is within 0.3 of the centre |
| EngineRuns.PointersFixedForEver | nux-ui/src/keymap/engine.rs:159-165 | node pointers never change, are pairwise distinct and never steer, aim or fire |
| EngineRuns.SwitchMapReleasesNothing | nux-ui/src/keymap/engine.rs:274-277 | after a `switchMap` click everything is up exactly if nothing was held before |
| EngineRuns.InactiveMeansReleased | nux-ui/src/keymap/engine.rs:174-278 | without `switchMap` nodes, an inactive map has no flagged pointer down |
| EngineAim.ModeCountsSwitches | nux-ui/src/keymap/engine.rs:174-234 | without `switchMap` nodes the map is active exactly after an odd number of presses of the switch key |
| EngineRuns.WheelHearsIff | nux-ui/src/keymap/engine.rs:312-328 | a wheel hears a key exactly if one of its names resolves to it in a spelling of the reverse table, or is the hexadecimal name of a key the table does not name |
| EngineRuns.WheelRespondsIff | nux-ui/src/keymap/engine.rs:312-328 | a pressed key moves a wheel exactly if one name of the wheel resolves to it and one, perhaps another, is one it is recognised by |
| EngineRuns.DeafWheel | nux-ui/src/keymap/engine.rs:312-328 | a wheel with none of those spellings and no hexadecimal name ignores every key |
| EngineFire.FireFollowsButton | nux-ui/src/keymap/engine.rs:407-471 | over every run, under every interleaving, the fire pointer is told exactly the left-button events accepted while the map was active |
| EngineFire.FireDownIff | nux-ui/src/keymap/engine.rs:407-471 | its last command is a down exactly if the last such event was a press, and it stays in (down move* up)* exactly if those events alternated |
| EngineFire.SwitchOffLiftsFireIff | nux-ui/src/keymap/engine.rs:174-234 | turning the map off leaves every pointer up, save those whose threads still owe a release, exactly if the last such event was not a press |
| EngineFire.FireStaysDown | nux-ui/src/keymap/engine.rs:441-471 | a run that ends with the map off and the fire pointer down |
| KeymapEngine.Control.Lock | nux-ui/src/keymap/engine.rs:259-271 | whatever threads run while the lock is awaited is a run of the state machine |
| KeymapEngine.Engine.constructor | nux-ui/src/keymap/engine.rs:62-143 | the unpacked configuration, with the first wheel found, and a lookup table that answers as the scan |
| KeymapEngine.Engine.SetDisplaySize | nux-ui/src/keymap/engine.rs:146-149 | a resize is one event of the state machine and changes the size alone |
| KeymapEngine.Engine.Stick | nux-ui/src/keymap/engine.rs:572-597 | the direction-by-direction sum and normalisation compute the stick's vector |
| KeymapEngine.Engine.UpdateSteerWheel | nux-ui/src/keymap/engine.rs:536-615 | from wherever the lock was got, one wheel update of the state machine |
| KeymapEngine.Engine.ReleaseToggles | nux-ui/src/keymap/engine.rs:633-643 | the loop over the table visits each entry once, in some order |
| KeymapEngine.Engine.ReleaseAll | nux-ui/src/keymap/engine.rs:618-653 | releases all under one lock and clears the state |
| KeymapEngine.Engine.PressNode | nux-ui/src/keymap/engine.rs:251-361 | one bound node is one task of the state machine |
| KeymapEngine.Engine.OnKeyDown | nux-ui/src/keymap/engine.rs:168-364 | the handler is a run that takes in this key-down and nothing else, and reports consumption correctly |
| KeymapEngine.Engine.OnKeyUp | nux-ui/src/keymap/engine.rs:367-404 | likewise for the key-up |
| KeymapEngine.Engine.OnMouseDown | nux-ui/src/keymap/engine.rs:407-438 | likewise for the button press |
| KeymapEngine.Engine.OnMouseUp | nux-ui/src/keymap/engine.rs:441-471 | likewise for the button release |
| KeymapEngine.Engine.OnMouseMove | nux-ui/src/keymap/engine.rs:474-533 | likewise for the motion, with recentring under a lock of its own |
| EngineAim.KeyConsumedIff | nux-ui/src/keymap/engine.rs:168-404 | a key is reported consumed exactly if it is the switch key or, while active, the ADS key or bound to some node |
| EngineAim.UnconsumedDoesNothing | nux-ui/src/keymap/engine.rs:168-533 | what is not consumed changes nothing |
| KeymapEngine.ReachesThrough | nux-ui/src/keymap/engine.rs:168-533 | successive handler calls compose to one run |
| KeymapEngine.FieldsMatchScreen | nux-ui/src/keymap/engine.rs:34-59 | after any calls, under any interleaving, the engine's fields say which pointers are down |
| FileSystem.FrameKeepsTree | nux-core/src/gservices/overlay.rs:40-87 | a change inside one place leaves every tree apart from it as it was |
| FileSystem.MovedMoves | nux-core/src/gservices/overlay.rs:82-84 | a rename carries the whole tree, leaves nothing behind, and touches no other |
| FileSystem.MovedKeepsForm | nux-core/src/gservices/overlay.rs:82-84 | a rename leaves every entry in a directory |
| Disk.Disk.CreateDirAll | nux-core/src/gservices/overlay.rs:100-102 | only missing directories on the way appear, even if it fails; on success all are there |
| Disk.Disk.RemoveDirAll | nux-core/src/gservices/overlay.rs:77-79 | entries go one by one, never one outside; success means the tree is gone, failure that what is left was there before |
| Disk.Disk.Rename | nux-core/src/gservices/overlay.rs:82-84 | all or nothing: the whole tree moves, replacing at most a file or an empty directory of its own kind; renaming to itself or into itself changes nothing |
| Disk.ChildMerged | nux-core/src/gservices/overlay.rs:158-166 | copying one more child extends what is merged and disturbs no other child |
| Disk.MergedCopies | nux-core/src/gservices/overlay.rs:155-168 | merging into an empty place copies the tree |
| Disk.CopyBegins | nux-core/src/gservices/overlay.rs:155-168 | an interrupted copy into an empty place holds only entries of the source, files cut off anywhere |
| Overlay.BackupApart | nux-core/src/gservices/overlay.rs:28-30 | whatever the directory is called, its backup is a different sibling |
| Overlay.StemEndsAtLastDot | nux-core/src/gservices/overlay.rs:28-30 | the backup's name replaces what follows the last dot, if that is not the first character |
| Overlay.BackupOfOverlay | nux-core/src/gservices/overlay.rs:20-30 | the backup of "overlay" is "overlay.overlay.backup" beside it |
| Overlay.CopyDirRecursive | nux-core/src/gservices/overlay.rs:155-168 | success merges the whole source tree into the destination, in whatever order the entries are listed; a failure leaves only beginnings of it; nothing outside the destination changes at any moment |
| Overlay.BackupOverlay | nux-core/src/gservices/overlay.rs:40-59 | on success the backup equals the overlay, stale or missing backups notwithstanding; on failure it is part of the old backup or the beginning of the new one; only the backup's place is ever touched |
| Overlay.BackupAgain | nux-core/src/gservices/overlay.rs:43-50 | a further backup keeps what the old one held exactly if the overlay is the same; a failed one leaves part of the old backup or the beginning of a new one; the overlay never changes |
| Overlay.RestoreOverlay | nux-core/src/gservices/overlay.rs:67-87 | fails untouched without a backup; otherwise the backup's tree is at every moment in one of the two places, at the overlay on success and still at the backup on failure |
| Overlay.ApplyGappsOverlay | nux-core/src/gservices/overlay.rs:98-112 | the old tree plus the directories and the marker |
| Overlay.ApplyRemovalOverlay | nux-core/src/gservices/overlay.rs:140-152 | the old tree plus the marker |
| Overlay.ResetOverlayToBase | nux-core/src/gservices/overlay.rs:121-130 | on success nothing is left |
| Switching.PerformTransition | nux-core/src/gservices/switching.rs:81-145 | on success the overlay is the target's canonical tree whatever was there; only the overlay's place is ever touched, and nothing at all if the package cannot be downloaded or is not the right one |
| Switching.SwitchProvider | nux-core/src/gservices/switching.rs:44-78 | a running VM or the same target changes nothing; at every moment the original tree is at the overlay or the backup; on success the overlay is canonical and the backup the original; a failed switch whose restore succeeds leaves the original and no backup; without an original overlay the restore fails; nothing elsewhere changes |
| Switching.SwitchTwice | nux-core/src/gservices/switching.rs:44-78 | if the first of two switches could not be rolled back, exactly when the original is still held after the second, for each way the second can end |
| Coordinate.DisplayMetrics.Recalculate | nux-core/src/input/coordinate.rs:66-83 | the derived fields are those of the current sizes |
| Coordinate.DisplayMetrics.UpdateHost | nux-core/src/input/coordinate.rs:86-90 | and stay so after a host resize |
| Coordinate.DisplayMetrics.UpdateGuest | nux-core/src/input/coordinate.rs:93-97 | and after a guest resolution change |
| Coordinate.FitIsLargest | nux-core/src/input/coordinate.rs:74-76 | the scale is the largest at which the guest fits the host |
| Coordinate.FitIsCentred | nux-core/src/input/coordinate.rs:78-82 | the drawn guest lies inside the host, centred, with non-negative bars, one pair of them zero |
| Coordinate.DisplayMetrics.MapHostToGuest | nux-core/src/input/coordinate.rs:114-133 | always lands on the guest screen, also for a zero scale |
| Coordinate.MapMonotone | nux-core/src/input/coordinate.rs:114-133 | monotone on each axis |
| Coordinate.MapsToNearest | nux-core/src/input/coordinate.rs:114-133 | no guest pixel is drawn nearer to the host position than the one it maps to |
| Coordinate.MapUndoesDrawing | nux-core/src/input/coordinate.rs:114-133 | a left inverse of drawing, for every guest pixel |
| Coordinate.ZeroScaleMaps | nux-core/src/input/coordinate.rs:114-133 | with a zero scale every position maps to an edge of the guest, by its side of the bar |
| Coordinate.ClicksHitWhatIsDrawn | nux-core/src/input/coordinate.rs:66-133 | on both axes, after any updates that leave positive sizes |
| Grab.DriftBounded | nux-core/src/input/grab.rs:79-94 | over n motions the sum of integer deltas is within n/2 of the true displacement |
| Grab.NoDriftOnPixels | nux-core/src/input/grab.rs:79-94 | and exact between whole positions |
| Grab.DriftReached | nux-core/src/input/grab.rs:79-94 | the bound is reached for every n |
| Grab.InputGrabState.ComputeDelta | nux-core/src/input/grab.rs:79-94 | reports the delta of the path since the baseline; the baseline itself reports none |
| Grab.InputGrabState.Toggle | nux-core/src/input/grab.rs:61-69 | changes mode and forgets the baseline |
| Grab.GrabDrift | nux-core/src/input/grab.rs:61-94 | the drift bound for the object at any time, on both axes |
| Grab.GrabDriftSince | nux-core/src/input/grab.rs:79-94 | the same bound counted from any later position |
| Numbers.RoundTies | nux-core/src/input/grab.rs:79-94 | halves are rounded away from zero |
| Numbers.WrapsModulo | nux-core/src/input/translate.rs:62-66 | wrapping keeps the value modulo 2^32 |
| Evdev.EventRoundTrip | nux-core/src/input/evdev.rs:113-118 | the sixteen bytes determine the event |
| Evdev.ReaderSeesPrefix | nux-core/src/input/manager.rs:126-131 | a reader of any part of the stream has exactly the complete events |
| TouchReceiver.PutDownEffect | nux-core/src/input/translate.rs:205-208 | slot, id and position events set one contact |
| Translate.BeginEffect | nux-core/src/input/translate.rs:187-218 | the receiver of a pinch's first batch has the two contacts |
| Translate.MoveEffect | nux-core/src/input/translate.rs:224-238 | moves both, keeping their ids |
| Translate.EndEffect | nux-core/src/input/translate.rs:244-257 | empties both slots |
| Translate.MotionEffect | nux-core/src/input/translate.rs:90-176 | free motion puts the guest's pointer where it was mapped to, grabbed motion moves it by the deltas |
| Translate.ClickEffect | nux-core/src/input/translate.rs:103-139 | a press touches at the position, a release lifts, a right click presses the back key and leaves it released |
| Translate.KeyEffect | nux-core/src/input/translate.rs:76-82 | the key is held exactly from its press to its release |
| Translate.ScrollEffect | nux-core/src/input/translate.rs:146-164 | each wheel turns by the rounded distance, if beyond the threshold |
| Translate.TurnsNear | nux-core/src/input/translate.rs:146-164 | a wheel turns in the direction of the scroll, by its distance to within a half |
| Translate.BatchesReport | nux-core/src/input/translate.rs:76-257 | every batch ends with a report, and the back key's press is reported before its release |
| Translate.TranslatePinchBegin | nux-core/src/input/translate.rs:187-218 | two consecutive ids, wrapping, and the mirrored batch |
| Translate.IdsAreFresh | nux-core/src/input/translate.rs:62-66 | for up to 2^30 pinches the ids are 0, 1, 2, ... |
| Translate.IdsLiveIff | nux-core/src/input/translate.rs:62-66 | exactly when both ids of the n-th pinch are non-negative |
| InputManager.InputManager.Inject | nux-core/src/input/manager.rs:117-137 | with a working socket every event's bytes arrive in order; a failed write takes a proper part of the batch; without a socket the batch is dropped and that is no error |
| InputManager.InputManager.Connect | nux-core/src/input/manager.rs:82-89 | a new connection starts a new stream, whose reader is in step from then on; a failed one changes nothing |
| InputManager.InputManager.HandleMotion | nux-core/src/input/manager.rs:163-185 | a pinch in progress takes precedence, then relative motion if grabbed, else absolute; what the receiver then sees is the first contact where the position is mapped to and its mirror, the relative motion, or the pointer where the position is mapped to |
| InputManager.InputManager.HandleClick | nux-core/src/input/manager.rs:195-233 | Ctrl and the left button begin a pinch, with the first contact where the position is mapped to and the second mirrored; without Ctrl the receiver sees a touch there; releasing lifts the touch or both contacts; anything else is plain; the receiver stays in step |
| InputManager.InputManager.EndPinchIfActive | nux-core/src/input/manager.rs:264-270 | no pinch afterwards, and the end of one is emitted exactly if there was one |
| InputManager.HitsWhatIsDrawn | nux-core/src/input/manager.rs:163-233 | moving to, pressing or beginning a pinch where a guest pixel is drawn puts the guest's pointer, touch or first contact on that pixel |
| InputManager.GuestSeesEmitted | nux-core/src/input/manager.rs:117-137 | with everything delivered since the connection the guest decodes exactly the events emitted since |
| InputManager.LiveIffActive | nux-core/src/input/manager.rs:163-270 | after any calls, reconnections included, both slots are empty without a pinch; with one they are distinct and both live exactly if it was begun on this connection and its ids are not wrapped, and a pinch was begun elsewhere only if the connection was made during it |
| InputManager.IdsNeverReused | nux-core/src/input/translate.rs:62-66 | up to 2^30 pinches, no id is given twice on a connection |
| InputManager.ContactsMirrored | nux-core/src/input/translate.rs:193-235 | during a pinch begun on this connection the contacts sum to the guest's size at its last event, the first on screen, the mirror in 1..size |
| InputManager.GuestPointerDrift | nux-core/src/input/manager.rs:176-185 | while grabbed, the relative motion the guest has decoded since the baseline, or since the connection, is the true displacement to within half a pixel per motion |
| CoreKeymap.CheckKeys | nux-core/src/keymap/format.rs:220-232 | succeeds only if all keys are known and new |
| CoreKeymap.ValidateKeymap | nux-core/src/keymap/format.rs:215-270 | accepts exactly the keymaps with known keys bound once and numbers in range; an error names the first faulty binding's fault |
| CoreKeymap.ShapeOkIff | nux-core/src/keymap/format.rs:233-268 | which durations, radii, regions and sensitivities are in range, and which error names which |
| CoreKeymap.KeysOfBinding | nux-core/src/keymap/format.rs:273-281 | a joystick has its four keys, every other binding its own |
| CoreKeymapEngine.OneBindingPerKey | nux-core/src/keymap/mod.rs:72-77 | in a valid keymap a key belongs to one binding |
| CoreKeymapEngine.BuildIndex | nux-core/src/keymap/mod.rs:72-77 | the index has every bound key and no other, at a binding that has it |
| CoreKeymapEngine.ScaleBinding | nux-core/src/keymap/mod.rs:271-334 | scaling by the cached ratios is scaling from the authored to the current resolution |
| CoreKeymapEngine.PositionsScale | nux-core/src/keymap/mod.rs:271-334 | each position of a binding, in order, is scaled on each axis by that axis's sizes |
| CoreKeymapEngine.AuthoredSizeKeeps | nux-core/src/keymap/mod.rs:271-334 | on a display of the authored size every binding is as authored, in all its parts |
| CoreKeymapEngine.OnlySizesScale | nux-core/src/keymap/mod.rs:271-334 | durations, keys and sensitivity are the same on every display, and a joystick's radius grows with the width alone, edge to edge |
| CoreKeymapEngine.HintStandsOn | nux-core/src/keymap/mod.rs:222-236 | a hint stands on its binding's first position, or in the middle of an aim region to within half a pixel |
| CoreKeymapEngine.ScaleFactors.UpdateResolution | nux-core/src/keymap/scaling.rs:54-59 | the cached ratios are those of a fresh computation |
| CoreKeymapEngine.ScalesOntoDisplay | nux-core/src/keymap/scaling.rs:41-45 | the authored screen is scaled onto the display, corner to corner, and stays put at its own size |
| CoreKeymapEngine.ScaleMonotone | nux-core/src/keymap/scaling.rs:41-45 | scaling keeps the order of coordinates |
| CoreKeymapEngine.ScalesInProportion | nux-core/src/keymap/scaling.rs:41-45 | of all integers the scaled coordinate is nearest to the exact proportion |
| CoreKeymapEngine.KeymapEngine.LoadStr | nux-core/src/keymap/mod.rs:63-87 | succeeds exactly on a valid keymap; a failed load changes nothing |
| CoreKeymapEngine.KeymapEngine.Lookup | nux-core/src/keymap/mod.rs:114-120 | equals the linear scan scaled to the resolution last given |
| CoreKeymapEngine.KeymapEngine.UpdateResolution | nux-core/src/keymap/mod.rs:127-131 | afterwards the engine is as freshly loaded at that resolution |
| CoreKeymapEngine.KeymapEngine.OverlayHints | nux-core/src/keymap/mod.rs:161-180 | every bound key exactly once, in order, at the place looking it up gives |
| CoreKeymapEngine.UpdatesLikeFreshLoad | nux-core/src/keymap/mod.rs:63-131 | after any sequence of resolution changes, lookups answer as after a fresh load at the last one, and find exactly the bound keys |
| CoreKeymapEngine.ZeroSizeSaturates | nux-core/src/keymap/scaling.rs:23-45 | on an axis authored with size zero every position of every kind of binding goes to a bound of the 32-bit range, by its sign |
| CoreKeymapEngine.LandsOnDisplayIff | nux-core/src/keymap/scaling.rs:23-45 | positions within the authored screen land on the display exactly if that screen has a size on both axes |
| CoreKeymapEngine.LoadsAtAnySize | nux-core/src/keymap/mod.rs:63-87 | a keymap authored for any size, zero included, loads exactly if its bindings are valid |
| CoreKeymapEngine.ZeroWidthLoads | nux-core/src/keymap/mod.rs:63-87 | one of zero width loads, and looking up its tap gives the end of the 32-bit range |
| FpsCounter.WhatIsLeft | nux-core/src/display/sync.rs:77-82 | popping old fronts of the sorted deque is filtering it |
| FpsCounter.TrueCountIff | nux-core/src/display/sync.rs:77-82 | the count is true exactly if no frame of the window is older than an instant at which the counter was used within one window of the clock's origin |
| FpsCounter.LateInstantsSpoilNothing | nux-core/src/display/sync.rs:77-82 | and so always true for a counter never used that early |
| FpsCounter.Counter.RecordFrame | nux-core/src/display/sync.rs:39-42 | the deque is the filter of the full history to the window ending now, exactly if nothing is spoilt near the clock's origin |
| FpsCounter.Counter.Update | nux-core/src/display/sync.rs:62-74 | once per window the cached value becomes the number of frames in the closed window, the true one exactly under that condition |
| FpsCounter.EarlyFrameLost | nux-core/src/display/sync.rs:77-82 | for every origin, two early frames of which one is counted |
| VmManager.LawfulSnoc | nux-core/src/vm/mod.rs:77-87 | a lawful change extends a lawful history |
| VmManager.StartsOnce | nux-core/src/vm/mod.rs:97-98 | only the very first change leaves Idle |
| VmManager.FinalStays | nux-core/src/vm/state.rs:43-54 | nothing follows Stopped, Failed or Crashed |
| VmManager.RunningMeansStarted | nux-core/src/vm/state.rs:43-54 | a running, paused or stopping VM was started and never stopped, failed or killed since |
| VmManager.Manager.Transition | nux-core/src/vm/mod.rs:77-87 | passes exactly on an edge of the transition relation, else changes nothing |
| VmManager.Manager.Start | nux-core/src/vm/mod.rs:97-168 | every outcome of a start: running with process and control, failed, or stuck in Starting with the process |
| VmManager.Manager.Stop | nux-core/src/vm/mod.rs:175-192 | succeeds exactly on a running or paused VM and leaves nothing owned |
| VmManager.Manager.Pause | nux-core/src/vm/mod.rs:199-210 | paused, or reverted |
| VmManager.Manager.Resume | nux-core/src/vm/mod.rs:217-228 | running, or reverted; also lets a stuck start through |
| VmManager.Manager.ForceKill | nux-core/src/vm/mod.rs:235-258 | leaves nothing owned; the only change outside the transition relation |
| VmManager.OneLife | nux-core/src/vm/mod.rs:77-258 | over all calls a manager leaves Idle once and never leaves a final state |

## Left out

- Conformance to a real `adbd` is not claimed: the sync guest is the dual of the host code, which sends DONE with the time as data.
- Timeouts as real time: a deadline is "no more bytes arrive"; a deadline that fires while a write is pending, and reads without one, which would wait for ever and here report a timeout.
- Text conversions: command output and paths are byte sequences; lossy UTF-8 decoding of output and error texts is not modelled.
- AdbProtocol.StreamManager.OpenStream: requires that fewer than 2^32 - 1 streams were opened, because the counter's addition overflows then.
- AdbShell.ShellExec: requires the same of the counter, as do the capture, push and pull that open a stream.
- AdbShell.CaptureScreenshot: the wording of its errors for output that is not a PNG is one error here.
- `parse_wm_size`, `shell_escape_text`, the CNXN handshake and the input commands built on `shell_exec`: easy facts or text handling.
- Packing several sync messages into one WRTE during a pull: the modelled guest sends one per WRTE.
- Touch engine: the control socket stays connected throughout; the display has at least one pixel and at most 429,496,729 on a side, beyond which the drag's 32-bit products could overflow.
- SteerVector.StickBounded: the square root is a parameter with the defining property of a root, since Dafny has no constructive one; offsets are non-negative.
- EngineRuns.CommandsOnDisplay: aim's touch-down and lifts are not cut off by the program, so they are excluded.
- Floating-point rounding, infinities and NaN, except where a division by zero is spelled out (`Coordinate.QuotientToI32`, `CoreKeymapEngine.ScaleOne`).
- Symlinks, permissions, file times and other processes on the disk; `Path::exists` is taken to answer truthfully; the package download touches only its cache.
- Coordinate.DisplayMetrics.MapHostToGuest: requires a guest of at least one pixel on each axis, since the program's clamp panics otherwise; so do the input handlers that map a position.
- FpsCounter.Counter.RecordFrame: requires that instants never go backwards, which a monotonic clock provides; the least instant of the clock is a parameter.
- Grab.DriftBounded: no single step longer than a 32-bit motion, which the cast would cut off.
- Poisoned locks are one nondeterministic error; who poisons them is not modelled.
- A future dropped in the middle of a VM operation: each call runs to its end.
- CoreKeymapEngine.KeymapEngine.LoadStr: the TOML parser is a parameter, its result or its error.
- The window, toolbar and on-screen overlay, settings, downloads, network, display capture, process spawning and the control socket's requests: user interface or calls into the system, which appear here as nondeterministic outcomes if at all.
