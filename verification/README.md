# BLE power-controller client — Dafny model

The repository is a small client for a Bluetooth Low Energy power controller. It comes in two
forms: a PyQt GUI (`xdjkgui.py`, whose worker thread `BluetoothWorker` does the work) and a
console script (`main.py`). One attempt runs as follows:

1. Scan for the device whose advertised name equals the user's device name.
2. Obtain a hex command from an exchange service:
   - in restore mode, first read the device's 13-field telemetry record from its control
     characteristic and post it to `apigetdata`;
   - otherwise ask `apiinitdata`.
3. Decode the command with `bytearray.fromhex`.
4. Connect, subscribe to notifications, write the bytes, and wait two seconds. Meanwhile a
   notification handler parses the device's status payload and uploads slot 18, the firmware
   version, to `apideviceinfo`.

This project models that core. Every external result is a parameter: what the scan finds, how
the device answers the read connection and the write connection, which notifications arrive, and
how each HTTP endpoint answers. One `World.Outcomes` value fixes all of them. The model then
computes the run's observable behaviour as a trace of `Events.Event` values: log and print
lines, progress and finished signals, and the Bluetooth and HTTP operations issued.

The modules follow the program:

- `Py`: the Python built-ins the core relies on: `str.split`, `str.count`,
  `bytes.decode('ascii')`, and `next` over a generator.
- `Hex`: `bytearray.fromhex` in its CPython 3.7+ form. Whitespace is allowed only between byte
  pairs; an odd digit or any other character raises `ValueError`.
- `Telemetry`: the record rule of `read_characteristic`. The text must split into exactly 13
  comma segments, each of which splits into exactly two colon parts. The result is the values in
  order. `ParseFields` is the appending loop itself.
- `Notification`: `notification_handler`, with its in-place loop over a 50-slot list (`FillSlots`).
- `Locator`: `scan_devices`.
- `Gatt`: the service and characteristic lookup, the read-permission check and the parse of
  `read_characteristic`.
- `Exchange`: the status branches of `get_data` and `init_data`.
- `Writer`: `connect_and_write`.
- `GuiWorker`: the class `BluetoothWorker` with `run`. The `RunTrace` function specifies its
  methods.
- `CliScript`: the top-level script of `main.py`. The `ScriptRun` function specifies its methods.

Wherever the two programs differ, the model follows each program's code. Shared steps take an
`Events.Variant` (`Gui` or `Cli`). The differences the model states and proves:

- **Address and command checks.** The GUI stops on an empty address or an empty command body,
  since it tests with `not`. The console script tests only for `None`: it goes on with an empty
  address and writes an empty command as zero bytes.
- **Unreadable characteristic.** The console script's `read_characteristic` falls through its
  not-readable branch and returns a bare `None`. Unpacking it raises `TypeError`, and the script
  ends with a traceback. The GUI returns `(None, None)` and fails the run.
- **Hex decoding.** In the console script `fromhex` sits outside the `try`, so a body that is
  not hex ends the script with `ValueError`. In the GUI the same exception reaches `run` and ends
  it with a failed finished signal.
- **Run mode.** An empty mode selects restore in the console script. In the GUI, any mode other
  than `"1"` selects initialisation. Any other console input prints an input error and does
  nothing else.
- **Rate limiting.** Only the GUI names HTTP 429. The console script reports every non-403
  failure alike.
- **Handler errors.** The GUI's notification handler re-raises its exception after logging it.
  The console script's handler swallows it.
- **Success message.** Only the console script prints the power-on message, after the
  two-second wait.

The parse rules differ as well. A record segment must split into exactly two colon parts. A
notification segment only needs more than one part, and it contributes piece 1, the text between
its first and second colon. A colon-bearing notification segment at index 50 or later raises
`IndexError` in the handler.

## Model

| member | source | states |
|---|---|---|
| `Py.Split` | xdjkgui.py:191 | Python `str.split` with a separator: one more piece than separators, none of them holding the separator |
| `Py.Count` | xdjkgui.py:191-192 | `str.count` of one character: at most the length, and zero exactly when the character is absent |
| `Py.JoinSplit` | xdjkgui.py:191 | joining the pieces of a split with the separator gives back the text |
| `Py.SplitJoin` | xdjkgui.py:191 | splitting a join of separator-free pieces gives back the pieces |
| `Py.SplitPieces` | xdjkgui.py:322-324 | piece 1 of a split with at least two pieces is the text between the first and the second separator |
| `Py.DecodeAscii` | xdjkgui.py:188 | `bytes.decode('ascii')` succeeds exactly when every byte is below 128, and keeps length and order |
| `Py.First` | xdjkgui.py:167-170 | `next(generator, None)`: the index of the first element satisfying the test, no earlier one satisfies it, and `None` only when none does |
| `Py.FirstAt` | xdjkgui.py:176-179 | the first match is found at the first position whose element satisfies the test |
| `Hex.FromHex` | xdjkgui.py:282 | `bytearray.fromhex`: whitespace is skipped before each byte, each byte is two adjacent hex digits, anything else raises; its meaning is stated by `FromHexToHex`, `DecodedLength`, `CompactHexAccepted`, `CompactHexValues` and `NonHexFails` |
| `Hex.ToHex` | xdjkgui.py:282 | the two-digit hex text of a byte string, twice as long, every character a hex digit |
| `Hex.FromHexToHex` | xdjkgui.py:282 | `fromhex` gives back the bytes of their two-digit hex text |
| `Hex.DecodedLength` | xdjkgui.py:282 | an accepted text yields one byte per two non-whitespace characters |
| `Hex.OddDigitCountFails` | main.py:91 | a text with an odd number of non-whitespace characters raises |
| `Hex.NonHexFails` | main.py:91 | a character that is neither whitespace nor a hex digit makes the whole text raise, wherever it stands, spaced text included |
| `Hex.CompactHexAccepted` | xdjkgui.py:282 | a text without whitespace is accepted exactly when its length is even and every character is a hex digit |
| `Hex.CompactHexValues` | xdjkgui.py:282 | byte i of a compact text is the value of digits 2i and 2i+1 |
| `Hex.CompactExample` | xdjkgui.py:282 | `"0A1B"` decodes to bytes 10 and 27 |
| `Hex.SpacedExample` | xdjkgui.py:282 | whitespace between pairs is skipped: `"1a 2B\n3c"` decodes to 26, 43 and 60 |
| `Hex.RejectedExamples` | main.py:91 | an odd digit count, a space inside a pair and a non-hex digit each raise |
| `Telemetry.FirstMalformed` | xdjkgui.py:198-204 | the position of the first segment that is not `key:value`: that segment is malformed, every earlier one is a field, and there is none exactly when every segment is a field |
| `Telemetry.MalformedFrom` | xdjkgui.py:198-204 | scanning from a given segment on: the first malformed segment at or after it, with every segment in between a field |
| `Telemetry.Decode` | xdjkgui.py:191-205 | an accepted record has exactly 13 values |
| `Telemetry.ValuesOf` | xdjkgui.py:199-201 | value i is the part after the colon of segment i |
| `Telemetry.ParseFields` | xdjkgui.py:191-205 | the appending loop returns exactly the record rule's result, failing at the first malformed segment |
| `Telemetry.DecodeAcceptsIff` | xdjkgui.py:191-205 | a record is accepted exactly when the text has 12 commas and each of the 13 segments has exactly one colon |
| `Telemetry.AcceptedFields` | main.py:128-141 | an accepted record has 12 commas and one colon per segment |
| `Telemetry.DecodeValues` | xdjkgui.py:199-205 | value i of an accepted record is the text after the colon of segment i |
| `Telemetry.MalformedSegmentRejects` | xdjkgui.py:202-204 | a segment with no colon or with several rejects the whole record: no partial list |
| `Telemetry.Segments` | xdjkgui.py:190 | segment i is `key i : value i` |
| `Telemetry.EncodeDecode` | xdjkgui.py:190-205 | keys and values free of `,` and `:` survive a round trip through the record text |
| `Telemetry.Keys` | xdjkgui.py:196 | key i is the text before the first colon of segment i |
| `Telemetry.DecodeDetermines` | xdjkgui.py:191-205 | an accepted text is rebuilt exactly from its keys and its decoded values |
| `Notification.Slots` | xdjkgui.py:317-324 | a slot list, when there is one, has 50 slots |
| `Notification.OverflowsIff` | xdjkgui.py:321-324 | the list assignment raises exactly when some segment at index 50 or later has a colon |
| `Notification.Overflows` | main.py:21-24 | the list assignment fails: some segment past the 50 slots has a colon; `OverflowsIff` states it as an existential |
| `Notification.SlotValue` | main.py:22-24 | what one segment stores: piece 1 of its colon split when it has a colon, the default otherwise; `Layout` and `SlotsLayout` state the slots it fills |
| `Notification.Layout` | xdjkgui.py:318-324 | slot i is the segment's piece 1 when segment i has a colon, and `"0000000000"` otherwise |
| `Notification.FillSlots` | xdjkgui.py:317-324 | the in-place loop over the 50-element list yields the slot layout, or the index error |
| `Notification.SlotsLayout` | xdjkgui.py:317-324 | the list fails exactly when a segment at index 50 or later has a colon; otherwise slot i is the text between the first and second colon of segment i, or the default |
| `Notification.ShortListFits` | xdjkgui.py:318-324 | fewer than 50 commas never raise |
| `Notification.HandlerOutcome` | xdjkgui.py:303-336 | the handler only uploads the version, logs it, or logs that it could not; `OverflowRaises`, `VersionReported`, `DefaultVersionReported` and `ShortPayloadIgnored` state the outcome case by case |
| `Notification.Handle` | xdjkgui.py:311-336 | the handler with its slot loop does what the handler rule says |
| `Notification.ShortPayloadIgnored` | xdjkgui.py:316 | an ASCII payload of at most 40 characters produces no upload, no log entry and no error |
| `Notification.VersionReported` | xdjkgui.py:326-333 | for a complete payload whose segment 18 is `key:version`, the handler uploads `(name, version)` and then logs the version |
| `Notification.DefaultVersionReported` | xdjkgui.py:319-333 | a complete payload with no segment 18, or one without a colon, uploads and logs the default `"0000000000"` as the version |
| `Notification.OverflowRaises` | xdjkgui.py:321-336 | a complete payload with a colon in a segment past slot 49 uploads nothing, logs that the version could not be read, and raises only in the GUI |
| `Notification.RaiseDiscipline` | main.py:73-74 | only the GUI handler lets an exception escape, and it does so exactly when it logged the error |
| `Locator.FirstNamed` | xdjkgui.py:139-142 | the position of the first device with exactly the target name; none only when no device has it |
| `Locator.ScanDevices` | xdjkgui.py:127-147 | a scan emits the scan operation and one log line |
| `Locator.ScanSelectsFirstMatch` | main.py:76-87 | an address is returned exactly when the scan succeeded and some device has the name, and it is the first such device's address |
| `Locator.DiscoveryExample` | xdjkgui.py:139-144 | a worked scan: the match among other devices, and a name nobody has |
| `Gatt.FindService` | xdjkgui.py:167-173 | the service found carries the vendor service UUID |
| `Gatt.FindCharacteristic` | xdjkgui.py:176-182 | the characteristic found carries the control UUID |
| `Gatt.RecordOutcome` | xdjkgui.py:187-205 | after the read, a returned record decodes to the returned values; only log lines are emitted |
| `Gatt.RecordRejected` | xdjkgui.py:192-204 | the log line for a rejected record: the GUI names a wrong field count or the first malformed item, the console prints one message for both (main.py lines 130 and 139); `GuiNamesBadField` states the GUI case |
| `Gatt.ReadOutcome` | xdjkgui.py:149-211 | the read connects first, returns only decodable records, and only the console script returns a bare `None` |
| `Gatt.ReadCharacteristic` | xdjkgui.py:156-211 | the read with its parse loop does what the read rule says |
| `Gatt.ReadRecord` | xdjkgui.py:187-205 | decoding and parsing the bytes read does what the record rule says |
| `Gatt.ReadIssuedIff` | xdjkgui.py:185-187 | a read is issued exactly when the service and characteristic are found and "read" is in the properties |
| `Gatt.ReadIssuedLocated` | xdjkgui.py:164-187 | a read is issued exactly when both lookups succeed and the characteristic is readable |
| `Gatt.ReadableLocated` | xdjkgui.py:167-185 | the first-match lookups agree with the readability predicate |
| `Gatt.RecordReturnedIff` | xdjkgui.py:185-205 | a record is returned exactly when the characteristic was readable and its bytes are ASCII text that decodes; that text is the returned info |
| `Gatt.ReadShape` | xdjkgui.py:171-208 | without a read nothing is returned; after a read, the record step decides the return |
| `Gatt.VariantsAgree` | main.py:105-146 | both programs return the same record from the same device; their traces have the same length, log lines at the same positions, and the same connection and read at every other position |
| `Gatt.RecordAgrees` | main.py:125-141 | both programs return the same record from the same bytes and log the same number of lines |
| `Gatt.BareNoneIff` | main.py:142-143 | a bare `None` comes only from the console script, and only for a characteristic it may not read |
| `Gatt.GuiNamesBadField` | xdjkgui.py:202-204 | the GUI logs the first malformed field of a rejected record |
| `Exchange.StatusOutcome` | xdjkgui.py:236-246 | the status handling logs at most one line |
| `Exchange.FetchRestore` | xdjkgui.py:224-246 | `get_data` first posts the values, the name and the record text, then only logs |
| `Exchange.FetchInit` | xdjkgui.py:255-272 | `init_data` first asks with the name, then only logs |
| `Exchange.CommandOnlyOn200` | xdjkgui.py:242-244 | a command is returned exactly for a 200 reply, and it is that reply's body, empty or not |
| `Exchange.FailuresReported` | main.py:160-168 | the console script reports every failed fetch; on 200 neither program logs anything |
| `Exchange.RateLimitMessages` | xdjkgui.py:239-241 | only the GUI names 429; both report 403 alike |
| `Writer.Handled` | xdjkgui.py:303-336 | the handler's events during the wait are uploads and version log lines only |
| `Writer.WriteOutcome` | xdjkgui.py:274-301 | `connect_and_write` emits no progress or finished signal |
| `Writer.Session` | xdjkgui.py:284-301 | once the command has decoded, the connection, subscription, write and wait emit no progress or finished signal |
| `Writer.Settle` | main.py:98-100 | the wait ends the write; only the console script then prints the power-on message |
| `Writer.ConnectAndWrite` | xdjkgui.py:282-301 | the write method's events and result are those of the write rule |
| `Writer.WriteSession` | xdjkgui.py:284-301 | the connection, subscription, write and wait emit exactly the events, and give exactly the result, of the session rule |
| `Writer.Wait` | main.py:98-100 | the two-second wait runs the callback once per notification and then, on the console only, prints power on |
| `Writer.HandleAll` | xdjkgui.py:292-298 | the callback runs once per arriving notification, in order |
| `Writer.WriteIssuedIff` | xdjkgui.py:282-295 | the bytes written are the decoded command; a write happens exactly when the command decodes and the connection and subscription succeed; the subscription comes first |
| `Writer.WriteEvents` | xdjkgui.py:286-298 | apart from version uploads, a write posts nothing and neither scans nor reads |
| `Writer.WrittenIff` | xdjkgui.py:282-301 | the write succeeds exactly when the command decodes and the link lets it through; a bad command raises before any connection |
| `Writer.PowerOnLast` | main.py:96-100 | the console's success message comes after the write and the wait |
| `Writer.HandledAppend` | xdjkgui.py:303-336 | each notification is handled on its own: the events of a longer sequence extend those of a shorter |
| `GuiWorker.RunTrace` | xdjkgui.py:66-125 | everything one `run` emits and issues; its meaning is stated by `RunSignals`, `RunSucceedsIff`, `RunContents`, `RunNotifiesBeforeWrite` and `RunReadsBeforePost` |
| `GuiWorker.AfterScan` | xdjkgui.py:92-108 | the mode dispatch after a found device: mode `"1"` reads, every other mode asks for initialisation; stated by `AfterScanSignals`, `AfterScanContents` and `AfterScanReadsBeforePost` |
| `GuiWorker.AfterRead` | xdjkgui.py:95-103 | the restore branch from the read on: no usable record fails the run, a record is posted for its command; stated by `ReadSignals`, `ReadContents` and `ReadPostOrder` |
| `GuiWorker.AfterFetch` | xdjkgui.py:110-125 | an absent or empty command fails the run, any other is written; stated by `AfterFetchSignals` and `AfterFetchContents` |
| `GuiWorker.Powering` | xdjkgui.py:116-125 | the write and the success or failure signal after it; stated by `PoweringSignals`, `PoweringContents` and `PoweringNotifies` |
| `GuiWorker.BluetoothWorker.constructor` | xdjkgui.py:53-64 | a worker starts with its name and mode, no address and nothing emitted |
| `GuiWorker.BluetoothWorker.Run` | xdjkgui.py:66-125 | `run` stores the scanned address and emits exactly the run's trace |
| `GuiWorker.BluetoothWorker.ObtainAndWrite` | xdjkgui.py:92-122 | the part after the scan emits the trace of the mode's branch |
| `GuiWorker.BluetoothWorker.WriteCommand` | xdjkgui.py:110-122 | the part after the fetch emits the trace of the command check and the write |
| `GuiWorker.PoweringSignals` | xdjkgui.py:116-125 | the write stage ends with one finished signal, and with success exactly when the command decodes and the link lets it through |
| `GuiWorker.AfterFetchSignals` | xdjkgui.py:110-125 | after a fetch, the run succeeds exactly when a non-empty command came back and was written |
| `GuiWorker.FetchSucceedsIff` | xdjkgui.py:110 | the fetched command passes the GUI's check exactly for a 200 reply with a non-empty body |
| `GuiWorker.AfterScanSignals` | xdjkgui.py:92-125 | after the scan, the run succeeds exactly when the command is obtained and written |
| `GuiWorker.InitSignals` | xdjkgui.py:104-125 | the initialisation branch, with the same promise |
| `GuiWorker.RestoreSignals` | xdjkgui.py:92-125 | the restore branch, with the same promise |
| `GuiWorker.ReadSignals` | xdjkgui.py:95-103 | after the read, no usable record fails the run; otherwise the run succeeds exactly when the 200 reply is non-empty and written, and the record read, with its text, is posted under the device name |
| `GuiWorker.RunSignals` | xdjkgui.py:66-125 | a run emits a prefix of 20, 40, 60, 80, 100, at least 20, and ends with its only finished signal, which is success exactly when all five were emitted |
| `GuiWorker.RunSucceedsIff` | xdjkgui.py:84-122 | a run reports success exactly when the device is found with a non-empty address, the mode's record and command are obtained, and the write goes through |
| `GuiWorker.RunOutcome` | xdjkgui.py:66-125 | the ladder, the single finished signal and the success condition together |
| `GuiWorker.FoundSignals` | xdjkgui.py:89-125 | the same once the device was found |
| `GuiWorker.PoweringContents` | xdjkgui.py:282-295 | the write stage writes only the decoded command and neither scans nor reads |
| `GuiWorker.AfterFetchContents` | xdjkgui.py:110-118 | what is written after a fetch is the decoding of the fetched non-empty command |
| `GuiWorker.AfterScanContents` | xdjkgui.py:92-118 | only restore mode reads and posts a record, and the record posted is the one read, under the device name; only initialisation asks `apiinitdata`; what is written is the decoded command of the mode's endpoint |
| `GuiWorker.RestoreContents` | xdjkgui.py:92-103 | in restore mode the record posted is the one read from the device, under the device name, and nothing asks `apiinitdata`; what is written is the decoded non-empty 200 reply |
| `GuiWorker.ReadContents` | xdjkgui.py:95-118 | after the read, a posted record is exactly the record read (values and text) under the device name, and what is written is the decoded non-empty 200 reply |
| `GuiWorker.ReadPostOrder` | xdjkgui.py:95-103 | in the restore branch, the record is posted only after the characteristic was read |
| `GuiWorker.RunContents` | xdjkgui.py:84-118 | over the whole run, reads, posts and writes happen only in the mode that calls for them; a posted record is the one read from the device; what is written is the decoded command of the mode's 200 reply, for a device that was found |
| `GuiWorker.AfterScanReadsBeforePost` | xdjkgui.py:92-108 | after the scan, a record is posted only after the device was read |
| `GuiWorker.RunReadsBeforePost` | xdjkgui.py:84-103 | over a whole run, every record posted to the exchange service comes after a read of the device |
| `GuiWorker.EmptyCommandNotWritten` | xdjkgui.py:110-113 | a 200 reply with an empty body never leads to a write, and the run fails |
| `GuiWorker.PoweringNotifies` | xdjkgui.py:292-295 | in the write stage the subscription precedes the write |
| `GuiWorker.AfterFetchNotifies` | xdjkgui.py:116-118 | the same after a fetch |
| `GuiWorker.AfterScanNotifies` | xdjkgui.py:92-118 | the same after the scan |
| `GuiWorker.ReadNotifies` | xdjkgui.py:95-118 | the same after the read |
| `GuiWorker.RunNotifiesBeforeWrite` | xdjkgui.py:66-125 | every write of a run comes after a notification subscription |
| `GuiWorker.EmptyAddressStops` | xdjkgui.py:85-87 | a device found with an empty address stops the run right after the scan |
| `CliScript.ModeOf` | main.py:209-210 | `""` and `"1"` select restore, `"2"` initialisation; every other input is an input error |
| `CliScript.ScriptRun` | main.py:189-242 | the script prints its usage notes first |
| `CliScript.Script` | main.py:189-239 | the top-level statements print and end as the script rule says |
| `CliScript.AfterScan` | main.py:209-239 | the part after the scan prints and ends as the mode's branch says |
| `CliScript.Power` | main.py:219-226 | the part after a fetch exits on `None` and otherwise writes |
| `CliScript.FoundStage` | main.py:209-239 | the mode's branch after a found device; stated by `FoundStageFacts`, `FoundContents`, `FoundNotifies` and `FoundReadsBeforePost` |
| `CliScript.AfterRead` | main.py:211-226 | the restore branch from the read on: a bare `None` cannot be unpacked, `(None, None)` exits, a record is posted; stated by `ReadStageFacts`, `ReadContents` and `ReadPostOrder` |
| `CliScript.InitStage` | main.py:228-236 | initialisation: ask for the command and write it; stated by `InitStageFacts` |
| `CliScript.FetchedStage` | main.py:219-224 | after a fetch, `None` exits and any other body, even an empty one, is written; stated by `FetchedStageFacts` and `FetchedContents` |
| `CliScript.WriteStage` | main.py:223-224 | the write, where a body that is not hex raises out of the script; stated by `WriteStageFacts` |
| `CliScript.WriteStageFacts` | main.py:91-103 | the write crashes with `ValueError` exactly when the body is not hex; success is printed exactly when the link lets the write through |
| `CliScript.FetchedStageFacts` | main.py:219-224 | a `None` fetch exits; any other body is written, or crashes the script when it is not hex |
| `CliScript.FoundStageFacts` | main.py:209-239 | how the mode's branch ends, by the mode, the read and the reply |
| `CliScript.InitStageFacts` | main.py:227-236 | initialisation exits unless the reply is 200; otherwise it writes the body or crashes on bad hex |
| `CliScript.ReadStageFacts` | main.py:212-226 | a bare `None` crashes with `TypeError`, `(None, None)` exits, and a record is posted under the typed name and leads to the write |
| `CliScript.ScriptEnding` | main.py:189-242 | the script crashes with `TypeError` exactly for an unreadable characteristic in restore mode, crashes with `ValueError` exactly for a 200 body that is not hex, completes exactly for a bad mode or a written command, and prints success exactly when the write went through |
| `CliScript.EmptyNameExits` | main.py:196-199 | an empty device name exits before any scan |
| `CliScript.EmptyBodyWritten` | main.py:219-224 | a 200 reply with an empty body is written as zero bytes and the script reports success |
| `CliScript.EmptyAddressAccepted` | main.py:205-207 | a device found with an empty address is not treated as missing |
| `CliScript.FetchedContents` | main.py:219-224 | what is written after a fetch is the decoded body |
| `CliScript.FoundContents` | main.py:209-239 | after the scan, reads, posts and writes happen only in the mode that calls for them; a posted record is the one read from the device; what is written is the decoded command of the mode's 200 reply |
| `CliScript.RestoreContents` | main.py:211-226 | in restore mode the record posted is the one read from the device, under the typed name, and nothing asks `apiinitdata` |
| `CliScript.ReadContents` | main.py:212-224 | after the read, a posted record is exactly the record read (values and text) under the typed name, and what is written is the decoded 200 reply |
| `CliScript.ReadPostOrder` | main.py:212-218 | in the restore branch, the record is posted only after the characteristic was read |
| `CliScript.ScriptContents` | main.py:189-242 | over the whole script: a scan only for a non-empty name, reads and posts only in their mode, a posted record is the one read from the device, and writes only of the decoded command |
| `CliScript.FoundReadsBeforePost` | main.py:209-239 | after the scan, a record is posted only after the device was read |
| `CliScript.ScriptReadsBeforePost` | main.py:189-242 | over the whole script, every record posted to the exchange service comes after a read of the device |
| `CliScript.FetchedNotifies` | main.py:96-97 | the subscription precedes the write after a fetch |
| `CliScript.FoundNotifies` | main.py:209-239 | the same after the scan |
| `CliScript.ReadNotifies` | main.py:212-224 | the same after the read |
| `CliScript.ScriptNotifiesBeforeWrite` | main.py:189-242 | every write of the script comes after a notification subscription |

## Left out

- The PyQt user interface: `MainWindow` and everything from `xdjkgui.py` line 338 on (layout,
  styles, message boxes, starting and stopping the thread, colouring log lines). It is UI only.
- `build_config.py` and `config.py`: build-time configuration read from the environment, and
  the GUI's exit when the configuration is missing. The base URL and the UUIDs are kept as
  opaque constants.
- Bleak transport details: connection timeouts, `use_cached_services`, the `asyncio` event
  loops, and the length of the two-second `sleep`. Each Bluetooth call is an outcome in
  `World.Outcomes`: found or not, bytes or an exception, success or an exception. Errors from
  leaving the connection context are not modelled.
- The network: `requests.post` and `requests.get` are modelled only by their status and body,
  or an exception. The `apideviceinfo` upload is a `Posted` event whose outcome decides only
  whether the handler raises.
- Concurrency between the notification callback and the write: notifications are delivered in
  order during the settle wait after a successful write. An exception re-raised by the GUI
  handler stays in the transport's callback and does not change `connect_and_write`. Signal
  delivery to the GUI thread is an ordered trace.
- The commented-out field map in `main.py` (lines 26-63). It is never executed.
- `KeyboardInterrupt` and the "press any key" `input()` prompts of the console script. The
  answers to the two meaningful prompts (name and mode) are parameters.
- In `main.py`, `BleakScanner()` is constructed outside the `try`. A raise from the
  constructor itself is not modelled; a raise from `discover()` is.
- Message wording: log and print lines are identified by meaning (`Events.Msg`), not by their
  Chinese text or their f-string details. The GUI's read-exception text (type and message of
  the exception) is not modelled.
- Python's `None`-versus-empty truthiness is modelled only where the code tests it: `not x`
  for the address, the command, the record list and the record text in the GUI, and `is None`
  in the console script.
