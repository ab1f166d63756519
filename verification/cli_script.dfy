/**
 * The console script: print the usage notes, ask for the device name (an empty one ends the
 * script), scan, ask for the run mode ("" or "1" restore, "2" initialise, anything else is an
 * input error), obtain the command and write it. Every failure that the helpers report as
 * `None` ends the script through `sys.exit`; a bare `None` from the read and a `ValueError`
 * from `fromhex` are not caught and end it with a traceback.
 */
module CliScript {
  import opened Wrappers
  import opened Py
  import opened Hex
  import opened Events
  import opened Locator
  import opened Gatt
  import opened Exchange
  import opened Writer
  import opened World
  import Telemetry

  datatype Mode = Restore | Initialize

  /** The run-mode prompt: an empty answer selects a restore. */
  function ModeOf(input: string): (m: Option<Mode>)
    ensures m.None? <==> input != "" && input != "1" && input != "2"
    ensures m == Some(Restore) <==> input == "" || input == "1"
    ensures m == Some(Initialize) <==> input == "2"
  {
    if input == "" || input == "1" then Some(Restore)
    else if input == "2" then Some(Initialize)
    else None
  }

  /** The uncaught exceptions that can end the script. */
  datatype PyError =
    | TypeError   // unpacking the bare `None` of a characteristic that cannot be read
    | ValueError  // `bytearray.fromhex` on a body that is not hex

  /** How the script ends: through `sys.exit`, by running to its end, or with an uncaught exception. */
  datatype Ending = Exited | Completed | Crashed(error: PyError)

  function Then(head: seq<Event>, rest: Step<Ending>): Step<Ending>
  {
    Step(head + rest.events, rest.value)
  }

  /** Writing the command; a body that is not hex raises out of the script. */
  function WriteStage(name: string, command: string, link: WriteLink): (r: Step<Ending>)
  {
    var write := WriteOutcome(Cli, name, command, link);
    Step(write.events, if write.value == HexRejected then Crashed(ValueError) else Completed)
  }

  /** After a fetch: `None` exits, any other body (even an empty one) is written. */
  function FetchedStage(name: string, fetch: Step<Option<string>>, link: WriteLink): (r: Step<Ending>)
  {
    Then(fetch.events,
      if fetch.value.None? then Step([], Exited)
      else Then([Log(PoweringOn)], WriteStage(name, fetch.value.value, link)))
  }

  /** After the device was found: the mode prompt and the mode's branch. */
  function FoundStage(name: string, modeInput: string, world: Outcomes): (r: Step<Ending>)
  {
    match ModeOf(modeInput)
    case None => Step([Log(InputError)], Completed)
    case Some(Initialize) => Then([Log(FetchingInit)], InitStage(name, world))
    case Some(Restore) => AfterRead(name, ReadOutcome(Cli, world.readLink), world)
  }

  /** Initialisation: ask for the command and write it. */
  function InitStage(name: string, world: Outcomes): (r: Step<Ending>)
  {
    FetchedStage(name, FetchInit(Cli, name, world.initReply), world.writeLink)
  }

  /** A restore from the read on: a bare `None` cannot be unpacked, `(None, None)` exits, a record is posted. */
  function AfterRead(name: string, read: Step<ReadReturn>, world: Outcomes): (r: Step<Ending>)
  {
    Then([Log(ReadingInfo)] + read.events,
      match read.value
      case BareNone => Step([], Crashed(TypeError))
      case NonePair => Step([], Exited)
      case Fields(data, info) =>
        Then([Log(FetchingRestore)],
          FetchedStage(name, FetchRestore(Cli, data, name, info, world.restoreReply), world.writeLink)))
  }

  /** The whole script for the two answers typed at its prompts. */
  function ScriptRun(nameInput: string, modeInput: string, world: Outcomes): (r: Step<Ending>)
    ensures |r.events| > 0 && r.events[0] == Log(Banner)
  {
    Then([Log(Banner)],
      if nameInput == "" then Step([Log(EmptyName)], Exited)
      else
        var scan := ScanDevices(nameInput, world.scan);
        Then([Log(Searching)] + scan.events,
          if scan.value.None? then Step([], Exited)
          else FoundStage(nameInput, modeInput, world)))
  }

  /** The script's top level, statement by statement. */
  method Script(nameInput: string, modeInput: string, world: Outcomes) returns (console: seq<Event>, ending: Ending)
    ensures Step(console, ending) == ScriptRun(nameInput, modeInput, world)
  {
    console := [Log(Banner)];
    var deviceName := nameInput;
    if deviceName == "" {
      return console + [Log(EmptyName)], Exited;
    }
    var scan := ScanDevices(deviceName, world.scan);
    var searched := [Log(Searching)] + scan.events;
    var deviceAddress := scan.value;
    if deviceAddress.None? {
      assert ScriptRun(nameInput, modeInput, world) == Then(console, Then(searched, Step([], Exited)));
      return console + searched, Exited;
    }
    var rest, end := AfterScan(deviceName, modeInput, world);
    assert ScriptRun(nameInput, modeInput, world) == Then(console, Then(searched, Step(rest, end)));
    return console + (searched + rest), end;
  }

  /** The part of the script after the device was found. */
  method AfterScan(deviceName: string, modeInput: string, world: Outcomes) returns (console: seq<Event>, ending: Ending)
    ensures Step(console, ending) == FoundStage(deviceName, modeInput, world)
  {
    var runMode := ModeOf(modeInput);
    if runMode.None? {
      return [Log(InputError)], Completed;
    }
    var fetch: Step<Option<string>>;
    if runMode == Some(Restore) {
      var readEvents, ret := ReadCharacteristic(Cli, world.readLink);
      console := [Log(ReadingInfo)] + readEvents;
      if ret.BareNone? {
        return console, Crashed(TypeError);
      }
      if ret.NonePair? {
        return console, Exited;
      }
      console := console + [Log(FetchingRestore)];
      fetch := FetchRestore(Cli, ret.data, deviceName, ret.info, world.restoreReply);
      var rest, end := Power(deviceName, fetch, world.writeLink);
      assert FoundStage(deviceName, modeInput, world) == Then([Log(ReadingInfo)] + readEvents, Then([Log(FetchingRestore)], Step(rest, end)));
      return console + rest, end;
    } else {
      fetch := FetchInit(Cli, deviceName, world.initReply);
      var rest, end := Power(deviceName, fetch, world.writeLink);
      return [Log(FetchingInit)] + rest, end;
    }
  }

  /** The part of the script after a fetch: check for `None`, then write. */
  method Power(deviceName: string, fetch: Step<Option<string>>, link: WriteLink) returns (console: seq<Event>, ending: Ending)
    ensures Step(console, ending) == FetchedStage(deviceName, fetch, link)
  {
    console := fetch.events;
    var result := fetch.value;
    if result.None? {
      return console, Exited;
    }
    console := console + [Log(PoweringOn)];
    var writeEvents, written := ConnectAndWrite(Cli, deviceName, result.value, link);
    console := console + writeEvents;
    ending := if written == HexRejected then Crashed(ValueError) else Completed;
  }

  /** The endpoint a mode asks for its command. */
  function CommandReply(m: Mode, world: Outcomes): HttpReply
  {
    match m
    case Restore => world.restoreReply
    case Initialize => world.initReply
  }

  /** The script got past the name prompt and the scan; unlike the GUI it accepts an empty address. */
  predicate Found(nameInput: string, world: Outcomes)
  {
    nameInput != "" && ScanDevices(nameInput, world.scan).value.Some?
  }

  /** The mode is valid, a restore read the record, and the mode's endpoint answered 200. */
  predicate CommandObtained(modeInput: string, world: Outcomes)
  {
    match ModeOf(modeInput)
    case None => false
    case Some(m) =>
      && (m == Restore ==> ReadOutcome(Cli, world.readLink).value.Fields?)
      && CommandReply(m, world).Reply? && CommandReply(m, world).status == 200
  }

  /** The command body of an obtained command. */
  function Command(modeInput: string, world: Outcomes): string
    requires CommandObtained(modeInput, world)
  {
    CommandReply(ModeOf(modeInput).value, world).text
  }

  lemma WriteStageFacts(name: string, command: string, link: WriteLink)
    ensures var r := WriteStage(name, command, link);
      && (r.value == Crashed(ValueError) <==> FromHex(command).None?)
      && (r.value == Completed <==> FromHex(command).Some?)
      && (Log(PowerOn) in r.events <==> Writable(command, link))
  {
    WrittenIff(Cli, name, command, link);
  }

  lemma FetchedStageFacts(name: string, fetch: Step<Option<string>>, link: WriteLink)
    requires Log(PowerOn) !in fetch.events
    ensures var r := FetchedStage(name, fetch, link);
      && (r.value == Exited <==> fetch.value.None?)
      && (r.value == Crashed(ValueError) <==> fetch.value.Some? && FromHex(fetch.value.value).None?)
      && (r.value == Completed <==> fetch.value.Some? && FromHex(fetch.value.value).Some?)
      && (r.value.Crashed? ==> r.value.error == ValueError)
      && (Log(PowerOn) in r.events <==> fetch.value.Some? && Writable(fetch.value.value, link))
  {
    if fetch.value.Some? {
      WriteStageFacts(name, fetch.value.value, link);
    }
  }

  lemma FoundStageFacts(name: string, modeInput: string, world: Outcomes)
    ensures var r := FoundStage(name, modeInput, world);
      && (r.value == Crashed(TypeError) <==>
        ModeOf(modeInput) == Some(Restore) && ReadOutcome(Cli, world.readLink).value.BareNone?)
      && (r.value == Crashed(ValueError) <==>
        CommandObtained(modeInput, world) && FromHex(Command(modeInput, world)).None?)
      && (r.value == Completed <==>
        ModeOf(modeInput).None? || (CommandObtained(modeInput, world) && FromHex(Command(modeInput, world)).Some?))
      && (Log(PowerOn) in r.events <==>
        CommandObtained(modeInput, world) && Writable(Command(modeInput, world), world.writeLink))
  {
    match ModeOf(modeInput)
    case None =>
    case Some(Initialize) =>
      InitBranchFacts(name, modeInput, world);
    case Some(Restore) =>
      RestoreBranchFacts(name, modeInput, world);
  }

  lemma InitBranchFacts(name: string, modeInput: string, world: Outcomes)
    requires ModeOf(modeInput) == Some(Initialize)
    ensures var r := FoundStage(name, modeInput, world);
      && r.value != Crashed(TypeError)
      && (r.value == Crashed(ValueError) <==>
        CommandObtained(modeInput, world) && FromHex(Command(modeInput, world)).None?)
      && (r.value == Completed <==>
        CommandObtained(modeInput, world) && FromHex(Command(modeInput, world)).Some?)
      && (Log(PowerOn) in r.events <==>
        CommandObtained(modeInput, world) && Writable(Command(modeInput, world), world.writeLink))
  {
    InitStageFacts(name, world);
    assert FoundStage(name, modeInput, world) == Then([Log(FetchingInit)], InitStage(name, world));
  }

  lemma RestoreBranchFacts(name: string, modeInput: string, world: Outcomes)
    requires ModeOf(modeInput) == Some(Restore)
    ensures var r := FoundStage(name, modeInput, world);
      && (r.value == Crashed(TypeError) <==> ReadOutcome(Cli, world.readLink).value.BareNone?)
      && (r.value == Crashed(ValueError) <==>
        CommandObtained(modeInput, world) && FromHex(Command(modeInput, world)).None?)
      && (r.value == Completed <==>
        CommandObtained(modeInput, world) && FromHex(Command(modeInput, world)).Some?)
      && (Log(PowerOn) in r.events <==>
        CommandObtained(modeInput, world) && Writable(Command(modeInput, world), world.writeLink))
  {
    var read := ReadOutcome(Cli, world.readLink);
    var reply := world.restoreReply;
    assert Log(PowerOn) !in read.events;
    ReadStageFacts(name, read, world);
    assert FoundStage(name, modeInput, world) == AfterRead(name, read, world);
    assert CommandObtained(modeInput, world) <==> read.value.Fields? && reply.Reply? && reply.status == 200;
  }

  lemma InitStageFacts(name: string, world: Outcomes)
    ensures var r := InitStage(name, world);
      var reply := world.initReply;
      && (r.value == Exited <==> !(reply.Reply? && reply.status == 200))
      && (r.value == Crashed(ValueError) <==> reply.Reply? && reply.status == 200 && FromHex(reply.text).None?)
      && (r.value == Completed <==> reply.Reply? && reply.status == 200 && FromHex(reply.text).Some?)
      && (Log(PowerOn) in r.events <==> reply.Reply? && reply.status == 200 && Writable(reply.text, world.writeLink))
  {
    var fetch := FetchInit(Cli, name, world.initReply);
    FetchedStageFacts(name, fetch, world.writeLink);
    if world.initReply.Reply? {
      CommandOnlyOn200(Cli, world.initReply, world.initReply.text);
    }
  }

  lemma ReadStageFacts(name: string, read: Step<ReadReturn>, world: Outcomes)
    requires Log(PowerOn) !in read.events
    ensures var r := AfterRead(name, read, world);
      var reply := world.restoreReply;
      && (r.value == Crashed(TypeError) <==> read.value.BareNone?)
      && (r.value == Crashed(ValueError) <==>
        read.value.Fields? && reply.Reply? && reply.status == 200 && FromHex(reply.text).None?)
      && (r.value == Completed <==>
        read.value.Fields? && reply.Reply? && reply.status == 200 && FromHex(reply.text).Some?)
      && (Log(PowerOn) in r.events <==>
        read.value.Fields? && reply.Reply? && reply.status == 200 && Writable(reply.text, world.writeLink))
    ensures read.value.Fields? ==>
      Posted(GetData(read.value.data, name, read.value.info)) in AfterRead(name, read, world).events
  {
    if read.value.Fields? {
      var fetch := FetchRestore(Cli, read.value.data, name, read.value.info, world.restoreReply);
      FetchedStageFacts(name, fetch, world.writeLink);
      if world.restoreReply.Reply? {
        CommandOnlyOn200(Cli, world.restoreReply, world.restoreReply.text);
      }
    }
  }

  /**
   * How the script ends: a traceback from unpacking a bare `None` exactly when a restore meets a
   * characteristic it may not read; a traceback from `fromhex` exactly when an obtained command is
   * not hex; a normal end after an input error or an attempted write; `sys.exit` otherwise. It
   * reports power on exactly when the command decodes and the subscription and the write succeed.
   */
  lemma ScriptEnding(nameInput: string, modeInput: string, world: Outcomes)
    ensures var r := ScriptRun(nameInput, modeInput, world);
      && (r.value == Crashed(TypeError) <==>
        Found(nameInput, world) && ModeOf(modeInput) == Some(Restore) && ReadOutcome(Cli, world.readLink).value.BareNone?)
      && (r.value == Crashed(ValueError) <==>
        Found(nameInput, world) && CommandObtained(modeInput, world) && FromHex(Command(modeInput, world)).None?)
      && (r.value == Completed <==>
        Found(nameInput, world) &&
        (ModeOf(modeInput).None? || (CommandObtained(modeInput, world) && FromHex(Command(modeInput, world)).Some?)))
      && (Log(PowerOn) in r.events <==>
        Found(nameInput, world) && CommandObtained(modeInput, world) && Writable(Command(modeInput, world), world.writeLink))
  {
    if Found(nameInput, world) {
      FoundStageFacts(nameInput, modeInput, world);
      var scan := ScanDevices(nameInput, world.scan);
      assert Log(PowerOn) !in [Log(Banner)] + ([Log(Searching)] + scan.events);
    }
  }

  /** An empty device name ends the script before any scan. */
  lemma EmptyNameExits(modeInput: string, world: Outcomes)
    ensures ScriptRun("", modeInput, world) == Step([Log(Banner), Log(EmptyName)], Exited)
  {
  }

  /** A 200 reply with an empty body is written as zero bytes, unlike in the GUI. */
  lemma EmptyBodyWritten(nameInput: string, modeInput: string, world: Outcomes)
    requires Found(nameInput, world) && CommandObtained(modeInput, world)
    requires Command(modeInput, world) == ""
    requires world.writeLink.WriteLink? && !world.writeLink.notifyRaises && !world.writeLink.writeRaises
    ensures ScriptRun(nameInput, modeInput, world).value == Completed
    ensures Log(PowerOn) in ScriptRun(nameInput, modeInput, world).events
  {
    assert FromHex("") == Some([]);
    ScriptEnding(nameInput, modeInput, world);
  }

  /** The script goes on with an empty address, where the GUI stops. */
  lemma EmptyAddressAccepted(nameInput: string, world: Outcomes)
    requires nameInput != "" && ScanDevices(nameInput, world.scan).value == Some("")
    ensures Posted(InitData(nameInput)) in ScriptRun(nameInput, "2", world).events
  {
    var fetch := FetchInit(Cli, nameInput, world.initReply);
    assert FoundStage(nameInput, "2", world).events[1] == Posted(InitData(nameInput));
  }

  lemma FetchedContents(name: string, fetch: Step<Option<string>>, link: WriteLink, e: Event)
    requires e in FetchedStage(name, fetch, link).events
    ensures e in fetch.events || (
      && (e.Posted? ==> e.request.DeviceInfo?) && !e.ReadIssued? && !e.ScanStarted?
      && (e.WriteIssued? ==> fetch.value.Some? && FromHex(fetch.value.value) == Some(e.bytes)))
  {
    if e !in fetch.events && fetch.value.Some? {
      var write := WriteOutcome(Cli, name, fetch.value.value, link);
      if e in write.events {
        WriteEvents(Cli, name, fetch.value.value, link);
        if e.WriteIssued? {
          WriteIssuedIff(Cli, name, fetch.value.value, link, e.bytes);
        }
      }
    }
  }

  lemma FoundContents(name: string, modeInput: string, world: Outcomes, e: Event)
    requires e in FoundStage(name, modeInput, world).events
    ensures e.ReadIssued? ==> ModeOf(modeInput) == Some(Restore)
    ensures e.Posted? && e.request.GetData? ==>
      && ModeOf(modeInput) == Some(Restore) && e.request.name == name
      && ReadOutcome(Cli, world.readLink).value.Fields?
      && e.request.data == ReadOutcome(Cli, world.readLink).value.data
      && e.request.info == ReadOutcome(Cli, world.readLink).value.info
      && Telemetry.Decode(e.request.info) == Success(e.request.data)
    ensures e.Posted? && e.request.InitData? ==> ModeOf(modeInput) == Some(Initialize) && e.request.name == name
    ensures e.WriteIssued? ==> CommandObtained(modeInput, world) && FromHex(Command(modeInput, world)) == Some(e.bytes)
    ensures !e.ScanStarted?
  {
    match ModeOf(modeInput)
    case None =>
    case Some(Initialize) =>
      var fetch := FetchInit(Cli, name, world.initReply);
      if e in FetchedStage(name, fetch, world.writeLink).events {
        FetchedContents(name, fetch, world.writeLink, e);
        if world.initReply.Reply? {
          CommandOnlyOn200(Cli, world.initReply, world.initReply.text);
        }
      }
    case Some(Restore) =>
      RestoreContents(name, modeInput, world, e);
  }

  lemma RestoreContents(name: string, modeInput: string, world: Outcomes, e: Event)
    requires ModeOf(modeInput) == Some(Restore)
    requires e in FoundStage(name, modeInput, world).events
    ensures e.ReadIssued? ==> ModeOf(modeInput) == Some(Restore)
    ensures e.Posted? && e.request.GetData? ==>
      && e.request.name == name
      && ReadOutcome(Cli, world.readLink).value.Fields?
      && e.request.data == ReadOutcome(Cli, world.readLink).value.data
      && e.request.info == ReadOutcome(Cli, world.readLink).value.info
      && Telemetry.Decode(e.request.info) == Success(e.request.data)
    ensures !(e.Posted? && e.request.InitData?)
    ensures e.WriteIssued? ==> CommandObtained(modeInput, world) && FromHex(Command(modeInput, world)) == Some(e.bytes)
    ensures !e.ScanStarted?
  {
    var read := ReadOutcome(Cli, world.readLink);
    ReadContents(name, read, world, e);
  }

  lemma ReadContents(name: string, read: Step<ReadReturn>, world: Outcomes, e: Event)
    requires forall e <- read.events :: e.Log? || e == Connecting || e == ReadIssued
    requires read.value.Fields? ==> Telemetry.Decode(read.value.info) == Success(read.value.data)
    requires e in AfterRead(name, read, world).events
    ensures e.Posted? && e.request.GetData? ==>
      && e.request.name == name
      && read.value.Fields? && e.request.data == read.value.data && e.request.info == read.value.info
      && Telemetry.Decode(e.request.info) == Success(e.request.data)
    ensures !(e.Posted? && e.request.InitData?)
    ensures e.WriteIssued? ==>
      && read.value.Fields? && world.restoreReply.Reply? && world.restoreReply.status == 200
      && FromHex(world.restoreReply.text) == Some(e.bytes)
    ensures !e.ScanStarted?
  {
    var head := [Log(ReadingInfo)] + read.events;
    if e in head {
      assert e.Log? || e == Connecting || e == ReadIssued;
    } else if read.value.Fields? {
      var fetch := FetchRestore(Cli, read.value.data, name, read.value.info, world.restoreReply);
      var fetched := FetchedStage(name, fetch, world.writeLink).events;
      assert AfterRead(name, read, world).events == head + ([Log(FetchingRestore)] + fetched);
      if e in fetched {
        FetchedContents(name, fetch, world.writeLink, e);
        if world.restoreReply.Reply? {
          CommandOnlyOn200(Cli, world.restoreReply, world.restoreReply.text);
        }
      }
    }
  }

  /**
   * What each operation of the script rests on: the scan needs a name; the device is read only
   * for a restore; the record is posted only for a restore, under the typed name, with the values
   * the record text decodes to; initialisation is requested only for mode "2"; and the bytes
   * written are the decoded body of the mode's 200 reply, sent to a device that was found.
   */
  lemma ScriptContents(nameInput: string, modeInput: string, world: Outcomes, e: Event)
    requires e in ScriptRun(nameInput, modeInput, world).events
    ensures e.ScanStarted? ==> nameInput != ""
    ensures e.ReadIssued? ==> ModeOf(modeInput) == Some(Restore)
    ensures e.Posted? && e.request.GetData? ==>
      && ModeOf(modeInput) == Some(Restore) && e.request.name == nameInput
      && ReadOutcome(Cli, world.readLink).value.Fields?
      && e.request.data == ReadOutcome(Cli, world.readLink).value.data
      && e.request.info == ReadOutcome(Cli, world.readLink).value.info
      && Telemetry.Decode(e.request.info) == Success(e.request.data)
    ensures e.Posted? && e.request.InitData? ==> ModeOf(modeInput) == Some(Initialize) && e.request.name == nameInput
    ensures e.WriteIssued? ==>
      Found(nameInput, world) && CommandObtained(modeInput, world) && FromHex(Command(modeInput, world)) == Some(e.bytes)
  {
    if Found(nameInput, world) && e in FoundStage(nameInput, modeInput, world).events {
      FoundContents(nameInput, modeInput, world, e);
    }
  }

  lemma FetchedNotifies(name: string, fetch: Step<Option<string>>, link: WriteLink)
    requires forall e <- fetch.events :: !e.WriteIssued?
    ensures NotifyBeforeWrite(FetchedStage(name, fetch, link).events)
  {
    if fetch.value.Some? {
      var write := WriteOutcome(Cli, name, fetch.value.value, link);
      WriteIssuedIff(Cli, name, fetch.value.value, link, []);
      NotifyBeforeWriteAppend([Log(PoweringOn)], write.events);
      NotifyBeforeWriteAppend(fetch.events, [Log(PoweringOn)] + write.events);
    } else {
      NotifyBeforeWriteAppend(fetch.events, []);
    }
  }

  lemma FoundNotifies(name: string, modeInput: string, world: Outcomes)
    ensures NotifyBeforeWrite(FoundStage(name, modeInput, world).events)
  {
    match ModeOf(modeInput)
    case None =>
    case Some(Initialize) =>
      var fetch := FetchInit(Cli, name, world.initReply);
      FetchedNotifies(name, fetch, world.writeLink);
      NotifyBeforeWriteAppend([Log(FetchingInit)], FetchedStage(name, fetch, world.writeLink).events);
    case Some(Restore) =>
      var read := ReadOutcome(Cli, world.readLink);
      assert forall e <- read.events :: !e.WriteIssued?;
      ReadNotifies(name, read, world);
  }

  lemma ReadNotifies(name: string, read: Step<ReadReturn>, world: Outcomes)
    requires forall e <- read.events :: !e.WriteIssued?
    ensures NotifyBeforeWrite(AfterRead(name, read, world).events)
  {
    var head := [Log(ReadingInfo)] + read.events;
    assert forall e <- head :: !e.WriteIssued?;
    if read.value.Fields? {
      var fetch := FetchRestore(Cli, read.value.data, name, read.value.info, world.restoreReply);
      var fetched := FetchedStage(name, fetch, world.writeLink).events;
      FetchedNotifies(name, fetch, world.writeLink);
      NotifyBeforeWriteAppend([Log(FetchingRestore)], fetched);
      NotifyBeforeWriteAppend(head, [Log(FetchingRestore)] + fetched);
    } else {
      NotifyBeforeWriteAppend(head, []);
    }
  }

  /** A restore posts the record only after the characteristic was read. */
  lemma ReadPostOrder(name: string, read: Step<ReadReturn>, world: Outcomes)
    requires forall e <- read.events :: e.Log? || e == Connecting || e == ReadIssued
    requires read.value.Fields? ==> ReadIssued in read.events
    ensures ReadBeforePost(AfterRead(name, read, world).events)
  {
    var head := [Log(ReadingInfo)] + read.events;
    assert forall e <- head :: !PostsRecord(e);
    ReadBeforePostNoPost(head);
    if read.value.Fields? {
      var fetch := FetchRestore(Cli, read.value.data, name, read.value.info, world.restoreReply);
      var rest := [Log(FetchingRestore)] + FetchedStage(name, fetch, world.writeLink).events;
      assert ReadIssued in head;
      ReadBeforePostAfterRead(head, rest);
      assert AfterRead(name, read, world).events == head + rest;
    } else {
      assert AfterRead(name, read, world).events == head + [];
    }
  }

  lemma FoundReadsBeforePost(name: string, modeInput: string, world: Outcomes)
    ensures ReadBeforePost(FoundStage(name, modeInput, world).events)
  {
    var events := FoundStage(name, modeInput, world).events;
    if ModeOf(modeInput) == Some(Restore) {
      ReadShape(Cli, world.readLink);
      ReadPostOrder(name, ReadOutcome(Cli, world.readLink), world);
    } else {
      forall e <- events
        ensures !PostsRecord(e)
      {
        FoundContents(name, modeInput, world, e);
      }
      ReadBeforePostNoPost(events);
    }
  }

  /** The script posts a record to the exchange service only after it read the device. */
  lemma ScriptReadsBeforePost(nameInput: string, modeInput: string, world: Outcomes)
    ensures ReadBeforePost(ScriptRun(nameInput, modeInput, world).events)
  {
    if Found(nameInput, world) {
      var found := FoundStage(nameInput, modeInput, world).events;
      FoundReadsBeforePost(nameInput, modeInput, world);
      var scan := ScanDevices(nameInput, world.scan);
      ReadBeforePostPrefix([Log(Searching)] + scan.events, found);
      ReadBeforePostPrefix([Log(Banner)], [Log(Searching)] + scan.events + found);
    } else {
      ReadBeforePostNoPost(ScriptRun(nameInput, modeInput, world).events);
    }
  }

  /** Every write of the script comes after a notification subscription. */
  lemma ScriptNotifiesBeforeWrite(nameInput: string, modeInput: string, world: Outcomes)
    ensures NotifyBeforeWrite(ScriptRun(nameInput, modeInput, world).events)
  {
    if Found(nameInput, world) {
      var found := FoundStage(nameInput, modeInput, world).events;
      FoundNotifies(nameInput, modeInput, world);
      var scan := ScanDevices(nameInput, world.scan);
      NotifyBeforeWriteAppend([Log(Searching)] + scan.events, found);
      NotifyBeforeWriteAppend([Log(Banner)], [Log(Searching)] + scan.events + found);
    }
  }
}
