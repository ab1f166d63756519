/**
 * The GUI's worker thread: `BluetoothWorker.run` scans for the device, obtains the command
 * (restore mode "1" reads the device record and posts it; any other mode asks for the
 * initialisation command), writes it, and reports through log, progress and finished signals.
 * Any exception that reaches `run` ends it with a failed finished signal.
 */
module GuiWorker {
  import opened Wrappers
  import opened Py
  import opened Hex
  import opened Events
  import opened Locator
  import opened Gatt
  import opened Exchange
  import opened Writer
  import opened World
  import Telemetry
  import Notification

  /** The mode string that selects a restore; every other string selects initialisation. */
  const RestoreMode: string := "1"

  /** The progress values of a complete run, in order. */
  const Ladder: seq<int> := [20, 40, 60, 80, 100]

  /** Last stage: write the command; a decoding or link failure reaches `run` as an exception. */
  function Powering(name: string, command: string, link: WriteLink): (t: seq<Event>)
  {
    var write := WriteOutcome(Gui, name, command, link);
    write.events + (if write.value == Written then [Progress(100), Finished(true)] else [Finished(false)])
  }

  /** After a fetch: an absent or empty command fails the run, any other is written. */
  function AfterFetch(name: string, fetch: Step<Option<string>>, world: Outcomes): (t: seq<Event>)
  {
    fetch.events +
      if fetch.value.None? || fetch.value.value == "" then [Log(FetchFailed), Finished(false)]
      else [Progress(80), Log(PoweringOn)] + Powering(name, fetch.value.value, world.writeLink)
  }

  /** After the device was found: obtain the command the mode calls for. */
  function AfterScan(name: string, mode: string, world: Outcomes): (t: seq<Event>)
  {
    if mode == RestoreMode then AfterRead(name, ReadOutcome(Gui, world.readLink), world)
    else [Progress(60), Log(FetchingInit)] + AfterFetch(name, FetchInit(Gui, name, world.initReply), world)
  }

  /** Restore mode from the read on: no record fails the run, a record is posted for its command. */
  function AfterRead(name: string, read: Step<ReadReturn>, world: Outcomes): (t: seq<Event>)
  {
    [Log(ReadingInfo)] + read.events +
      if !(read.value.Fields? && read.value.data != [] && read.value.info != "") then [Log(ReadInfoFailed), Finished(false)]
      else
        [Progress(60), Log(FetchingRestore)]
          + AfterFetch(name, FetchRestore(Gui, read.value.data, name, read.value.info, world.restoreReply), world)
  }

  /** Everything one `run` emits and issues, in order. */
  function RunTrace(name: string, mode: string, world: Outcomes): (t: seq<Event>)
  {
    var scan := ScanDevices(name, world.scan);
    [Log(Separator), Log(Searching), Progress(20)] + scan.events +
      if scan.value.None? || scan.value.value == "" then [Finished(false)]
      else [Progress(40)] + AfterScan(name, mode, world)
  }

  class BluetoothWorker {
    const deviceName: string
    const mode: string
    /** The address found by the last scan. */
    var deviceAddress: Option<string>
    /** The signals emitted and the operations issued so far. */
    var emitted: seq<Event>

    constructor (deviceName: string, mode: string)
      ensures this.deviceName == deviceName && this.mode == mode
      ensures deviceAddress.None? && emitted == []
    {
      this.deviceName := deviceName;
      this.mode := mode;
      deviceAddress := None;
      emitted := [];
    }

    /** `run`: the whole control flow of one attempt. */
    method Run(world: Outcomes)
      modifies this
      ensures deviceAddress == ScanDevices(deviceName, world.scan).value
      ensures emitted == old(emitted) + RunTrace(deviceName, mode, world)
    {
      var scan := ScanDevices(deviceName, world.scan);
      deviceAddress := scan.value;
      var t := [Log(Separator), Log(Searching), Progress(20)] + scan.events;
      if deviceAddress.None? || deviceAddress.value == "" {
        emitted := emitted + (t + [Finished(false)]);
        return;
      }
      var rest := ObtainAndWrite(world);
      emitted := emitted + (t + ([Progress(40)] + rest));
    }

    /** The part of `run` after the device was found. */
    method ObtainAndWrite(world: Outcomes) returns (t: seq<Event>)
      ensures t == AfterScan(deviceName, mode, world)
    {
      var fetch: Step<Option<string>>;
      if mode == RestoreMode {
        var readEvents, ret := ReadCharacteristic(Gui, world.readLink);
        t := [Log(ReadingInfo)] + readEvents;
        if !(ret.Fields? && ret.data != [] && ret.info != "") {
          return t + [Log(ReadInfoFailed), Finished(false)];
        }
        t := t + [Progress(60), Log(FetchingRestore)];
        fetch := FetchRestore(Gui, ret.data, deviceName, ret.info, world.restoreReply);
      } else {
        t := [Progress(60), Log(FetchingInit)];
        fetch := FetchInit(Gui, deviceName, world.initReply);
      }
      var rest := WriteCommand(fetch, world);
      t := t + rest;
    }

    /** The part of `run` after the fetch: check the command, write it, signal the end. */
    method WriteCommand(fetch: Step<Option<string>>, world: Outcomes) returns (t: seq<Event>)
      ensures t == AfterFetch(deviceName, fetch, world)
    {
      var result := fetch.value;
      if result.None? || result.value == "" {
        return fetch.events + [Log(FetchFailed), Finished(false)];
      }
      var writeEvents, written := ConnectAndWrite(Gui, deviceName, result.value, world.writeLink);
      t := fetch.events + ([Progress(80), Log(PoweringOn)] + writeEvents);
      if written != Written {
        return t + [Finished(false)];
      }
      return t + [Progress(100), Finished(true)];
    }
  }

  /** The reply that decides the command: apigetdata in restore mode, apiinitdata otherwise. */
  function CommandReply(mode: string, world: Outcomes): Exchange.HttpReply
  {
    if mode == RestoreMode then world.restoreReply else world.initReply
  }

  /**
   * What a found device needs from the world for the run to succeed: in restore mode a readable
   * record, a 200 reply with a non-empty body that decodes as hex, and a write connection on
   * which the subscription and the write succeed.
   */
  predicate CommandWritten(mode: string, world: Outcomes)
  {
    && (mode == RestoreMode ==> ReadOutcome(Gui, world.readLink).value.Fields?)
    && CommandReply(mode, world).Reply? && CommandReply(mode, world).status == 200
    && CommandReply(mode, world).text != ""
    && Writable(CommandReply(mode, world).text, world.writeLink)
  }

  /** What a successful run needs from the world: a device with a non-empty address, then the above. */
  predicate RunSucceeds(name: string, mode: string, world: Outcomes)
  {
    var address := ScanDevices(name, world.scan).value;
    address.Some? && address.value != "" && CommandWritten(mode, world)
  }

  /**
   * A stage of `run` that starts at position k of the ladder: it ends with its only finished
   * signal, emits a prefix of the remaining progress values, and all of them exactly when it
   * ends in success.
   */
  predicate Staged(t: seq<Event>, k: nat)
    requires k <= |Ladder|
  {
    && EndsWithFinished(t)
    && Progresses(t) <= Ladder[k..]
    && (t[|t| - 1] == Finished(true) <==> Progresses(t) == Ladder[k..])
  }

  /** The write stage succeeds exactly when the command decodes and the link lets it through. */
  lemma PoweringSignals(name: string, command: string, link: WriteLink)
    ensures Staged(Powering(name, command, link), 4)
    ensures var t := Powering(name, command, link);
      t[|t| - 1] == Finished(true) <==> Writable(command, link)
  {
    var write := WriteOutcome(Gui, name, command, link);
    WrittenIff(Gui, name, command, link);
    WriteTail(write.events, write.value == Written);
  }

  /** The write's events, then success with the last progress value, or failure. */
  lemma WriteTail(events: seq<Event>, written: bool)
    requires NoSignals(events)
    ensures var t := events + (if written then [Progress(100), Finished(true)] else [Finished(false)]);
      Staged(t, 4) && t[|t| - 1] == Finished(written)
  {
    ProgressesNoSignals(events);
    var tail := if written then [Progress(100), Finished(true)] else [Finished(false)];
    ProgressesAppend(events, tail);
    EndsWithFinishedAppend(events, tail);
    ProgressesCons(Finished(written), []);
    if written {
      ProgressesCons(Progress(100), [Finished(true)]);
      assert tail == [Progress(100)] + [Finished(true)];
    }
  }

  /** After the fetch, the run succeeds exactly when a non-empty command came back and was written. */
  lemma AfterFetchSignals(name: string, fetch: Step<Option<string>>, world: Outcomes)
    requires NoSignals(fetch.events)
    ensures Staged(AfterFetch(name, fetch, world), 3)
    ensures var t := AfterFetch(name, fetch, world);
      t[|t| - 1] == Finished(true) <==>
        fetch.value.Some? && fetch.value.value != "" && Writable(fetch.value.value, world.writeLink)
  {
    var rest: seq<Event>;
    if fetch.value.None? || fetch.value.value == "" {
      rest := [Log(FetchFailed)] + [Finished(false)];
      FailureEnd([Log(FetchFailed)], 3);
    } else {
      var powering := Powering(name, fetch.value.value, world.writeLink);
      PoweringSignals(name, fetch.value.value, world.writeLink);
      rest := [Progress(80), Log(PoweringOn)] + powering;
      MarkedStep(80, PoweringOn, powering, 4);
    }
    QuietStep(fetch.events, rest, 3);
    assert AfterFetch(name, fetch, world) == fetch.events + rest;
  }

  /** A step that emits one progress value (or none) and no finished signal, followed by a stage. */
  lemma {:induction false} StageSignals(head: seq<Event>, rest: seq<Event>, k: nat)
    requires 0 < k <= |Ladder|
    requires forall e <- head :: !e.Finished?
    requires Progresses(head) == [Ladder[k - 1]]
    requires Staged(rest, k)
    ensures Staged(head + rest, k - 1) && (head + rest)[|head + rest| - 1] == rest[|rest| - 1]
  {
    EndsWithFinishedAppend(head, rest);
    ProgressesAppend(head, rest);
    assert Ladder[k - 1..] == [Ladder[k - 1]] + Ladder[k..];
  }

  /** The progress value `Ladder[k - 1]` and one message, followed by a stage. */
  lemma MarkedStep(percent: int, msg: Msg, rest: seq<Event>, k: nat)
    requires 0 < k <= |Ladder| && percent == Ladder[k - 1]
    requires Staged(rest, k)
    ensures Staged([Progress(percent), Log(msg)] + rest, k - 1)
    ensures var t := [Progress(percent), Log(msg)] + rest; t[|t| - 1] == rest[|rest| - 1]
  {
    ProgressesCons(Log(msg), []);
    ProgressesCons(Progress(percent), [Log(msg)]);
    StageSignals([Progress(percent), Log(msg)], rest, k);
  }

  /** A step with no signal at all, followed by a stage. */
  lemma QuietStep(head: seq<Event>, rest: seq<Event>, k: nat)
    requires k <= |Ladder|
    requires NoSignals(head)
    requires Staged(rest, k)
    ensures Staged(head + rest, k) && (head + rest)[|head + rest| - 1] == rest[|rest| - 1]
  {
    EndsWithFinishedAppend(head, rest);
    ProgressesAppend(head, rest);
    ProgressesNoSignals(head);
  }

  /** A failure, at most one message and then the failed finished signal, ends a stage. */
  lemma FailureEnd(log: seq<Event>, k: nat)
    requires k < |Ladder|
    requires |log| <= 1 && forall e <- log :: e.Log?
    ensures Staged(log + [Finished(false)], k)
  {
    var t := log + [Finished(false)];
    ProgressesCons(Finished(false), []);
    if log == [] {
      assert t == [Finished(false)];
    } else {
      assert log[0] in log && t == [log[0]] + [Finished(false)];
      ProgressesCons(log[0], [Finished(false)]);
    }
    assert Progresses(t) == [];
  }

  /** A stage preceded by silent events, the progress value 60 and one message. */
  lemma FetchTail(head: seq<Event>, msg: Msg, tail: seq<Event>)
    requires NoSignals(head)
    requires Staged(tail, 3)
    ensures var t := head + ([Progress(60), Log(msg)] + tail);
      Staged(t, 2) && t[|t| - 1] == tail[|tail| - 1]
  {
    MarkedStep(60, msg, tail, 3);
    QuietStep(head, [Progress(60), Log(msg)] + tail, 2);
  }

  /** The header of a run: two messages, the first progress value and the scan. */
  lemma ScanHead(events: seq<Event>)
    requires NoSignals(events)
    ensures var head := [Log(Separator), Log(Searching), Progress(20)] + events;
      Progresses(head) == [20] && forall e <- head :: !e.Finished?
  {
    ProgressesAppend([Log(Separator), Log(Searching), Progress(20)], events);
    ProgressesNoSignals(events);
    ProgressesCons(Progress(20), []);
    ProgressesCons(Log(Searching), [Progress(20)]);
    ProgressesCons(Log(Separator), [Log(Searching), Progress(20)]);
  }

  /** A run that stops after the scan. */
  lemma StopStep(head: seq<Event>)
    requires forall e <- head :: !e.Finished?
    requires Progresses(head) == [20]
    ensures var t := head + [Finished(false)];
      Staged(t, 0) && t[|t| - 1] == Finished(false) && |Progresses(t)| >= 1
  {
    FailureEnd([], 1);
    assert [] + [Finished(false)] == [Finished(false)];
    StageSignals(head, [Finished(false)], 1);
    ProgressesAppend(head, [Finished(false)]);
  }

  lemma FetchSucceedsIff(variant: Variant, reply: HttpReply, fetch: Step<Option<string>>)
    requires fetch.value == StatusOutcome(variant, reply).value
    ensures (fetch.value.Some? && fetch.value.value != "") <==>
      (reply.Reply? && reply.status == 200 && reply.text != "")
    ensures fetch.value.Some? ==> fetch.value.value == reply.text
  {
  }

  /** After the device was found, the run succeeds exactly when the command is obtained and written. */
  lemma AfterScanSignals(name: string, mode: string, world: Outcomes)
    ensures Staged(AfterScan(name, mode, world), 2)
    ensures var t := AfterScan(name, mode, world);
      t[|t| - 1] == Finished(true) <==> CommandWritten(mode, world)
  {
    if mode == RestoreMode {
      RestoreSignals(name, world);
    } else {
      InitSignals(name, mode, world);
    }
  }

  lemma InitSignals(name: string, mode: string, world: Outcomes)
    requires mode != RestoreMode
    ensures Staged(AfterScan(name, mode, world), 2)
    ensures var t := AfterScan(name, mode, world);
      t[|t| - 1] == Finished(true) <==>
        && world.initReply.Reply? && world.initReply.status == 200
        && world.initReply.text != ""
        && Writable(world.initReply.text, world.writeLink)
  {
    var fetch := FetchInit(Gui, name, world.initReply);
    var tail := AfterFetch(name, fetch, world);
    AfterFetchSignals(name, fetch, world);
    FetchSucceedsIff(Gui, world.initReply, fetch);
    MarkedStep(60, FetchingInit, tail, 3);
    assert AfterScan(name, mode, world) == [Progress(60), Log(FetchingInit)] + tail;
  }

  lemma RestoreSignals(name: string, world: Outcomes)
    ensures Staged(AfterScan(name, RestoreMode, world), 2)
    ensures var t := AfterScan(name, RestoreMode, world);
      t[|t| - 1] == Finished(true) <==>
        && ReadOutcome(Gui, world.readLink).value.Fields?
        && world.restoreReply.Reply? && world.restoreReply.status == 200
        && world.restoreReply.text != ""
        && Writable(world.restoreReply.text, world.writeLink)
  {
    var read := ReadOutcome(Gui, world.readLink);
    assert NoSignals(read.events);
    ReadSignals(name, read, world);
  }

  lemma ReadSignals(name: string, read: Step<ReadReturn>, world: Outcomes)
    requires NoSignals(read.events)
    ensures Staged(AfterRead(name, read, world), 2)
    ensures var t := AfterRead(name, read, world);
      t[|t| - 1] == Finished(true) <==>
        && read.value.Fields? && read.value.data != [] && read.value.info != ""
        && world.restoreReply.Reply? && world.restoreReply.status == 200
        && world.restoreReply.text != ""
        && Writable(world.restoreReply.text, world.writeLink)
    ensures read.value.Fields? && read.value.data != [] && read.value.info != "" ==>
      Posted(GetData(read.value.data, name, read.value.info)) in AfterRead(name, read, world)
  {
    var head := [Log(ReadingInfo)] + read.events;
    assert NoSignals(head);
    if !(read.value.Fields? && read.value.data != [] && read.value.info != "") {
      var rest := [Log(ReadInfoFailed)] + [Finished(false)];
      FailureEnd([Log(ReadInfoFailed)], 2);
      QuietStep(head, rest, 2);
      assert AfterRead(name, read, world) == head + rest;
    } else {
      var fetch := FetchRestore(Gui, read.value.data, name, read.value.info, world.restoreReply);
      var tail := AfterFetch(name, fetch, world);
      AfterFetchSignals(name, fetch, world);
      FetchSucceedsIff(Gui, world.restoreReply, fetch);
      FetchTail(head, FetchingRestore, tail);
      assert AfterRead(name, read, world) == head + ([Progress(60), Log(FetchingRestore)] + tail);
      assert AfterRead(name, read, world)[|head| + 2] == fetch.events[0];
    }
  }

  /**
   * A run emits a prefix of the progress values 20, 40, 60, 80, 100, at least the first, and
   * ends with its only finished signal.
   */
  lemma RunSignals(name: string, mode: string, world: Outcomes)
    ensures var t := RunTrace(name, mode, world);
      && EndsWithFinished(t)
      && Progresses(t) <= Ladder && |Progresses(t)| >= 1
      && (t[|t| - 1] == Finished(true) <==> Progresses(t) == Ladder)
  {
    RunOutcome(name, mode, world);
    assert Ladder[0..] == Ladder;
  }

  /** A run reports success exactly when the world allows it, and then it passed every progress value. */
  lemma RunSucceedsIff(name: string, mode: string, world: Outcomes)
    ensures var t := RunTrace(name, mode, world);
      |t| > 0 && (t[|t| - 1] == Finished(true) <==> RunSucceeds(name, mode, world))
  {
    RunOutcome(name, mode, world);
  }

  lemma RunOutcome(name: string, mode: string, world: Outcomes)
    ensures Staged(RunTrace(name, mode, world), 0) && |Progresses(RunTrace(name, mode, world))| >= 1
    ensures var t := RunTrace(name, mode, world);
      t[|t| - 1] == Finished(true) <==> RunSucceeds(name, mode, world)
  {
    var scan := ScanDevices(name, world.scan);
    var head := [Log(Separator), Log(Searching), Progress(20)] + scan.events;
    ScanHead(scan.events);
    if scan.value.None? || scan.value.value == "" {
      StopStep(head);
      assert RunTrace(name, mode, world) == head + [Finished(false)];
    } else {
      FoundSignals(name, mode, world, head);
    }
  }

  lemma FoundSignals(name: string, mode: string, world: Outcomes, head: seq<Event>)
    requires ScanDevices(name, world.scan).value.Some? && ScanDevices(name, world.scan).value.value != ""
    requires head == [Log(Separator), Log(Searching), Progress(20)] + ScanDevices(name, world.scan).events
    requires Progresses(head) == [20]
    ensures Staged(RunTrace(name, mode, world), 0) && |Progresses(RunTrace(name, mode, world))| >= 1
    ensures var t := RunTrace(name, mode, world);
      t[|t| - 1] == Finished(true) <==> RunSucceeds(name, mode, world)
  {
    var after := AfterScan(name, mode, world);
    var t := RunTrace(name, mode, world);
    assert t == head + ([Progress(40)] + after);
    AfterScanSignals(name, mode, world);
    FoundStep(head, after);
    assert t[|t| - 1] == after[|after| - 1];
    assert RunSucceeds(name, mode, world) <==> CommandWritten(mode, world);
  }

  lemma FoundStep(head: seq<Event>, after: seq<Event>)
    requires forall e <- head :: !e.Finished?
    requires Progresses(head) == [20]
    requires Staged(after, 2)
    ensures var t := head + ([Progress(40)] + after);
      Staged(t, 0) && t[|t| - 1] == after[|after| - 1] && |Progresses(t)| >= 1
  {
    var found := [Progress(40)];
    ProgressesCons(Progress(40), []);
    StageSignals(found, after, 2);
    StageSignals(head, found + after, 1);
    ProgressesAppend(head, found + after);
  }

  lemma PoweringContents(name: string, command: string, link: WriteLink, e: Event)
    requires e in Powering(name, command, link)
    ensures (e.Posted? ==> e.request.DeviceInfo?) && !e.ReadIssued? && !e.ScanStarted?
    ensures e.WriteIssued? ==> FromHex(command) == Some(e.bytes)
  {
    var write := WriteOutcome(Gui, name, command, link);
    WriteEvents(Gui, name, command, link);
    if e in write.events && e.WriteIssued? {
      WriteIssuedIff(Gui, name, command, link, e.bytes);
    }
  }

  lemma AfterFetchContents(name: string, fetch: Step<Option<string>>, world: Outcomes, e: Event)
    requires e in AfterFetch(name, fetch, world)
    ensures e in fetch.events || (
      && (e.Posted? ==> e.request.DeviceInfo?) && !e.ReadIssued? && !e.ScanStarted?
      && (e.WriteIssued? ==> fetch.value.Some? && fetch.value.value != "" && FromHex(fetch.value.value) == Some(e.bytes)))
  {
    if e !in fetch.events && !(fetch.value.None? || fetch.value.value == "") {
      var powering := Powering(name, fetch.value.value, world.writeLink);
      if e in powering {
        PoweringContents(name, fetch.value.value, world.writeLink, e);
      }
    }
  }

  lemma AfterScanContents(name: string, mode: string, world: Outcomes, e: Event)
    requires e in AfterScan(name, mode, world)
    ensures e.ReadIssued? ==> mode == RestoreMode
    ensures e.Posted? && e.request.GetData? ==>
      && mode == RestoreMode && e.request.name == name
      && ReadOutcome(Gui, world.readLink).value.Fields?
      && e.request.data == ReadOutcome(Gui, world.readLink).value.data
      && e.request.info == ReadOutcome(Gui, world.readLink).value.info
      && Telemetry.Decode(e.request.info) == Success(e.request.data)
    ensures e.Posted? && e.request.InitData? ==> mode != RestoreMode && e.request.name == name
    ensures e.WriteIssued? ==>
      && (mode == RestoreMode ==> ReadOutcome(Gui, world.readLink).value.Fields?)
      && CommandReply(mode, world).Reply? && CommandReply(mode, world).status == 200
      && CommandReply(mode, world).text != ""
      && FromHex(CommandReply(mode, world).text) == Some(e.bytes)
    ensures !e.ScanStarted?
  {
    if mode == RestoreMode {
      RestoreContents(name, world, e);
    } else {
      var fetch := FetchInit(Gui, name, world.initReply);
      if e in AfterFetch(name, fetch, world) {
        AfterFetchContents(name, fetch, world, e);
        FetchSucceedsIff(Gui, world.initReply, fetch);
      }
    }
  }

  lemma RestoreContents(name: string, world: Outcomes, e: Event)
    requires e in AfterScan(name, RestoreMode, world)
    ensures e.Posted? && e.request.GetData? ==>
      && e.request.name == name
      && ReadOutcome(Gui, world.readLink).value.Fields?
      && e.request.data == ReadOutcome(Gui, world.readLink).value.data
      && e.request.info == ReadOutcome(Gui, world.readLink).value.info
      && Telemetry.Decode(e.request.info) == Success(e.request.data)
    ensures !(e.Posted? && e.request.InitData?)
    ensures e.WriteIssued? ==>
      && ReadOutcome(Gui, world.readLink).value.Fields?
      && world.restoreReply.Reply? && world.restoreReply.status == 200 && world.restoreReply.text != ""
      && FromHex(world.restoreReply.text) == Some(e.bytes)
    ensures !e.ScanStarted?
  {
    var read := ReadOutcome(Gui, world.readLink);
    ReadContents(name, read, world, e);
  }

  lemma ReadContents(name: string, read: Step<ReadReturn>, world: Outcomes, e: Event)
    requires forall e <- read.events :: e.Log? || e == Connecting || e == ReadIssued
    requires read.value.Fields? ==> Telemetry.Decode(read.value.info) == Success(read.value.data)
    requires e in AfterRead(name, read, world)
    ensures e.Posted? && e.request.GetData? ==>
      && e.request.name == name
      && read.value.Fields? && e.request.data == read.value.data && e.request.info == read.value.info
      && Telemetry.Decode(e.request.info) == Success(e.request.data)
    ensures !(e.Posted? && e.request.InitData?)
    ensures e.WriteIssued? ==>
      && read.value.Fields?
      && world.restoreReply.Reply? && world.restoreReply.status == 200 && world.restoreReply.text != ""
      && FromHex(world.restoreReply.text) == Some(e.bytes)
    ensures !e.ScanStarted?
  {
    var head := [Log(ReadingInfo)] + read.events;
    if read.value.Fields? && read.value.data != [] && read.value.info != "" {
      var fetch := FetchRestore(Gui, read.value.data, name, read.value.info, world.restoreReply);
      var tail := AfterFetch(name, fetch, world);
      assert AfterRead(name, read, world) == head + ([Progress(60), Log(FetchingRestore)] + tail);
      if e in tail {
        AfterFetchContents(name, fetch, world, e);
        FetchSucceedsIff(Gui, world.restoreReply, fetch);
      }
    } else {
      assert AfterRead(name, read, world) == head + [Log(ReadInfoFailed), Finished(false)];
    }
  }

  /**
   * What each operation of a run rests on: the device is read only in restore mode; the record
   * is posted only in restore mode, under the device's name, with the values the record text
   * decodes to; initialisation is requested only in the other modes; and the bytes written are
   * the decoded body of a 200 reply that is not empty, sent to a device that was found.
   */
  lemma RunContents(name: string, mode: string, world: Outcomes, e: Event)
    requires e in RunTrace(name, mode, world)
    ensures e.ReadIssued? ==> mode == RestoreMode
    ensures e.Posted? && e.request.GetData? ==>
      && mode == RestoreMode && e.request.name == name
      && ReadOutcome(Gui, world.readLink).value.Fields?
      && e.request.data == ReadOutcome(Gui, world.readLink).value.data
      && e.request.info == ReadOutcome(Gui, world.readLink).value.info
      && Telemetry.Decode(e.request.info) == Success(e.request.data)
    ensures e.Posted? && e.request.InitData? ==> mode != RestoreMode && e.request.name == name
    ensures e.WriteIssued? ==>
      && ScanDevices(name, world.scan).value.Some? && ScanDevices(name, world.scan).value.value != ""
      && (mode == RestoreMode ==> ReadOutcome(Gui, world.readLink).value.Fields?)
      && CommandReply(mode, world).Reply? && CommandReply(mode, world).status == 200
      && CommandReply(mode, world).text != ""
      && FromHex(CommandReply(mode, world).text) == Some(e.bytes)
  {
    var scan := ScanDevices(name, world.scan);
    if !(scan.value.None? || scan.value.value == "") && e in AfterScan(name, mode, world) {
      AfterScanContents(name, mode, world, e);
    }
  }

  /** A restore posts the record only after the characteristic was read. */
  lemma ReadPostOrder(name: string, read: Step<ReadReturn>, world: Outcomes)
    requires forall e <- read.events :: e.Log? || e == Connecting || e == ReadIssued
    requires read.value.Fields? ==> ReadIssued in read.events
    ensures ReadBeforePost(AfterRead(name, read, world))
  {
    var head := [Log(ReadingInfo)] + read.events;
    assert forall e <- head :: !PostsRecord(e);
    ReadBeforePostNoPost(head);
    if read.value.Fields? && read.value.data != [] && read.value.info != "" {
      var fetch := FetchRestore(Gui, read.value.data, name, read.value.info, world.restoreReply);
      var rest := [Progress(60), Log(FetchingRestore)] + AfterFetch(name, fetch, world);
      assert ReadIssued in head;
      ReadBeforePostAfterRead(head, rest);
      assert AfterRead(name, read, world) == head + rest;
    } else {
      ReadBeforePostNoPost([Log(ReadInfoFailed), Finished(false)]);
      ReadBeforePostAppend(head, [Log(ReadInfoFailed), Finished(false)]);
      assert AfterRead(name, read, world) == head + [Log(ReadInfoFailed), Finished(false)];
    }
  }

  /** After the scan, a record is posted only after the device was read. */
  lemma AfterScanReadsBeforePost(name: string, mode: string, world: Outcomes)
    ensures ReadBeforePost(AfterScan(name, mode, world))
  {
    if mode == RestoreMode {
      ReadShape(Gui, world.readLink);
      ReadPostOrder(name, ReadOutcome(Gui, world.readLink), world);
    } else {
      var after := AfterScan(name, mode, world);
      forall e <- after
        ensures !PostsRecord(e)
      {
        AfterScanContents(name, mode, world, e);
      }
      ReadBeforePostNoPost(after);
    }
  }

  /** A run posts a record to the exchange service only after it read the device. */
  lemma RunReadsBeforePost(name: string, mode: string, world: Outcomes)
    ensures ReadBeforePost(RunTrace(name, mode, world))
  {
    var scan := ScanDevices(name, world.scan);
    var head := [Log(Separator), Log(Searching), Progress(20)] + scan.events;
    var t := RunTrace(name, mode, world);
    assert forall e <- head :: !PostsRecord(e);
    if scan.value.None? || scan.value.value == "" {
      assert t == head + [Finished(false)];
      ReadBeforePostPrefix(head, [Finished(false)]);
    } else {
      var after := AfterScan(name, mode, world);
      assert t == head + ([Progress(40)] + after);
      AfterScanReadsBeforePost(name, mode, world);
      ReadBeforePostPrefix([Progress(40)], after);
      ReadBeforePostPrefix(head, [Progress(40)] + after);
    }
  }

  /** The GUI refuses an empty command: a 200 reply with an empty body never leads to a write. */
  lemma EmptyCommandNotWritten(name: string, mode: string, world: Outcomes, bytes: seq<byte>)
    requires CommandReply(mode, world) == Reply(200, "")
    ensures WriteIssued(bytes) !in RunTrace(name, mode, world)
    ensures RunTrace(name, mode, world)[|RunTrace(name, mode, world)| - 1] == Finished(false)
  {
    if WriteIssued(bytes) in RunTrace(name, mode, world) {
      RunContents(name, mode, world, WriteIssued(bytes));
    }
    RunSucceedsIff(name, mode, world);
  }

  lemma PoweringNotifies(name: string, command: string, link: WriteLink)
    ensures NotifyBeforeWrite(Powering(name, command, link))
  {
    var write := WriteOutcome(Gui, name, command, link);
    WriteIssuedIff(Gui, name, command, link, []);
    var tail := if write.value == Written then [Progress(100), Finished(true)] else [Finished(false)];
    NotifyBeforeWriteAppend(write.events, tail);
  }

  lemma AfterFetchNotifies(name: string, fetch: Step<Option<string>>, world: Outcomes)
    requires forall e <- fetch.events :: !e.WriteIssued?
    ensures NotifyBeforeWrite(AfterFetch(name, fetch, world))
  {
    if fetch.value.None? || fetch.value.value == "" {
      NotifyBeforeWriteAppend(fetch.events, [Log(FetchFailed), Finished(false)]);
    } else {
      var powering := Powering(name, fetch.value.value, world.writeLink);
      PoweringNotifies(name, fetch.value.value, world.writeLink);
      NotifyBeforeWriteAppend([Progress(80), Log(PoweringOn)], powering);
      NotifyBeforeWriteAppend(fetch.events, [Progress(80), Log(PoweringOn)] + powering);
    }
  }

  lemma AfterScanNotifies(name: string, mode: string, world: Outcomes)
    ensures NotifyBeforeWrite(AfterScan(name, mode, world))
  {
    if mode == RestoreMode {
      var read := ReadOutcome(Gui, world.readLink);
      assert forall e <- read.events :: !e.WriteIssued?;
      ReadNotifies(name, read, world);
    } else {
      var fetch := FetchInit(Gui, name, world.initReply);
      AfterFetchNotifies(name, fetch, world);
      NotifyBeforeWriteAppend([Progress(60), Log(FetchingInit)], AfterFetch(name, fetch, world));
    }
  }

  lemma ReadNotifies(name: string, read: Step<ReadReturn>, world: Outcomes)
    requires forall e <- read.events :: !e.WriteIssued?
    ensures NotifyBeforeWrite(AfterRead(name, read, world))
  {
    var head := [Log(ReadingInfo)] + read.events;
    assert forall e <- head :: !e.WriteIssued?;
    if !(read.value.Fields? && read.value.data != [] && read.value.info != "") {
      NotifyBeforeWriteAppend(head, [Log(ReadInfoFailed), Finished(false)]);
    } else {
      var fetch := FetchRestore(Gui, read.value.data, name, read.value.info, world.restoreReply);
      AfterFetchNotifies(name, fetch, world);
      NotifyBeforeWriteAppend([Progress(60), Log(FetchingRestore)], AfterFetch(name, fetch, world));
      NotifyBeforeWriteAppend(head, [Progress(60), Log(FetchingRestore)] + AfterFetch(name, fetch, world));
    }
  }

  /** Every write of a run comes after a notification subscription on the same connection attempt. */
  lemma RunNotifiesBeforeWrite(name: string, mode: string, world: Outcomes)
    ensures NotifyBeforeWrite(RunTrace(name, mode, world))
  {
    var scan := ScanDevices(name, world.scan);
    var head := [Log(Separator), Log(Searching), Progress(20)] + scan.events;
    assert forall e <- head :: !e.WriteIssued?;
    if scan.value.None? || scan.value.value == "" {
      NotifyBeforeWriteAppend(head, [Finished(false)]);
    } else {
      AfterScanNotifies(name, mode, world);
      NotifyBeforeWriteAppend([Progress(40)], AfterScan(name, mode, world));
      NotifyBeforeWriteAppend(head, [Progress(40)] + AfterScan(name, mode, world));
    }
  }

  /** The GUI treats a device found with an empty address as not found: the run stops after the scan. */
  lemma EmptyAddressStops(name: string, mode: string, world: Outcomes)
    requires ScanDevices(name, world.scan).value == Some("")
    ensures RunTrace(name, mode, world) ==
      [Log(Separator), Log(Searching), Progress(20)] + ScanDevices(name, world.scan).events + [Finished(false)]
  {
  }
}
