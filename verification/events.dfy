/**
 * What an observer sees of one controller run: the GUI worker's log, progress and finished
 * signals (or the CLI script's printed lines), interleaved with the Bluetooth and HTTP
 * operations the run issues. The two program variants share this vocabulary; a `Variant`
 * value selects the behaviour where they differ.
 */
module Events {
  import opened Py

  /** `xdjkgui.py` (the PyQt worker thread) or `main.py` (the console script). */
  datatype Variant = Gui | Cli

  /** The user-visible messages, by meaning; the two variants word some of them differently. */
  datatype Msg =
    | Banner                  // console: usage notes printed first
    | Separator               // GUI: header line of a run
    | EmptyName               // console: the device name must not be empty
    | Searching               // searching for the Bluetooth device
    | DeviceFound(name: string)
    | DeviceNotFound
    | BluetoothOff            // the scan raised: Bluetooth must be switched on
    | ReadingInfo             // reading the device information
    | ReadInfoFailed          // GUI: reading the device information failed
    | ServiceMissing
    | CharacteristicMissing
    | NotReadable
    | BadFieldCount           // GUI: the record does not have 13 fields
    | BadField(item: string)  // GUI: this field is not `key:value`
    | BadRecord               // console: one message for both record errors
    | ReadRaised              // an exception while connecting or reading
    | FetchingRestore
    | FetchingInit
    | NotSubscribed           // HTTP 403
    | TooFrequent             // GUI: HTTP 429
    | FetchFailed
    | PoweringOn
    | WriteRaised             // connecting, subscribing or writing failed
    | PowerOn                 // console: power started
    | Version(version: string)
    | VersionUnreadable
    | InputError              // console: unknown run mode

  /** The requests sent to the exchange service. */
  datatype Request =
    | GetData(data: seq<string>, name: string, info: string)  // POST apigetdata
    | InitData(name: string)                                   // GET apiinitdata
    | DeviceInfo(name: string, info: string)                   // POST apideviceinfo

  datatype Event =
    | Log(msg: Msg)              // GUI log signal, console print
    | Progress(percent: int)     // GUI progress signal
    | Finished(ok: bool)         // GUI finished signal
    | ScanStarted                // BLE discovery
    | Connecting                 // BLE connection attempt
    | ReadIssued                 // read of the control characteristic
    | Posted(request: Request)   // HTTP request sent
    | NotifyStarted              // notification subscription requested
    | WriteIssued(bytes: seq<byte>)  // write of the control characteristic
    | SettleWait                 // the two-second wait after a write

  /** What one step of a run emitted, and what it returned. */
  datatype Step<+T> = Step(events: seq<Event>, value: T)

  /** No progress or finished signal: only the GUI worker's `run` emits those. */
  predicate NoSignals(t: seq<Event>)
  {
    forall e <- t :: !e.Progress? && !e.Finished?
  }

  /** The progress values in the order they were emitted. */
  function Progresses(t: seq<Event>): seq<int>
  {
    if t == [] then []
    else (if t[0].Progress? then [t[0].percent] else []) + Progresses(t[1..])
  }

  lemma {:induction false} ProgressesAppend(a: seq<Event>, b: seq<Event>)
    ensures Progresses(a + b) == Progresses(a) + Progresses(b)
  {
    if a == [] {
      assert a + b == b;
    } else {
      var h := if a[0].Progress? then [a[0].percent] else [];
      assert (a + b)[0] == a[0] && (a + b)[1..] == a[1..] + b;
      ProgressesAppend(a[1..], b);
      assert Progresses(a + b) == h + (Progresses(a[1..]) + Progresses(b));
      assert Progresses(a) == h + Progresses(a[1..]);
    }
  }

  lemma ProgressesCons(e: Event, t: seq<Event>)
    ensures Progresses([e] + t) == (if e.Progress? then [e.percent] else []) + Progresses(t)
  {
    assert ([e] + t)[1..] == t;
  }

  lemma {:induction false} ProgressesNoSignals(t: seq<Event>)
    requires NoSignals(t)
    ensures Progresses(t) == []
  {
    if t != [] {
      assert t[0] in t;
      assert forall e <- t[1..] :: e in t;
      ProgressesNoSignals(t[1..]);
    }
  }

  /** Every write of the characteristic comes after a notification subscription was requested. */
  predicate NotifyBeforeWrite(t: seq<Event>)
  {
    forall j | 0 <= j < |t| && t[j].WriteIssued? :: NotifyStarted in t[..j]
  }

  lemma NotifyBeforeWriteAppend(a: seq<Event>, b: seq<Event>)
    requires NotifyBeforeWrite(a) && NotifyBeforeWrite(b)
    ensures NotifyBeforeWrite(a + b)
  {
    var t := a + b;
    forall j | 0 <= j < |t| && t[j].WriteIssued?
      ensures NotifyStarted in t[..j]
    {
      if j < |a| {
        assert t[..j] == a[..j];
      } else {
        var k := j - |a|;
        assert b[k].WriteIssued?;
        var i :| 0 <= i < k && b[..k][i] == NotifyStarted;
        assert t[..j][|a| + i] == NotifyStarted;
      }
    }
  }

  /** A record posted to the exchange service. */
  predicate PostsRecord(e: Event)
  {
    e.Posted? && e.request.GetData?
  }

  /** Every record posted to the exchange service comes after a read of the device. */
  predicate ReadBeforePost(t: seq<Event>)
  {
    forall j | 0 <= j < |t| && PostsRecord(t[j]) :: ReadIssued in t[..j]
  }

  lemma ReadBeforePostAppend(a: seq<Event>, b: seq<Event>)
    requires ReadBeforePost(a) && ReadBeforePost(b)
    ensures ReadBeforePost(a + b)
  {
    var t := a + b;
    forall j | 0 <= j < |t| && PostsRecord(t[j])
      ensures ReadIssued in t[..j]
    {
      if j < |a| {
        assert t[..j] == a[..j];
      } else {
        var k := j - |a|;
        assert PostsRecord(b[k]);
        var i :| 0 <= i < k && b[..k][i] == ReadIssued;
        assert t[..j][|a| + i] == ReadIssued;
      }
    }
  }

  /** Once the device was read, anything may follow. */
  lemma ReadBeforePostAfterRead(a: seq<Event>, b: seq<Event>)
    requires ReadBeforePost(a) && ReadIssued in a
    ensures ReadBeforePost(a + b)
  {
    var t := a + b;
    forall j | 0 <= j < |t| && PostsRecord(t[j])
      ensures ReadIssued in t[..j]
    {
      if j < |a| {
        assert t[..j] == a[..j];
      } else {
        var i :| 0 <= i < |a| && a[i] == ReadIssued;
        assert t[..j][i] == ReadIssued;
      }
    }
  }

  /** A trace that posts no record keeps the order trivially. */
  lemma ReadBeforePostNoPost(t: seq<Event>)
    requires forall e <- t :: !PostsRecord(e)
    ensures ReadBeforePost(t)
  {
    assert forall j | 0 <= j < |t| :: t[j] in t;
  }

  /** Events that post no record may come first. */
  lemma ReadBeforePostPrefix(head: seq<Event>, after: seq<Event>)
    requires forall e <- head :: !PostsRecord(e)
    requires ReadBeforePost(after)
    ensures ReadBeforePost(head + after)
  {
    ReadBeforePostNoPost(head);
    ReadBeforePostAppend(head, after);
  }

  /** The run ends with its one and only finished signal. */
  predicate EndsWithFinished(t: seq<Event>)
  {
    |t| > 0 && t[|t| - 1].Finished? && forall i | 0 <= i < |t| - 1 :: !t[i].Finished?
  }

  lemma EndsWithFinishedAppend(a: seq<Event>, b: seq<Event>)
    requires forall e <- a :: !e.Finished?
    requires EndsWithFinished(b)
    ensures EndsWithFinished(a + b) && (a + b)[|a + b| - 1] == b[|b| - 1]
  {
    var t := a + b;
    forall i | 0 <= i < |t| - 1
      ensures !t[i].Finished?
    {
      if i < |a| {
        assert t[i] in a;
      } else {
        assert t[i] == b[i - |a|];
      }
    }
  }
}
