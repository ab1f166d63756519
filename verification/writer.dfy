/**
 * `connect_and_write`: decode the hex command, connect, subscribe to notifications with the
 * handler, write the bytes, then wait two seconds while notifications arrive. A bad command
 * raises before any connection; a failing connection, subscription or write is logged.
 */
module Writer {
  import opened Wrappers
  import opened Py
  import opened Hex
  import opened Events
  import Notification

  /** One notification the device sends during the settle wait, and whether its upload raises. */
  datatype Delivery = Delivery(payload: seq<byte>, uploadRaises: bool)

  /** The device as the write connection sees it. */
  datatype WriteLink =
    | WriteConnectRaises
    | WriteLink(notifyRaises: bool, writeRaises: bool, deliveries: seq<Delivery>)

  /** How `connect_and_write` ended: `fromhex` raised, the link failed, or the write went through. */
  datatype WriteResult = HexRejected | LinkFailed | Written

  /** The command decodes and the write connection, subscription and write all succeed. */
  predicate Writable(command: string, link: WriteLink)
  {
    FromHex(command).Some? && link.WriteLink? && !link.notifyRaises && !link.writeRaises
  }

  /** The events of the notifications, each handled by `react`, in arrival order. */
  function HandledBy(react: Delivery -> seq<Event>, deliveries: seq<Delivery>): seq<Event>
  {
    if deliveries == [] then []
    else HandledBy(react, deliveries[..|deliveries| - 1]) + react(deliveries[|deliveries| - 1])
  }

  /** What the notification handler does with one notification. */
  function Reaction(variant: Variant, name: string, delivery: Delivery): seq<Event>
  {
    Notification.HandlerOutcome(variant, name, delivery.payload, delivery.uploadRaises).events
  }

  /** The handler's events for the notifications, in arrival order. */
  function Handled(variant: Variant, name: string, deliveries: seq<Delivery>): (t: seq<Event>)
    ensures forall e <- t :: Notification.HandlerEvent(e)
  {
    HandledByKeeps(d => Reaction(variant, name, d), deliveries, Notification.HandlerEvent);
    HandledBy(d => Reaction(variant, name, d), deliveries)
  }

  /** A property every reaction's events have holds of all the handled events. */
  lemma {:induction false} HandledByKeeps(react: Delivery -> seq<Event>, deliveries: seq<Delivery>, p: Event -> bool)
    requires forall d, e | e in react(d) :: p(e)
    ensures forall e <- HandledBy(react, deliveries) :: p(e)
    decreases |deliveries|
  {
    if deliveries != [] {
      HandledByKeeps(react, deliveries[..|deliveries| - 1], p);
    }
  }

  /** `connect_and_write` of either variant; only the console script reports success. */
  function WriteOutcome(variant: Variant, name: string, command: string, link: WriteLink): (r: Step<WriteResult>)
    ensures NoSignals(r.events)
  {
    match FromHex(command)
    case None => Step([], HexRejected)
    case Some(bytes) => Session(variant, name, bytes, link)
  }

  /** The `try` block of `connect_and_write`: connect, subscribe, write the bytes and wait. */
  function Session(variant: Variant, name: string, bytes: seq<byte>, link: WriteLink): (r: Step<WriteResult>)
    ensures NoSignals(r.events)
  {
    match link
    case WriteConnectRaises => Step([Connecting, Log(WriteRaised)], LinkFailed)
    case WriteLink(notifyRaises, writeRaises, deliveries) =>
      if notifyRaises then Step([Connecting, NotifyStarted, Log(WriteRaised)], LinkFailed)
      else if writeRaises then Step([Connecting, NotifyStarted, WriteIssued(bytes), Log(WriteRaised)], LinkFailed)
      else Step([Connecting, NotifyStarted, WriteIssued(bytes)] + Settle(variant, name, deliveries), Written)
  }

  /** The settle wait after a successful write, and the console script's success message. */
  function Settle(variant: Variant, name: string, deliveries: seq<Delivery>): (t: seq<Event>)
    ensures |t| >= 1
    ensures t[|t| - 1] == if variant == Cli then Log(PowerOn) else SettleWait
    ensures variant == Cli ==> |t| >= 2 && t[|t| - 2] == SettleWait
    ensures forall e <- t :: !e.WriteIssued? && !e.Progress? && !e.Finished?
    ensures Log(PowerOn) in t <==> variant == Cli
  {
    assert !Notification.HandlerEvent(Log(PowerOn));
    Handled(variant, name, deliveries) + [SettleWait] + (if variant == Cli then [Log(PowerOn)] else [])
  }

  /** The body of `connect_and_write`, running the handler once per arriving notification. */
  method ConnectAndWrite(variant: Variant, name: string, command: string, link: WriteLink)
    returns (events: seq<Event>, result: WriteResult)
    ensures Step(events, result) == WriteOutcome(variant, name, command, link)
  {
    var byteArray := FromHex(command);
    if byteArray.None? {
      return [], HexRejected;
    }
    events, result := WriteSession(variant, name, byteArray.value, link);
  }

  /** The connection of `connect_and_write`, step by step. */
  method WriteSession(variant: Variant, name: string, bytes: seq<byte>, link: WriteLink)
    returns (events: seq<Event>, result: WriteResult)
    ensures events == Session(variant, name, bytes, link).events
    ensures result == Session(variant, name, bytes, link).value
  {
    if link.WriteConnectRaises? {
      return [Connecting, Log(WriteRaised)], LinkFailed;
    }
    if link.notifyRaises {
      return [Connecting, NotifyStarted, Log(WriteRaised)], LinkFailed;
    }
    if link.writeRaises {
      return [Connecting, NotifyStarted, WriteIssued(bytes), Log(WriteRaised)], LinkFailed;
    }
    var settle := Wait(variant, name, link.deliveries);
    return [Connecting, NotifyStarted, WriteIssued(bytes)] + settle, Written;
  }

  /** The two-second wait after the write, then the console script's success message. */
  method Wait(variant: Variant, name: string, deliveries: seq<Delivery>) returns (events: seq<Event>)
    ensures events == Settle(variant, name, deliveries)
  {
    events := HandleAll(variant, name, deliveries);
    events := events + [SettleWait];
    if variant == Cli {
      events := events + [Log(PowerOn)];
    }
  }

  /** The settle wait: the handler runs once per arriving notification; its exceptions stay in the callback. */
  method HandleAll(variant: Variant, name: string, deliveries: seq<Delivery>) returns (events: seq<Event>)
    ensures events == Handled(variant, name, deliveries)
  {
    events := [];
    for i := 0 to |deliveries|
      invariant events == Handled(variant, name, deliveries[..i])
    {
      var handled, raised := Notification.Handle(variant, name, deliveries[i].payload, deliveries[i].uploadRaises);
      assert deliveries[..i + 1][..i] == deliveries[..i];
      events := events + handled;
    }
    assert deliveries[..|deliveries|] == deliveries;
  }

  /**
   * The bytes written are the decoded command, and a write happens exactly when the command
   * decodes and the connection and the subscription succeed; the subscription always comes first.
   */
  lemma WriteIssuedIff(variant: Variant, name: string, command: string, link: WriteLink, bytes: seq<byte>)
    ensures WriteIssued(bytes) in WriteOutcome(variant, name, command, link).events <==>
      FromHex(command) == Some(bytes) && link.WriteLink? && !link.notifyRaises
    ensures NotifyBeforeWrite(WriteOutcome(variant, name, command, link).events)
  {
    var t := WriteOutcome(variant, name, command, link).events;
    match FromHex(command)
    case None =>
      assert t == [];
    case Some(decoded) =>
      if link.WriteConnectRaises? {
        assert t == [Connecting, Log(WriteRaised)];
      } else if link.notifyRaises {
        assert t == [Connecting, NotifyStarted, Log(WriteRaised)];
      } else {
        var tail := if link.writeRaises then [Log(WriteRaised)] else Settle(variant, name, link.deliveries);
        assert t == [Connecting, NotifyStarted, WriteIssued(decoded)] + tail;
        OneWrite(decoded, tail, bytes);
      }
  }

  /** A subscription, one write, and events that write nothing. */
  lemma OneWrite(bytes: seq<byte>, tail: seq<Event>, other: seq<byte>)
    requires forall e <- tail :: !e.WriteIssued?
    ensures var t := [Connecting, NotifyStarted, WriteIssued(bytes)] + tail;
      (WriteIssued(other) in t <==> other == bytes) && NotifyBeforeWrite(t)
  {
    var t := [Connecting, NotifyStarted, WriteIssued(bytes)] + tail;
    forall j | 3 <= j < |t|
      ensures !t[j].WriteIssued?
    {
      assert t[j] == tail[j - 3];
      assert tail[j - 3] in tail;
    }
    assert t[..2] == [Connecting, NotifyStarted];
  }

  /** Besides the version uploads of the notification handler, a write posts nothing and reads nothing. */
  lemma WriteEvents(variant: Variant, name: string, command: string, link: WriteLink)
    ensures forall e <- WriteOutcome(variant, name, command, link).events ::
      (e.Posted? ==> e.request.DeviceInfo?) && !e.ReadIssued? && !e.ScanStarted?
  {
    var t := WriteOutcome(variant, name, command, link).events;
    if Writable(command, link) {
      var handled := Handled(variant, name, link.deliveries);
      var rest := [SettleWait] + (if variant == Cli then [Log(PowerOn)] else []);
      assert t == [Connecting, NotifyStarted, WriteIssued(FromHex(command).value)] + (handled + rest);
      assert forall e <- handled :: Notification.HandlerEvent(e);
    }
  }

  /** The command goes through exactly when it decodes and the connection, subscription and write succeed. */
  lemma WrittenIff(variant: Variant, name: string, command: string, link: WriteLink)
    ensures WriteOutcome(variant, name, command, link).value == Written <==> Writable(command, link)
    ensures WriteOutcome(variant, name, command, link).value == HexRejected <==> FromHex(command).None?
    ensures FromHex(command).None? ==> WriteOutcome(variant, name, command, link).events == []
    ensures Log(PowerOn) in WriteOutcome(variant, name, command, link).events <==>
      variant == Cli && WriteOutcome(variant, name, command, link).value == Written
  {
  }

  /**
   * After a successful write the console script's last word is the power-on message, printed
   * after the settle wait; the GUI's last event is the settle wait itself.
   */
  lemma PowerOnLast(variant: Variant, name: string, command: string, link: WriteLink)
    requires WriteOutcome(variant, name, command, link).value == Written
    ensures var t := WriteOutcome(variant, name, command, link).events;
      if variant == Cli then |t| >= 2 && t[|t| - 2] == SettleWait && t[|t| - 1] == Log(PowerOn)
      else |t| >= 1 && t[|t| - 1] == SettleWait
    ensures Log(PowerOn) in WriteOutcome(variant, name, command, link).events <==> variant == Cli
  {
  }

  /** Each notification is handled on its own: the events of a longer sequence extend those of a shorter. */
  lemma HandledAppend(variant: Variant, name: string, a: seq<Delivery>, b: seq<Delivery>)
    ensures Handled(variant, name, a + b) == Handled(variant, name, a) + Handled(variant, name, b)
  {
    HandledByAppend(d => Reaction(variant, name, d), a, b);
  }

  lemma {:induction false} HandledByAppend(react: Delivery -> seq<Event>, a: seq<Delivery>, b: seq<Delivery>)
    ensures HandledBy(react, a + b) == HandledBy(react, a) + HandledBy(react, b)
    decreases |b|
  {
    if b == [] {
      assert a + b == a;
    } else {
      var init := b[..|b| - 1];
      assert (a + b)[..|a + b| - 1] == a + init;
      assert (a + b)[|a + b| - 1] == b[|b| - 1];
      HandledByAppend(react, a, init);
    }
  }
}
