/**
 * The notification callback registered before each write. A payload longer than 40 characters
 * is split on `,`; segment i that holds a colon overwrites slot i of a 50-slot list whose slots
 * start as ten zeros, with piece 1 of its colon split (the text between the first and the
 * second colon). Slot 18, the firmware version, is uploaded with the device name and logged.
 * A colon-bearing segment past slot 49 raises an index error.
 */
module Notification {
  import opened Wrappers
  import opened Py
  import opened Events

  const SlotCount: nat := 50
  const DefaultSlot: string := "0000000000"
  const VersionSlot: nat := 18
  /** Payloads of at most this many characters are ignored as incomplete. */
  const ShortLength: nat := 40

  /** The slot list built from a payload text, or `None` for the index error. */
  function Slots(raw: string): (slots: Option<seq<string>>)
    ensures slots.Some? ==> |slots.value| == SlotCount
  {
    var segments := Split(raw, ',');
    if Overflows(segments) then None else Some(Layout(segments))
  }

  /** Some segment past the last slot has a colon, so the handler's list assignment raises. */
  predicate Overflows(segments: seq<string>)
  {
    |segments| > SlotCount && (':' in segments[|segments| - 1] || Overflows(segments[..|segments| - 1]))
  }

  lemma {:induction false} OverflowsIff(segments: seq<string>)
    ensures Overflows(segments) <==> exists i | SlotCount <= i < |segments| :: ':' in segments[i]
    decreases |segments|
  {
    if |segments| > SlotCount {
      var init := segments[..|segments| - 1];
      OverflowsIff(init);
      if exists i | SlotCount <= i < |init| :: ':' in init[i] {
        var i :| SlotCount <= i < |init| && ':' in init[i];
        assert segments[i] == init[i];
      }
      if exists i | SlotCount <= i < |segments| :: ':' in segments[i] {
        var i :| SlotCount <= i < |segments| && ':' in segments[i];
        if i < |init| {
          assert init[i] == segments[i];
        }
      }
    }
  }

  /** Slot i: piece 1 of segment i when it has a colon, the default otherwise. */
  function Layout(segments: seq<string>): (slots: seq<string>)
    ensures |slots| == SlotCount
    ensures forall i | 0 <= i < SlotCount ::
      slots[i] == if i < |segments| then SlotValue(segments[i]) else DefaultSlot
  {
    seq(SlotCount, i requires 0 <= i < SlotCount => if i < |segments| then SlotValue(segments[i]) else DefaultSlot)
  }

  /** What a segment puts in its slot: piece 1 of its colon split, or the default without a colon. */
  function SlotValue(segment: string): string
  {
    if ':' in segment then Split(segment, ':')[1] else DefaultSlot
  }

  /** The in-place loop of `notification_handler` over a 50-element list. */
  method FillSlots(raw: string) returns (slots: Option<seq<string>>)
    ensures slots == Slots(raw)
  {
    var dataList := Split(raw, ',');
    var parsed := new string[SlotCount](_ => DefaultSlot);
    for i := 0 to |dataList|
      invariant forall j | 0 <= j < SlotCount :: parsed[j] == if j < i then SlotValue(dataList[j]) else DefaultSlot
      invariant forall j | SlotCount <= j < i :: ':' !in dataList[j]
    {
      var keyValue := Split(dataList[i], ':');
      assert |keyValue| > 1 <==> ':' in dataList[i];
      if |keyValue| > 1 {
        if i >= SlotCount {
          assert SlotCount <= i < |dataList| && ':' in dataList[i];
          OverflowsIff(dataList);
          return None;
        }
        parsed[i] := keyValue[1];
      }
    }
    assert !exists i | SlotCount <= i < |dataList| :: ':' in dataList[i];
    OverflowsIff(dataList);
    assert parsed[..] == Layout(dataList);
    return Some(parsed[..]);
  }

  /**
   * Slot i holds the text between the first and the second colon of segment i when that
   * segment has a colon, and the default otherwise; the list fails only when a segment past
   * the last slot has a colon.
   */
  lemma SlotsLayout(raw: string)
    ensures Slots(raw).None? <==> exists i | SlotCount <= i < |Split(raw, ',')| :: ':' in Split(raw, ',')[i]
    ensures Slots(raw).Some? ==> forall i | 0 <= i < SlotCount ::
      Slots(raw).value[i] ==
        if i < |Split(raw, ',')| && ':' in Split(raw, ',')[i]
        then Before(After(Split(raw, ',')[i], ':'), ':')
        else DefaultSlot
  {
    var segments := Split(raw, ',');
    OverflowsIff(segments);
    forall i | 0 <= i < |segments| && ':' in segments[i]
      ensures Split(segments[i], ':')[1] == Before(After(segments[i], ':'), ':')
    {
      SplitPieces(segments[i], ':');
    }
  }

  /** Fewer than 50 commas never raise. */
  lemma ShortListFits(raw: string)
    requires Count(raw, ',') < SlotCount
    ensures Slots(raw).Some?
  {
  }

  /** The only things the callback does: upload the version, log it, or log that it could not. */
  predicate HandlerEvent(e: Event)
  {
    || (e.Posted? && e.request.DeviceInfo?)
    || (e.Log? && e.msg.Version?)
    || e == Log(VersionUnreadable)
  }

  /** What the callback does with one payload; the value says whether it raises out of the callback. */
  function HandlerOutcome(variant: Variant, deviceName: string, payload: seq<byte>, uploadRaises: bool): (r: Step<bool>)
    ensures forall e <- r.events :: HandlerEvent(e)
  {
    match DecodeAscii(payload)
    case None => Unreadable(variant, [])
    case Some(raw) =>
      if |raw| <= ShortLength then Step([], false)
      else match Slots(raw)
        case None => Unreadable(variant, [])
        case Some(slots) =>
          var upload := Posted(DeviceInfo(deviceName, slots[VersionSlot]));
          if uploadRaises then Unreadable(variant, [upload])
          else Step([upload, Log(Version(slots[VersionSlot]))], false)
  }

  /** The `except` clause: log the error; the GUI re-raises it, the console script swallows it. */
  function Unreadable(variant: Variant, before: seq<Event>): Step<bool>
  {
    Step(before + [Log(VersionUnreadable)], variant == Gui)
  }

  /** `notification_handler` of either variant, using the in-place slot loop. */
  method Handle(variant: Variant, deviceName: string, payload: seq<byte>, uploadRaises: bool)
    returns (events: seq<Event>, raised: bool)
    ensures Step(events, raised) == HandlerOutcome(variant, deviceName, payload, uploadRaises)
  {
    var text := DecodeAscii(payload);
    if text.None? {
      return [Log(VersionUnreadable)], variant == Gui;
    }
    var raw := text.value;
    if |raw| > ShortLength {
      var slots := FillSlots(raw);
      if slots.None? {
        return [Log(VersionUnreadable)], variant == Gui;
      }
      var parsed := slots.value;
      var upload := Posted(DeviceInfo(deviceName, parsed[VersionSlot]));
      if uploadRaises {
        return [upload, Log(VersionUnreadable)], variant == Gui;
      }
      return [upload, Log(Version(parsed[VersionSlot]))], false;
    }
    return [], false;
  }

  /** An ASCII payload of at most 40 characters produces no upload, no log entry and no error. */
  lemma ShortPayloadIgnored(variant: Variant, deviceName: string, payload: seq<byte>, uploadRaises: bool)
    requires forall b <- payload :: b < 128
    requires |payload| <= ShortLength
    ensures HandlerOutcome(variant, deviceName, payload, uploadRaises) == Step([], false)
  {
  }

  /**
   * A complete payload whose segment 18 is `key:version` (no further colon in the version)
   * uploads `(device name, version)` and logs the version, when no segment past slot 49 has a colon.
   */
  lemma VersionReported(variant: Variant, deviceName: string, payload: seq<byte>, key: string, version: string)
    requires |payload| > ShortLength
    requires DecodeAscii(payload).Some?
    requires |Split(DecodeAscii(payload).value, ',')| > VersionSlot
    requires Split(DecodeAscii(payload).value, ',')[VersionSlot] == key + [':'] + version
    requires ':' !in key && ':' !in version
    requires Slots(DecodeAscii(payload).value).Some?
    ensures HandlerOutcome(variant, deviceName, payload, false).events ==
      [Posted(DeviceInfo(deviceName, version)), Log(Version(version))]
  {
    var raw := DecodeAscii(payload).value;
    var segment := Split(raw, ',')[VersionSlot];
    SplitAtSeparator(key, version, ':');
    SplitWithoutSeparator(version, ':');
    assert Split(segment, ':')[1] == version;
  }

  /**
   * A complete payload with a colon in a segment past slot 49 uploads nothing and logs that the
   * version could not be read; the GUI handler then re-raises the index error, the console
   * handler swallows it.
   */
  lemma OverflowRaises(variant: Variant, deviceName: string, payload: seq<byte>, uploadRaises: bool)
    requires DecodeAscii(payload).Some? && |DecodeAscii(payload).value| > ShortLength
    requires exists i | SlotCount <= i < |Split(DecodeAscii(payload).value, ',')| ::
      ':' in Split(DecodeAscii(payload).value, ',')[i]
    ensures HandlerOutcome(variant, deviceName, payload, uploadRaises) == Step([Log(VersionUnreadable)], variant == Gui)
  {
    SlotsLayout(DecodeAscii(payload).value);
  }

  /**
   * A complete payload with no segment 18, or one without a colon, uploads and logs the default
   * slot `"0000000000"` as the version.
   */
  lemma DefaultVersionReported(variant: Variant, deviceName: string, payload: seq<byte>)
    requires DecodeAscii(payload).Some? && |DecodeAscii(payload).value| > ShortLength
    requires Slots(DecodeAscii(payload).value).Some?
    requires var segments := Split(DecodeAscii(payload).value, ',');
      |segments| <= VersionSlot || ':' !in segments[VersionSlot]
    ensures HandlerOutcome(variant, deviceName, payload, false) ==
      Step([Posted(DeviceInfo(deviceName, DefaultSlot)), Log(Version(DefaultSlot))], false)
  {
  }

  /** Only the GUI handler lets an exception escape, and it does so exactly when it logged one. */
  lemma RaiseDiscipline(variant: Variant, deviceName: string, payload: seq<byte>, uploadRaises: bool)
    ensures HandlerOutcome(variant, deviceName, payload, uploadRaises).value <==>
      variant == Gui && Log(VersionUnreadable) in HandlerOutcome(variant, deviceName, payload, uploadRaises).events
  {
  }
}
