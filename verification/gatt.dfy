/**
 * Reading the device record: connect, find the vendor service and its control characteristic,
 * read it if its properties allow, decode the bytes as ASCII and parse them as a telemetry record.
 * Every failure is logged and turns into `(None, None)`, except that the console script returns
 * a bare `None` for a characteristic that cannot be read.
 */
module Gatt {
  import opened Wrappers
  import opened Py
  import opened Events
  import Telemetry

  const ServiceUuid: string := "0000ffe0-0000-1000-8000-00805f9b34fb"
  const CharacteristicUuid: string := "0000ffe1-0000-1000-8000-00805f9b34fb"

  datatype Characteristic = Characteristic(uuid: string, properties: seq<string>)
  datatype Service = Service(uuid: string, characteristics: seq<Characteristic>)

  /** What `read_gatt_char` does: raise, or return the characteristic's bytes. */
  datatype ReadValue = ReadRaises | ReadBytes(bytes: seq<byte>)

  /** The device as one connection sees it; connecting or listing the services may raise. */
  datatype ReadLink = ConnectRaises | ReadLink(services: seq<Service>, value: ReadValue)

  /** What `read_characteristic` returns: the values and the record text, `(None, None)`, or `None`. */
  datatype ReadReturn = Fields(data: seq<string>, info: string) | NonePair | BareNone

  /** The first service with the vendor UUID. */
  function FindService(services: seq<Service>): (s: Option<Service>)
    ensures s.Some? ==> s.value.uuid == ServiceUuid
  {
    match First(services, (s: Service) => s.uuid == ServiceUuid)
    case None => None
    case Some(k) => Some(services[k])
  }

  /** The first characteristic with the control UUID. */
  function FindCharacteristic(characteristics: seq<Characteristic>): (c: Option<Characteristic>)
    ensures c.Some? ==> c.value.uuid == CharacteristicUuid
  {
    match First(characteristics, (c: Characteristic) => c.uuid == CharacteristicUuid)
    case None => None
    case Some(k) => Some(characteristics[k])
  }

  /** The log entry for a rejected record: the GUI tells the two errors apart, the console does not. */
  function RecordRejected(variant: Variant, e: Telemetry.DecodeError): Msg
  {
    match variant
    case Cli => BadRecord
    case Gui =>
      match e
      case FieldCountError(_) => BadFieldCount
      case FieldFormatError(item) => BadField(item)
  }

  /** The part after the read was issued: decode and parse what it returned. */
  function RecordOutcome(variant: Variant, value: ReadValue): (r: Step<ReadReturn>)
    ensures forall e <- r.events :: e.Log?
    ensures r.value.Fields? ==> Telemetry.Decode(r.value.info) == Success(r.value.data)
    ensures !r.value.BareNone?
  {
    match value
    case ReadRaises => Step([Log(ReadRaised)], NonePair)
    case ReadBytes(bytes) =>
      match DecodeAscii(bytes)
      case None => Step([Log(ReadRaised)], NonePair)
      case Some(raw) =>
        match Telemetry.Decode(raw)
        case Success(data) => Step([], Fields(data, raw))
        case Failure(e) => Step([Log(RecordRejected(variant, e))], NonePair)
  }

  /** `read_characteristic` of either variant. */
  function ReadOutcome(variant: Variant, link: ReadLink): (r: Step<ReadReturn>)
    ensures |r.events| > 0 && r.events[0] == Connecting
    ensures forall e <- r.events :: e.Log? || e == Connecting || e == ReadIssued
    ensures r.value.Fields? ==> Telemetry.Decode(r.value.info) == Success(r.value.data)
    ensures r.value.BareNone? ==> variant == Cli
  {
    match link
    case ConnectRaises => Step([Connecting, Log(ReadRaised)], NonePair)
    case ReadLink(services, value) =>
      match FindService(services)
      case None => Step([Connecting, Log(ServiceMissing)], NonePair)
      case Some(service) =>
        match FindCharacteristic(service.characteristics)
        case None => Step([Connecting, Log(CharacteristicMissing)], NonePair)
        case Some(c) =>
          if "read" in c.properties then
            var record := RecordOutcome(variant, value);
            Step([Connecting, ReadIssued] + record.events, record.value)
          else
            Step([Connecting, Log(NotReadable)], if variant == Gui then NonePair else BareNone)
  }

  /** The body of `read_characteristic`, parsing with the field loop. */
  method ReadCharacteristic(variant: Variant, link: ReadLink) returns (events: seq<Event>, ret: ReadReturn)
    ensures Step(events, ret) == ReadOutcome(variant, link)
  {
    events := [Connecting];
    if link.ConnectRaises? {
      return events + [Log(ReadRaised)], NonePair;
    }
    var service := FindService(link.services);
    if service.None? {
      return events + [Log(ServiceMissing)], NonePair;
    }
    var target := FindCharacteristic(service.value.characteristics);
    if target.None? {
      return events + [Log(CharacteristicMissing)], NonePair;
    }
    if "read" !in target.value.properties {
      return events + [Log(NotReadable)], if variant == Gui then NonePair else BareNone;
    }
    events := events + [ReadIssued];
    var recordEvents;
    recordEvents, ret := ReadRecord(variant, link.value);
    events := events + recordEvents;
  }

  /** The read of the characteristic, its ASCII decoding and the field loop. */
  method ReadRecord(variant: Variant, value: ReadValue) returns (events: seq<Event>, ret: ReadReturn)
    ensures Step(events, ret) == RecordOutcome(variant, value)
  {
    if value.ReadRaises? {
      return [Log(ReadRaised)], NonePair;
    }
    var rawData := DecodeAscii(value.bytes);
    if rawData.None? {
      return [Log(ReadRaised)], NonePair;
    }
    var parsed := Telemetry.ParseFields(rawData.value);
    if parsed.Failure? {
      return [Log(RecordRejected(variant, parsed.error))], NonePair;
    }
    return [], Fields(parsed.value, rawData.value);
  }

  /**
   * The control characteristic is found and may be read: the first service with the vendor UUID
   * exists, and the first of its characteristics with the control UUID lists "read".
   */
  predicate Readable(link: ReadLink)
  {
    && link.ReadLink?
    && exists i | 0 <= i < |link.services| ::
      && link.services[i].uuid == ServiceUuid
      && (forall j | 0 <= j < i :: link.services[j].uuid != ServiceUuid)
      && exists k | 0 <= k < |link.services[i].characteristics| ::
        && link.services[i].characteristics[k].uuid == CharacteristicUuid
        && (forall l | 0 <= l < k :: link.services[i].characteristics[l].uuid != CharacteristicUuid)
        && "read" in link.services[i].characteristics[k].properties
  }

  /** A read is issued exactly when the characteristic is found and readable. */
  lemma ReadIssuedIff(variant: Variant, link: ReadLink)
    ensures ReadIssued in ReadOutcome(variant, link).events <==> Readable(link)
  {
    ReadIssuedLocated(variant, link);
    ReadableLocated(link);
  }

  /** The lookups of `read_characteristic` find the characteristic, and it lists "read". */
  predicate Located(link: ReadLink)
  {
    && link.ReadLink?
    && FindService(link.services).Some?
    && FindCharacteristic(FindService(link.services).value.characteristics).Some?
    && "read" in FindCharacteristic(FindService(link.services).value.characteristics).value.properties
  }

  lemma ReadIssuedLocated(variant: Variant, link: ReadLink)
    ensures ReadIssued in ReadOutcome(variant, link).events <==> Located(link)
  {
    var t := ReadOutcome(variant, link).events;
    match link
    case ConnectRaises =>
      assert t == [Connecting, Log(ReadRaised)];
    case ReadLink(services, value) =>
      match FindService(services)
      case None =>
        assert t == [Connecting, Log(ServiceMissing)];
      case Some(service) =>
        match FindCharacteristic(service.characteristics)
        case None =>
          assert t == [Connecting, Log(CharacteristicMissing)];
        case Some(c) =>
          if "read" in c.properties {
            assert t[1] == ReadIssued;
          } else {
            assert t == [Connecting, Log(NotReadable)];
          }
  }

  lemma ReadableLocated(link: ReadLink)
    ensures Readable(link) <==> Located(link)
  {
    if Readable(link) {
      var i, k :| 0 <= i < |link.services| && link.services[i].uuid == ServiceUuid
        && (forall j | 0 <= j < i :: link.services[j].uuid != ServiceUuid)
        && 0 <= k < |link.services[i].characteristics|
        && link.services[i].characteristics[k].uuid == CharacteristicUuid
        && (forall l | 0 <= l < k :: link.services[i].characteristics[l].uuid != CharacteristicUuid)
        && "read" in link.services[i].characteristics[k].properties;
      FirstAt(link.services, (s: Service) => s.uuid == ServiceUuid, i);
      FirstAt(link.services[i].characteristics, (c: Characteristic) => c.uuid == CharacteristicUuid, k);
    }
    if Located(link) {
      var i := First(link.services, (s: Service) => s.uuid == ServiceUuid).value;
      var service := link.services[i];
      var k := First(service.characteristics, (c: Characteristic) => c.uuid == CharacteristicUuid).value;
      assert service.characteristics[k].uuid == CharacteristicUuid;
    }
  }

  /**
   * The record is returned exactly when the characteristic was readable and its bytes are an
   * ASCII text that decodes as a record; that text is returned as the record text.
   */
  lemma RecordReturnedIff(variant: Variant, link: ReadLink)
    ensures ReadOutcome(variant, link).value.Fields? <==>
      && ReadIssued in ReadOutcome(variant, link).events
      && link.value.ReadBytes?
      && DecodeAscii(link.value.bytes).Some?
      && Telemetry.Decode(DecodeAscii(link.value.bytes).value).Success?
    ensures ReadOutcome(variant, link).value.Fields? ==>
      Some(ReadOutcome(variant, link).value.info) == DecodeAscii(link.value.bytes)
  {
    ReadShape(variant, link);
  }

  /** Without a read nothing is returned; after one, the record step decides the return. */
  lemma ReadShape(variant: Variant, link: ReadLink)
    ensures ReadIssued !in ReadOutcome(variant, link).events ==> !ReadOutcome(variant, link).value.Fields?
    ensures ReadIssued in ReadOutcome(variant, link).events ==>
      && link.ReadLink?
      && ReadOutcome(variant, link).value == RecordOutcome(variant, link.value).value
      && ReadOutcome(variant, link).events == [Connecting, ReadIssued] + RecordOutcome(variant, link.value).events
  {
    var t := ReadOutcome(variant, link).events;
    match link
    case ConnectRaises =>
      assert t == [Connecting, Log(ReadRaised)];
    case ReadLink(services, value) =>
      match FindService(services)
      case None =>
        assert t == [Connecting, Log(ServiceMissing)];
      case Some(service) =>
        match FindCharacteristic(service.characteristics)
        case None =>
          assert t == [Connecting, Log(CharacteristicMissing)];
        case Some(c) =>
          if "read" !in c.properties {
            assert t == [Connecting, Log(NotReadable)];
          }
  }

  /** The two variants read the same record from the same device and issue the same operations. */
  lemma VariantsAgree(link: ReadLink)
    ensures ReadOutcome(Gui, link).value.Fields? <==> ReadOutcome(Cli, link).value.Fields?
    ensures ReadOutcome(Gui, link).value.Fields? ==> ReadOutcome(Gui, link).value == ReadOutcome(Cli, link).value
    ensures |ReadOutcome(Gui, link).events| == |ReadOutcome(Cli, link).events|
    ensures forall i | 0 <= i < |ReadOutcome(Gui, link).events| ::
      ReadOutcome(Gui, link).events[i].Log? <==> ReadOutcome(Cli, link).events[i].Log?
    ensures forall i | 0 <= i < |ReadOutcome(Gui, link).events| && !ReadOutcome(Gui, link).events[i].Log? ::
      ReadOutcome(Gui, link).events[i] == ReadOutcome(Cli, link).events[i]
  {
    match link
    case ConnectRaises =>
    case ReadLink(services, value) =>
      match FindService(services)
      case None =>
      case Some(service) =>
        match FindCharacteristic(service.characteristics)
        case None =>
        case Some(c) =>
          if "read" in c.properties {
            RecordAgrees(value);
            ReadEventsAgree(RecordOutcome(Gui, value).events, RecordOutcome(Cli, value).events);
          }
  }

  /** Both variants make the same decision on the bytes read, and log as many lines. */
  lemma RecordAgrees(value: ReadValue)
    ensures RecordOutcome(Gui, value).value == RecordOutcome(Cli, value).value
    ensures |RecordOutcome(Gui, value).events| == |RecordOutcome(Cli, value).events|
  {
    match value
    case ReadRaises =>
    case ReadBytes(bytes) =>
      match DecodeAscii(bytes)
      case None =>
      case Some(raw) =>
        match Telemetry.Decode(raw)
        case Success(data) =>
        case Failure(e) =>
  }

  /** Reads whose log lines line up position by position. */
  lemma ReadEventsAgree(g: seq<Event>, k: seq<Event>)
    requires |g| == |k|
    requires forall e <- g :: e.Log?
    requires forall e <- k :: e.Log?
    ensures var gui := [Connecting, ReadIssued] + g; var cli := [Connecting, ReadIssued] + k;
      && |gui| == |cli|
      && (forall i | 0 <= i < |gui| :: gui[i].Log? <==> cli[i].Log?)
      && (forall i | 0 <= i < |gui| && !gui[i].Log? :: gui[i] == cli[i])
  {
    var gui := [Connecting, ReadIssued] + g;
    var cli := [Connecting, ReadIssued] + k;
    forall i | 2 <= i < |gui|
      ensures gui[i].Log? && cli[i].Log?
    {
      assert gui[i] == g[i - 2] && cli[i] == k[i - 2];
      assert g[i - 2] in g && k[i - 2] in k;
    }
  }

  /** Only the console script returns a bare `None`, and only for a characteristic it may not read. */
  lemma BareNoneIff(variant: Variant, link: ReadLink)
    ensures ReadOutcome(variant, link).value.BareNone? <==>
      variant == Cli && Log(NotReadable) in ReadOutcome(variant, link).events
  {
  }

  /** A record the GUI rejects is logged with the first malformed field. */
  lemma GuiNamesBadField(link: ReadLink, raw: string, item: string)
    requires ReadIssued in ReadOutcome(Gui, link).events
    requires link.value.ReadBytes? && DecodeAscii(link.value.bytes) == Some(raw)
    requires Telemetry.Decode(raw) == Failure(Telemetry.FieldFormatError(item))
    ensures ReadOutcome(Gui, link) == Step([Connecting, ReadIssued, Log(BadField(item))], NonePair)
  {
    ReadShape(Gui, link);
    assert RecordOutcome(Gui, link.value) == Step([Log(BadField(item))], NonePair);
  }
}
