/**
 * The exchange service: the restore endpoint (`POST apigetdata` with the parsed values, the
 * device name and the record text) and the initialisation endpoint (`GET apiinitdata` with the
 * device name). A 200 reply's body is the hex command; every other outcome yields `None`.
 */
module Exchange {
  import opened Wrappers
  import opened Events

  /** How a request ended: a status and a body, or an exception from the HTTP library. */
  datatype HttpReply = Reply(status: int, text: string) | RequestRaises

  /**
   * The status handling shared by both endpoints. The GUI names 403 and 429 and is silent
   * otherwise; the console script names 403 and reports every other failure alike.
   */
  function StatusOutcome(variant: Variant, reply: HttpReply): (r: Step<Option<string>>)
    ensures forall e <- r.events :: e.Log?
    ensures |r.events| <= 1
  {
    match reply
    case RequestRaises => Step(if variant == Gui then [] else [Log(FetchFailed)], None)
    case Reply(status, text) =>
      if status == 403 then Step([Log(NotSubscribed)], None)
      else if status == 429 && variant == Gui then Step([Log(TooFrequent)], None)
      else if status == 200 then Step([], Some(text))
      else Step(if variant == Gui then [] else [Log(FetchFailed)], None)
  }

  /** `get_data`: post the record, then handle the reply. */
  function FetchRestore(variant: Variant, data: seq<string>, name: string, info: string, reply: HttpReply): (r: Step<Option<string>>)
    ensures |r.events| >= 1 && r.events[0] == Posted(GetData(data, name, info))
    ensures forall e <- r.events :: e == Posted(GetData(data, name, info)) || e.Log?
  {
    var handled := StatusOutcome(variant, reply);
    Step([Posted(GetData(data, name, info))] + handled.events, handled.value)
  }

  /** `init_data`: request the initialisation command, then handle the reply. */
  function FetchInit(variant: Variant, name: string, reply: HttpReply): (r: Step<Option<string>>)
    ensures |r.events| >= 1 && r.events[0] == Posted(InitData(name))
    ensures forall e <- r.events :: e == Posted(InitData(name)) || e.Log?
  {
    var handled := StatusOutcome(variant, reply);
    Step([Posted(InitData(name))] + handled.events, handled.value)
  }

  /** A command is returned exactly for a 200 reply, and it is that reply's body, empty or not. */
  lemma CommandOnlyOn200(variant: Variant, reply: HttpReply, command: string)
    ensures StatusOutcome(variant, reply).value == Some(command) <==> reply == Reply(200, command)
    ensures StatusOutcome(variant, reply).value.None? <==> !(reply.Reply? && reply.status == 200)
  {
  }

  /** The console script reports every failed fetch; on a 200 reply neither variant logs anything. */
  lemma FailuresReported(reply: HttpReply)
    ensures StatusOutcome(Cli, reply).value.None? <==> |StatusOutcome(Cli, reply).events| == 1
    ensures StatusOutcome(Gui, reply).value.Some? ==> StatusOutcome(Gui, reply).events == []
    ensures StatusOutcome(Gui, reply).events != [] <==>
      reply.Reply? && (reply.status == 403 || reply.status == 429)
  {
  }

  /** A rate-limit reply is named only by the GUI; the console script reports a generic failure. */
  lemma RateLimitMessages()
    ensures StatusOutcome(Gui, Reply(429, "")).events == [Log(TooFrequent)]
    ensures StatusOutcome(Cli, Reply(429, "")).events == [Log(FetchFailed)]
    ensures StatusOutcome(Gui, Reply(403, "")).events == StatusOutcome(Cli, Reply(403, "")).events
  {
  }
}
