/** The live-notification channel: a process-wide map from user id to the
    controller of that user's open event stream. Opening a stream registers
    it (replacing any earlier one) and sends a handshake; cancelling deletes
    the user's entry; sending to a user enqueues one frame if the user has an
    entry, and drops the entry when the enqueue throws.

    A controller is modelled as the frames enqueued on it so far and whether
    it still accepts frames (enqueue on a closed stream throws). JSON is an
    opaque string here; the frames follow the event stream format of the
    server-sent events section of the WHATWG HTML Living Standard: a
    `data: ` line followed by a blank line. */
module NotificationStream {
  import opened Base

  datatype Channel = Channel(stream: nat, frames: seq<string>, accepting: bool)

  type Registry = map<Id, Channel>

  const HandshakeJson := "{\"type\":\"connected\",\"message\":\"Connected\"}"

  function NotificationJson(data: string): string {
    "{\"type\":\"notification\",\"data\":" + data + "}"
  }

  function Frame(json: string): string {
    "data: " + json + "\n\n"
  }

  predicate SingleLine(s: string) {
    '\n' !in s && '\r' !in s
  }

  /** What an event-stream reader makes of one block holding a single
      `data: ` line: the event's data, or nothing for any other block. */
  function ParseFrame(block: string): (r: Option<string>)
    ensures r.Some? ==> SingleLine(r.value) && block == Frame(r.value)
  {
    if |block| >= 8 && block[..6] == "data: " && block[|block| - 2..] == "\n\n"
       && SingleLine(block[6..|block| - 2])
    then
      assert block == block[..6] + block[6..|block| - 2] + block[|block| - 2..];
      Some(block[6..|block| - 2])
    else None
  }

  /** A frame carries its JSON through unchanged (`JSON.stringify` never
      emits a raw line break). */
  lemma FrameRoundTrip(json: string)
    requires SingleLine(json)
    ensures ParseFrame(Frame(json)) == Some(json)
  {
    var f := Frame(json);
    assert f[..6] == "data: ";
    assert f[|f| - 2..] == "\n\n";
    assert f[6..|f| - 2] == json;
  }

  datatype OpenReply = OpenUnauthorized | Opened(stream: nat)

  datatype OpenResult = OpenResult(reply: OpenReply, registry: Registry)

  /** `GET /stream`: refuse a caller without a session; otherwise register
      the new stream under the caller's id and enqueue the handshake. */
  function Open(reg: Registry, caller: Option<Id>, stream: nat): (r: OpenResult)
    ensures caller.None? ==> r == OpenResult(OpenUnauthorized, reg)
    ensures caller.Some? ==>
      && r.reply == Opened(stream)
      && r.registry.Keys == reg.Keys + {caller.value}
      && r.registry[caller.value] == Channel(stream, [Frame(HandshakeJson)], true)
      && (forall u :: u in reg && u != caller.value ==> r.registry[u] == reg[u])
  {
    match caller
    case None => OpenResult(OpenUnauthorized, reg)
    case Some(me) => OpenResult(Opened(stream), reg[me := Channel(stream, [Frame(HandshakeJson)], true)])
  }

  /** The stream's `cancel`: deletes the entry for that user, whichever
      stream it now holds. */
  function Cancel(reg: Registry, user: Id): (r: Registry)
    ensures r.Keys == reg.Keys - {user}
    ensures forall u :: u in r ==> r[u] == reg[u]
  {
    reg - {user}
  }

  /** `sendRealtimeNotification`: nothing without an entry; one frame when the
      stream accepts it; otherwise the entry is dropped and nothing is
      reported. */
  function Send(reg: Registry, user: Id, data: string): (r: Registry)
    ensures user !in reg ==> r == reg
    ensures user in reg && reg[user].accepting ==>
      && r.Keys == reg.Keys
      && r[user] == reg[user].(frames := reg[user].frames + [Frame(NotificationJson(data))])
    ensures user in reg && !reg[user].accepting ==> r.Keys == reg.Keys - {user}
    ensures forall u :: u in r && u != user ==> u in reg && r[u] == reg[u]
  {
    if user !in reg then reg
    else
      var ch := reg[user];
      if ch.accepting then reg[user := ch.(frames := ch.frames + [Frame(NotificationJson(data))])]
      else reg - {user}
  }

  /** Every registered stream began with the handshake. */
  ghost predicate HandshakeFirst(reg: Registry) {
    forall u :: u in reg ==> |reg[u].frames| >= 1 && reg[u].frames[0] == Frame(HandshakeJson)
  }

  lemma OpenKeepsHandshakeFirst(reg: Registry, caller: Option<Id>, stream: nat)
    requires HandshakeFirst(reg)
    ensures HandshakeFirst(Open(reg, caller, stream).registry)
  {
  }

  lemma SendKeepsHandshakeFirst(reg: Registry, user: Id, data: string)
    requires HandshakeFirst(reg)
    ensures HandshakeFirst(Send(reg, user, data))
  {
    var r := Send(reg, user, data);
    forall u | u in r ensures |r[u].frames| >= 1 && r[u].frames[0] == Frame(HandshakeJson) {
      if u == user {
        assert (reg[u].frames + [Frame(NotificationJson(data))])[0] == reg[u].frames[0];
      }
    }
  }

  lemma CancelKeepsHandshakeFirst(reg: Registry, user: Id)
    requires HandshakeFirst(reg)
    ensures HandshakeFirst(Cancel(reg, user))
  {
  }

  /** A send to an accepting stream adds exactly one frame, and a reader gets
      back a `notification` event carrying the data. */
  lemma SendDeliversOneFrame(reg: Registry, user: Id, data: string)
    requires user in reg && reg[user].accepting && SingleLine(data)
    ensures var r := Send(reg, user, data);
      && |r[user].frames| == |reg[user].frames| + 1
      && r[user].frames[..|reg[user].frames|] == reg[user].frames
      && ParseFrame(r[user].frames[|reg[user].frames|]) == Some(NotificationJson(data))
  {
    FrameRoundTrip(NotificationJson(data));
  }

  /** Cancelling an older stream of a user also unregisters a newer one that
      replaced it: the newer stream stays open but receives nothing more. */
  lemma StaleCancelDropsNewerStream(reg: Registry, me: Id, older: nat, newer: nat, data: string)
    ensures var r1 := Open(reg, Some(me), older).registry;
      var r2 := Open(r1, Some(me), newer).registry;
      var r3 := Cancel(r2, me);
      && r2[me].stream == newer
      && me !in r3
      && Send(r3, me, data) == r3
  {
  }
}
