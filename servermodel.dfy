/** The request engine of ChatServer as functions on a value of the server's
    state: one function per method that reads or changes that state. Sockets are
    handles; every `respond` appends a frame addressed to a handle to `sent`;
    timestamps are dropped from the log. An uncaught exception ends the step with
    the state reached just before it was thrown. */
module ServerModel {
  import opened JavaLang
  import opened Framing

  /** An opaque stand-in for a client's SocketChannel. */
  type Handle = nat

  /** One frame written by `respond` to a client. */
  datatype Delivery = Delivery(to: Handle, frame: string)

  /** One line of `serverLog` without its timestamp: "<name>: <text>" or
      "<name> logged <inOut>". */
  datatype LogEntry = ChatLine(name: string, text: string) | Presence(name: string, inOut: string)

  datatype ServerState = ServerState(
    cache: map<Handle, string>,     // incompleteMessageCache
    queued: map<Handle, string>,    // queuedClientAnswer
    identity: map<Handle, string>,  // idClientBySocket: the id declared at login
    active: seq<Handle>,            // activeClients, in order, repeats allowed
    log: seq<LogEntry>,             // serverLog
    sent: seq<Delivery>)            // every frame written by respond, in order

  /** The state after a step, and the exception that ended it early, if any. */
  datatype Outcome = Outcome(st: ServerState, fault: Option<Fault>)

  function Ok(st: ServerState): Outcome { Outcome(st, None) }

  function Crash(st: ServerState, f: Fault): Outcome { Outcome(st, Some(f)) }

  /** The string the source stores to mean "nothing cached" / "nothing expected". */
  const Null := "null"

  /** The state of a freshly constructed server. */
  const Initial := ServerState(map[], map[], map[], [], [], [])

  /** queuedClientAnswer.getOrDefault(client, ""). */
  function Queued(st: ServerState, client: Handle): string {
    if client in st.queued then st.queued[client] else ""
  }

  /** The cached partial text that handleRead appends to a new chunk: an absent
      entry and the "null" sentinel both mean nothing. */
  function Carry(st: ServerState, client: Handle): string {
    var existing := if client in st.cache then st.cache[client] else "";
    if existing == Null then "" else existing
  }

  /** getName: the stored login record is the declared id, a tab and the local
      address, and the name is its first tab-separated field, that is, the id
      up to its first tab (see ServerProperties.NameIsFirstField). */
  function Name(id: string): (r: string)
    ensures IsPrefix(r, id) && '\t' !in r && (|r| < |id| ==> id[|r|] == '\t')
  {
    FirstField(id, '\t');
    Fields(id, '\t')[0]
  }

  /** The frames one loop over activeClients writes: `text` to every target, in
      list order. */
  function Fanout(targets: seq<Handle>, text: string): (r: seq<Delivery>)
    ensures |r| == |targets|
    ensures forall i :: 0 <= i < |targets| ==> r[i] == Delivery(targets[i], Frame(text))
    decreases |targets|
  {
    if targets == [] then [] else [Delivery(targets[0], Frame(text))] + Fanout(targets[1..], text)
  }

  /** The server invariant: every active client has an identity, and every queued
      answer is the sentinel or an "ACK ..." confirmation. */
  ghost predicate Wf(st: ServerState) {
    (forall h :: h in st.active ==> h in st.identity) &&
    (forall h :: h in st.queued ==> st.queued[h] == Null || IsPrefix("ACK ", st.queued[h]))
  }

  /** What every step keeps: the log and the written frames only grow at the
      end, and an identity once recorded never changes or disappears. */
  ghost predicate Evolves(st: ServerState, st': ServerState) {
    st.log <= st'.log && st.sent <= st'.sent &&
    (forall h :: h in st.identity ==> h in st'.identity && st'.identity[h] == st.identity[h])
  }

  // ---------------------------------------------------------------------------
  // One function per method of ChatServer.

  /** respond(response, client). */
  function Respond(st: ServerState, client: Handle, response: string): ServerState {
    st.(sent := st.sent + [Delivery(client, Frame(response))])
  }

  /** globalRespond(message, name). */
  function GlobalRespond(st: ServerState, message: string, name: string): ServerState {
    st.(sent := st.sent + Fanout(st.active, name + ": " + message))
  }

  /** The text of a login or logout notice: "<name> logged <inOut>". */
  function Notice(name: string, inOut: string): string {
    name + " logged " + inOut
  }

  /** globalLogInOutNotify(inOut, name): one log line, then the notice to every
      active client. */
  function GlobalLogInOutNotify(st: ServerState, inOut: string, name: string): ServerState {
    st.(log := st.log + [Presence(name, inOut)],
        sent := st.sent + Fanout(st.active, Notice(name, inOut)))
  }

  /** buildLog(message, name). */
  function BuildLog(st: ServerState, message: string, name: string): ServerState {
    st.(log := st.log + [ChatLine(name, message)])
  }

  /** messageHandler: relay to every active client (the sender too), then log;
      a client without identity makes getName throw. */
  function MessageHandler(st: ServerState, client: Handle, message: string): (o: Outcome)
    ensures Evolves(st, o.st) && (Wf(st) ==> Wf(o.st))
    ensures o.st.active == st.active && o.st.queued == st.queued && o.st.cache == st.cache
  {
    if client !in st.identity then Crash(st, NullPointer)
    else
      var name := Name(st.identity[client]);
      Ok(BuildLog(GlobalRespond(st, message, name), message, name))
  }

  /** loginHandler: add to activeClients, record the id unless one is recorded
      already, then announce the login under the recorded name. */
  function LoginHandler(st: ServerState, client: Handle, request: string): (st': ServerState)
    ensures Evolves(st, st') && (Wf(st) ==> Wf(st'))
    ensures st'.active == st.active + [client] && client in st'.identity
  {
    var st1 := st.(active := st.active + [client]);
    var name := ReplaceAll(request, "ACK ", "");
    var st2 := if client in st1.identity then st1 else st1.(identity := st1.identity[client := name]);
    GlobalLogInOutNotify(st2, "in", Name(st2.identity[client]))
  }

  /** logoutHandler: log and announce the logout to every active client; only a
      client that is still active is removed and sent the logout confirmation.
      The identity is kept. */
  function LogoutHandler(st: ServerState, client: Handle): (o: Outcome)
    ensures Evolves(st, o.st) && (Wf(st) ==> Wf(o.st))
    ensures o.st.identity == st.identity && o.st.queued == st.queued && o.st.cache == st.cache
  {
    if client !in st.identity then Crash(st, NullPointer)
    else
      var name := Name(st.identity[client]);
      var st1 := GlobalLogInOutNotify(st, "out", name);
      if client in st1.active then
        Ok(Respond(st1.(active := ListRemove(st1.active, client)), client, "SYN RST " + name + " ACK"))
      else
        Ok(st1)
  }

  /** finishHandshake: a two-word request starting with ACK logs the client in
      and clears the expected answer; anything else is ignored. */
  function FinishHandshake(st: ServerState, client: Handle, request: string): (o: Outcome)
    ensures Evolves(st, o.st) && (Wf(st) ==> Wf(o.st))
    ensures o.st.cache == st.cache
  {
    var reqParts := Split(request, ' ');
    if |reqParts| == 0 then Crash(st, ArrayIndexOutOfBounds)
    else if reqParts[0] == "ACK" && |reqParts| == 2 then
      var st1 := LoginHandler(st, client, request);
      Ok(st1.(queued := st1.queued[client := Null]))
    else Ok(st)
  }

  /** serviceRequest: "SYN <id>" starts a handshake, "SYN RST <x>" logs out, a
      lone "SYN" reads past the end of the words, anything else is chat. */
  function ServiceRequest(st: ServerState, client: Handle, request: string): (o: Outcome)
    ensures Evolves(st, o.st) && (Wf(st) ==> Wf(o.st))
    ensures o.st.cache == st.cache
  {
    var reqParts := Split(request, ' ');
    if |reqParts| == 0 then Ok(st)
    else if reqParts[0] == "SYN" && |reqParts| == 2 then
      var st1 := Respond(st, client, "SYN " + reqParts[1] + " ACK");
      assert IsPrefix("ACK ", "ACK " + reqParts[1]);
      Ok(st1.(queued := st1.queued[client := "ACK " + reqParts[1]]))
    else if reqParts[0] == "SYN" && |reqParts| < 2 then Crash(st, ArrayIndexOutOfBounds)
    else if reqParts[0] == "SYN" && reqParts[1] == "RST" && |reqParts| == 3 then LogoutHandler(st, client)
    else MessageHandler(st, client, request)
  }

  /** The body of processRequests' loop: a request equal to the queued answer
      finishes the handshake, any other is serviced. */
  function Route(st: ServerState, client: Handle, request: string): (o: Outcome)
    ensures Evolves(st, o.st) && (Wf(st) ==> Wf(o.st))
    ensures o.st.cache == st.cache
  {
    if Queued(st, client) == request then FinishHandshake(st, client, request)
    else ServiceRequest(st, client, request)
  }

  /** processRequests' loop over the pieces, left to right, stopping at the
      first exception. */
  function ProcessPieces(st: ServerState, client: Handle, requests: seq<string>): (o: Outcome)
    ensures Evolves(st, o.st) && (Wf(st) ==> Wf(o.st))
    ensures o.st.cache == st.cache
    decreases |requests|
  {
    if requests == [] then Ok(st)
    else
      var o := ProcessPieces(st, client, requests[..|requests| - 1]);
      if o.fault.Some? then o
      else
        var o' := Route(o.st, client, requests[|requests| - 1]);
        EvolvesTrans(st, o.st, o'.st);
        o'
  }

  /** processRequests(requests, client). */
  function ProcessRequests(st: ServerState, client: Handle, requests: string): (o: Outcome)
    ensures Evolves(st, o.st) && (Wf(st) ==> Wf(o.st))
    ensures o.st.cache == st.cache
  {
    ProcessPieces(st, client, Split(requests, Delim))
  }

  /** One pass of handleRead's loop, for one chunk read from the client: the
      chunk followed by the cached carry is dispatched if it ends with the
      delimiter, and the cache is then reset to "null"; otherwise the whole of it
      is cached and nothing is dispatched. */
  function ReadChunk(st: ServerState, client: Handle, newMessage: string): (o: Outcome)
    ensures Evolves(st, o.st) && (Wf(st) ==> Wf(o.st))
    ensures var combined := newMessage + Carry(st, client);
      o.fault == None ==>
        o.st.cache == st.cache[client := if EndsWithDelim(combined) then Null else combined]
    ensures !EndsWithDelim(newMessage + Carry(st, client)) ==>
      o == Ok(st.(cache := st.cache[client := newMessage + Carry(st, client)]))
  {
    var combined := newMessage + Carry(st, client);
    if EndsWithDelim(combined) then
      var o := ProcessRequests(st, client, combined);
      if o.fault.Some? then o else Ok(o.st.(cache := o.st.cache[client := Null]))
    else Ok(st.(cache := st.cache[client := combined]))
  }

  /** handleRead: every chunk the channel yields, one after the other, until one
      of them raises an exception. */
  function HandleRead(st: ServerState, client: Handle, chunks: seq<string>): (o: Outcome)
    ensures Evolves(st, o.st) && (Wf(st) ==> Wf(o.st))
    decreases |chunks|
  {
    if chunks == [] then Ok(st)
    else
      var o := ReadChunk(st, client, chunks[0]);
      if o.fault.Some? then o
      else
        var o' := HandleRead(o.st, client, chunks[1..]);
        EvolvesTrans(st, o.st, o'.st);
        o'
  }

  /** exceptionHandler: the client leaves activeClients (closing its socket is
      not modelled). */
  function ExceptionHandler(st: ServerState, client: Handle): (st': ServerState)
    ensures Evolves(st, st') && (Wf(st) ==> Wf(st'))
  {
    st.(active := ListRemove(st.active, client))
  }

  /** The loop of stopServer with `n` iterations left (its index is n - 1): take
      the client at the index, remove it, then run logoutHandler for it. */
  function StopLoop(st: ServerState, n: nat): (o: Outcome)
    ensures Evolves(st, o.st) && (Wf(st) ==> Wf(o.st))
    decreases n
  {
    if n == 0 then Ok(st)
    else if n - 1 >= |st.active| then Crash(st, ArrayIndexOutOfBounds)
    else
      var client := st.active[n - 1];
      var st1 := ExceptionHandler(st, client);
      var o := LogoutHandler(st1, client);
      if o.fault.Some? then o
      else
        var o' := StopLoop(o.st, n - 1);
        EvolvesTrans(st, o.st, o'.st);
        o'
  }

  /** The client-removal part of stopServer. */
  function StopServer(st: ServerState): (o: Outcome)
    ensures Evolves(st, o.st) && (Wf(st) ==> Wf(o.st))
  {
    if |st.active| == 0 then Ok(st) else StopLoop(st, |st.active|)
  }

  lemma EvolvesTrans(a: ServerState, b: ServerState, c: ServerState)
    requires Evolves(a, b) && Evolves(b, c)
    ensures Evolves(a, c)
  {
  }
}
