/** What the request engine of ChatServer does, proved about ServerModel:
    how requests are read off the stream, the handshake, chat relay, logout,
    disconnection and shutdown. */
module ServerProperties {
  import opened JavaLang
  import opened Framing
  import opened ServerModel

  // ---------------------------------------------------------------------------
  // Reading words and names.

  lemma TwoWords(a: string, b: string)
    requires a != "" && b != "" && ' ' !in a && ' ' !in b
    ensures Split(a + " " + b, ' ') == [a, b]
  {
    assert [a, b][1..] == [b];
    assert Join([a, b], ' ') == a + " " + b;
    SplitOfJoin([a, b], ' ');
  }

  lemma ThreeWords(a: string, b: string, c: string)
    requires a != "" && b != "" && c != "" && ' ' !in a && ' ' !in b && ' ' !in c
    ensures Split(a + " " + b + " " + c, ' ') == [a, b, c]
  {
    assert [a, b, c][1..] == [b, c];
    assert [b, c][1..] == [c];
    assert Join([b, c], ' ') == b + " " + c;
    assert Join([a, b, c], ' ') == a + " " + b + " " + c;
    SplitOfJoin([a, b, c], ' ');
  }

  lemma RstWords(x: string)
    requires x != "" && ' ' !in x
    ensures Split("SYN RST " + x, ' ') == ["SYN", "RST", x]
  {
    var prefix := "SYN" + " " + "RST" + " ";
    assert prefix == "SYN RST ";
    assert "SYN" + " " + "RST" + " " + x == prefix + x;
    ThreeWords("SYN", "RST", x);
  }

  /** getName splits the record "<id>\t<address>" on tabs and keeps the first
      field; for any address without tabs that is Name(id). */
  lemma NameIsFirstField(id: string, address: string)
    requires address != "" && '\t' !in address
    ensures var parts := Split(id + "\t" + address, '\t');
      |parts| >= 1 && parts[0] == Name(id)
  {
    assert id + "\t" + address == id + ['\t'] + address;
    FieldsConcat(id, address, '\t');
    FieldsNoSep(address, '\t');
    var fs := Fields(id, '\t') + [address];
    assert StripTrailingEmpty(fs) == fs;
  }

  /** An id without tabs is its own name. */
  lemma NameOfPlainId(id: string)
    requires '\t' !in id
    ensures Name(id) == id
  {
    FieldsNoSep(id, '\t');
  }

  /** loginHandler's request.replace("ACK ", "") recovers the id of "ACK <id>". */
  lemma ReplaceAck(id: string)
    requires ' ' !in id
    ensures ReplaceAll("ACK " + id, "ACK ", "") == id
  {
    var s := "ACK " + id;
    assert IsPrefix("ACK ", s);
    assert s[4..] == id;
    ReplaceAllAbsent(id, "ACK ", "");
  }

  /** Under the invariant, the queued answer is never a request that starts with SYN. */
  lemma QueuedIsNotSyn(st: ServerState, client: Handle, request: string)
    requires Wf(st) && IsPrefix("SYN", request)
    ensures Queued(st, client) != request
  {
    var q := Queued(st, client);
    assert q == "" || q == Null || IsPrefix("ACK ", q);
    assert request[0] == 'S';
  }

  // ---------------------------------------------------------------------------
  // Reading the stream.

  /** processRequests handles its pieces strictly from left to right: `ps + qs`
      is `ps` followed by `qs` from where `ps` left off, and once a piece of
      `ps` throws, no piece of `qs` is looked at. */
  lemma {:induction false} ProcessPiecesAppend(st: ServerState, client: Handle, ps: seq<string>, qs: seq<string>)
    ensures ProcessPieces(st, client, ps + qs) ==
      (var o := ProcessPieces(st, client, ps);
       if o.fault.Some? then o else ProcessPieces(o.st, client, qs))
    decreases |qs|
  {
    if qs == [] {
      assert ps + qs == ps;
    } else {
      ProcessPiecesAppend(st, client, ps, qs[..|qs| - 1]);
      assert (ps + qs)[..|ps + qs| - 1] == ps + qs[..|qs| - 1];
      assert (ps + qs)[|ps + qs| - 1] == qs[|qs| - 1];
    }
  }

  /** With nothing carried, a chunk made of whole frames is dispatched frame by
      frame, in order (empty frames at the end are dropped by split), and the
      cache is reset to "null". */
  lemma WholeFramesAreDispatched(st: ServerState, client: Handle, ts: seq<string>)
    requires Carry(st, client) == "" && ts != [] && Unframed(ts)
    ensures ReadChunk(st, client, Frames(ts)) ==
      (var o := ProcessPieces(st, client, StripTrailingEmpty(ts));
       if o.fault.Some? then o else Ok(o.st.(cache := o.st.cache[client := Null])))
  {
    SplitFrames(ts);
    assert Frames(ts) + "" == Frames(ts);
  }

  predicate IsSuffix(p: string, s: string) {
    |p| <= |s| && s[|s| - |p|..] == p
  }

  /** Because handleRead puts the cached text AFTER the new chunk, a cached text
      that does not end with the delimiter stays at the end for ever: whatever
      the client sends afterwards, nothing more from it is dispatched, nothing is
      written and nothing is logged; only the cache grows. (A carry that is a
      suffix of "null" is excluded: it can turn into the sentinel.) */
  lemma {:induction false} PartialCarryBlocksClient(st: ServerState, client: Handle, chunks: seq<string>, p: string)
    requires p != "" && !EndsWithDelim(p) && !IsSuffix(p, Null)
    requires IsSuffix(p, Carry(st, client))
    ensures var o := HandleRead(st, client, chunks);
      o.fault == None && o.st == st.(cache := o.st.cache) && IsSuffix(p, Carry(o.st, client))
    decreases |chunks|
  {
    if chunks != [] {
      var combined := chunks[0] + Carry(st, client);
      SuffixExtends(chunks[0], Carry(st, client), p);
      assert combined != Null;
      var st1 := st.(cache := st.cache[client := combined]);
      assert HandleRead(st, client, chunks) == HandleRead(st1, client, chunks[1..]);
      assert Carry(st1, client) == combined;
      PartialCarryBlocksClient(st1, client, chunks[1..], p);
    }
  }

  lemma SuffixExtends(chunk: string, q: string, p: string)
    requires p != "" && IsSuffix(p, q)
    ensures IsSuffix(p, chunk + q) && !EndsWithDelim(chunk + q) == !EndsWithDelim(p)
  {
    var combined := chunk + q;
    assert combined[|combined| - |q|..] == q;
    assert combined[|combined| - |p|..] == q[|q| - |p|..];
    assert combined[|combined| - 1] == p[|p| - 1];
  }

  /** A frame whose first read ends before its delimiter is never processed, and
      nor is anything the client sends after it (for instance "SYN alice" read
      apart from its delimiter: the login never happens). */
  lemma SplitFrameIsNeverProcessed(st: ServerState, client: Handle, first: string, more: seq<string>)
    requires Carry(st, client) == ""
    requires first != "" && !EndsWithDelim(first) && !IsSuffix(first, Null)
    ensures var o := HandleRead(st, client, [first] + more);
      o.fault == None && o.st == st.(cache := o.st.cache)
  {
    var st1 := st.(cache := st.cache[client := first]);
    assert first + "" == first;
    assert ReadChunk(st, client, first) == Ok(st1);
    assert ([first] + more)[1..] == more;
    assert IsSuffix(first, Carry(st1, client));
    PartialCarryBlocksClient(st1, client, more, first);
  }

  // ---------------------------------------------------------------------------
  // The handshake.

  /** Any request whose words are "SYN" and <id> (however many spaces follow)
      answers "SYN <id> ACK" to the sender and queues "ACK <id>" as the
      expected answer; nothing else changes. */
  lemma SynWordsRequest(st: ServerState, client: Handle, request: string, id: string)
    requires Wf(st) && Split(request, ' ') == ["SYN", id]
    ensures Route(st, client, request) ==
      Ok(st.(sent := st.sent + [Delivery(client, Frame("SYN " + id + " ACK"))],
             queued := st.queued[client := "ACK " + id]))
  {
    assert request != "";
    FirstField(request, ' ');
    assert Fields(request, ' ')[0] == "SYN";
    QueuedIsNotSyn(st, client, request);
    assert Route(st, client, request) == ServiceRequest(st, client, request);
  }

  /** The request "SYN <id>" as the client sends it. */
  lemma SynRequest(st: ServerState, client: Handle, id: string)
    requires Wf(st) && id != "" && ' ' !in id
    ensures Route(st, client, "SYN " + id) ==
      Ok(st.(sent := st.sent + [Delivery(client, Frame("SYN " + id + " ACK"))],
             queued := st.queued[client := "ACK " + id]))
  {
    assert "SYN " + id == "SYN" + " " + id;
    TwoWords("SYN", id);
    SynWordsRequest(st, client, "SYN " + id, id);
  }

  /** The queued "ACK <id>" logs the client in: it is appended to the active
      list, gets the id unless it has one already, every active client (itself
      included) is told "<name> logged in", one line is logged, and the queued
      answer becomes "null". */
  lemma AckRequest(st: ServerState, client: Handle, id: string)
    requires Queued(st, client) == "ACK " + id && id != "" && ' ' !in id
    ensures var ident := if client in st.identity then st.identity else st.identity[client := id];
      var name := Name(ident[client]);
      Route(st, client, "ACK " + id) ==
        Ok(st.(active := st.active + [client], identity := ident,
               queued := st.queued[client := Null],
               log := st.log + [Presence(name, "in")],
               sent := st.sent + Fanout(st.active + [client], Notice(name, "in"))))
  {
    var request := "ACK " + id;
    assert "ACK " + id == "ACK" + " " + id;
    TwoWords("ACK", id);
    ReplaceAck(id);
    var ident := if client in st.identity then st.identity else st.identity[client := id];
    var name := Name(ident[client]);
    var st2 := st.(active := st.active + [client], identity := ident);
    assert LoginHandler(st, client, request) == GlobalLogInOutNotify(st2, "in", name);
    assert Route(st, client, request) == FinishHandshake(st, client, request);
  }

  /** A request adds its client to the active list exactly when it is the queued
      answer and reads as two words starting with ACK; then it adds exactly that
      client, and otherwise the active list does not grow. */
  lemma OnlyTheQueuedAckLogsIn(st: ServerState, client: Handle, request: string)
    ensures var words := Split(request, ' ');
      var handshake := Queued(st, client) == request && |words| == 2 && words[0] == "ACK";
      var o := Route(st, client, request);
      (handshake ==> o.fault == None && o.st.active == st.active + [client]) &&
      (!handshake ==> |o.st.active| <= |st.active|)
  {
    var words := Split(request, ' ');
    if Queued(st, client) != request && |words| > 0 && words[0] == "SYN" && |words| >= 2
       && words[1] == "RST" && |words| == 3 && client in st.identity {
      var name := Name(st.identity[client]);
      var st1 := GlobalLogInOutNotify(st, "out", name);
      assert st1.active == st.active;
    }
  }

  /** "ACK <id>" from a client that never sent "SYN <id>" is not a login: it is
      read as chat, and with no identity recorded, getName throws. */
  lemma AckBeforeSyn(st: ServerState, client: Handle, id: string)
    requires client !in st.queued && client !in st.identity && id != "" && ' ' !in id
    ensures Route(st, client, "ACK " + id) == Crash(st, NullPointer)
  {
    assert "ACK " + id == "ACK" + " " + id;
    TwoWords("ACK", id);
  }

  /** A client that repeats the handshake on its connection is appended to the
      active list a second time. */
  lemma RepeatedHandshakeRepeatsClient(st: ServerState, client: Handle, id: string)
    requires Wf(st) && client in st.active && Queued(st, client) == Null
    requires id != "" && ' ' !in id
    ensures var o := ProcessPieces(st, client, ["SYN " + id, "ACK " + id]);
      o.fault == None && o.st.active == st.active + [client] && !NoDuplicates(o.st.active)
  {
    SynRequest(st, client, id);
    var st1 := Route(st, client, "SYN " + id).st;
    AckRequest(st1, client, id);
    TwoPieces(st, client, "SYN " + id, "ACK " + id);
    var a := st.active + [client];
    var i :| 0 <= i < |st.active| && st.active[i] == client;
    assert a[i] == a[|a| - 1];
  }

  /** The scenario of a fresh connection: "SYN <id>" and "ACK <id>" arriving in
      one read log the client in under <id>. */
  lemma LoginScenario(st: ServerState, client: Handle, id: string)
    requires Wf(st) && client !in st.queued && client !in st.identity && Carry(st, client) == ""
    requires id != "" && ' ' !in id && '\t' !in id && Delim !in id
    ensures HandleRead(st, client, [Frames(["SYN " + id, "ACK " + id])]) ==
      Ok(st.(cache := st.cache[client := Null],
             queued := st.queued[client := Null],
             identity := st.identity[client := id],
             active := st.active + [client],
             log := st.log + [Presence(id, "in")],
             sent := st.sent + [Delivery(client, Frame("SYN " + id + " ACK"))]
                             + Fanout(st.active + [client], Notice(id, "in"))))
  {
    LoginChunk(st, client, id);
    OneChunk(st, client, Frames(["SYN " + id, "ACK " + id]));
  }

  /** A single read is a single pass of handleRead's loop. */
  lemma OneChunk(st: ServerState, client: Handle, chunk: string)
    ensures HandleRead(st, client, [chunk]) == ReadChunk(st, client, chunk)
  {
    assert [chunk][1..] == [];
  }

  lemma LoginChunk(st: ServerState, client: Handle, id: string)
    requires Wf(st) && client !in st.queued && client !in st.identity && Carry(st, client) == ""
    requires id != "" && ' ' !in id && '\t' !in id && Delim !in id
    ensures ReadChunk(st, client, Frames(["SYN " + id, "ACK " + id])) ==
      Ok(LoggedIn(st, client, id).(cache := st.cache[client := Null]))
  {
    var ps := ["SYN " + id, "ACK " + id];
    assert Unframed(ps);
    WholeFramesAreDispatched(st, client, ps);
    assert StripTrailingEmpty(ps) == ps;
    LoginPieces(st, client, id);
  }

  /** The state after a fresh client's "SYN <id>" and "ACK <id>", cache aside. */
  function LoggedIn(st: ServerState, client: Handle, id: string): ServerState {
    st.(queued := st.queued[client := Null],
        identity := st.identity[client := id],
        active := st.active + [client],
        log := st.log + [Presence(id, "in")],
        sent := st.sent + [Delivery(client, Frame("SYN " + id + " ACK"))]
                        + Fanout(st.active + [client], Notice(id, "in")))
  }

  lemma LoginPieces(st: ServerState, client: Handle, id: string)
    requires Wf(st) && client !in st.queued && client !in st.identity
    requires id != "" && ' ' !in id && '\t' !in id
    ensures ProcessPieces(st, client, ["SYN " + id, "ACK " + id]) == Ok(LoggedIn(st, client, id))
  {
    SynRequest(st, client, id);
    assert Route(st, client, "SYN " + id) == Ok(Synced(st, client, id));
    AckAfterSyn(st, client, id);
    TwoPieces(st, client, "SYN " + id, "ACK " + id);
  }

  lemma AckAfterSyn(st: ServerState, client: Handle, id: string)
    requires client !in st.queued && client !in st.identity
    requires id != "" && ' ' !in id && '\t' !in id
    ensures Route(Synced(st, client, id), client, "ACK " + id) == Ok(LoggedIn(st, client, id))
  {
    var st1 := Synced(st, client, id);
    assert Queued(st1, client) == "ACK " + id;
    AckRequest(st1, client, id);
    AckStateAfterSyn(st, client, id);
  }

  /** The state after a fresh client's "SYN <id>". */
  function Synced(st: ServerState, client: Handle, id: string): ServerState {
    st.(sent := st.sent + [Delivery(client, Frame("SYN " + id + " ACK"))],
        queued := st.queued[client := "ACK " + id])
  }

  lemma AckStateAfterSyn(st: ServerState, client: Handle, id: string)
    requires client !in st.identity && '\t' !in id
    ensures var st1 := Synced(st, client, id);
      var ident := st1.identity[client := id];
      st1.(active := st1.active + [client], identity := ident,
           queued := st1.queued[client := Null],
           log := st1.log + [Presence(Name(ident[client]), "in")],
           sent := st1.sent + Fanout(st1.active + [client], Notice(Name(ident[client]), "in")))
      == LoggedIn(st, client, id)
  {
    NameOfPlainId(id);
    var st1 := Synced(st, client, id);
    assert st1.queued[client := Null] == st.queued[client := Null];
  }

  /** One more request: the pieces up to index k, then the k-th. */
  lemma ProcessPiecesStep(st: ServerState, client: Handle, ps: seq<string>, k: nat)
    requires k < |ps|
    ensures ProcessPieces(st, client, ps[..k + 1]) ==
      (var o := ProcessPieces(st, client, ps[..k]);
       if o.fault.Some? then o else Route(o.st, client, ps[k]))
  {
    assert ps[..k + 1][..k] == ps[..k];
  }

  /** Two requests in a row. */
  lemma TwoPieces(st: ServerState, client: Handle, a: string, b: string)
    ensures ProcessPieces(st, client, [a, b]) ==
      (var o := Route(st, client, a); if o.fault.Some? then o else Route(o.st, client, b))
  {
    assert [a][..0] == [];
    var o0 := ProcessPieces(st, client, []);
    assert o0 == Ok(st) && o0.fault.None? && o0.st == st;
    var o1 := ProcessPieces(st, client, [a]);
    assert o1 == Route(st, client, a);
    assert [a, b][..1] == [a];
  }

  // ---------------------------------------------------------------------------
  // Chat, logout and the special requests.

  /** The requests serviceRequest hands to messageHandler: at least one word,
      and not "SYN <id>", a lone "SYN" or "SYN RST <x>". A first word SYN
      with more words ("SYN hello there") is chat too. */
  predicate IsChat(request: string) {
    var w := Split(request, ' ');
    |w| > 0 && !(w[0] == "SYN" && (|w| <= 2 || (w[1] == "RST" && |w| == 3)))
  }

  /** A chat request from an identified client is relayed as "<name>: <text>"
      to every active client in list order, the sender included, and logged once. */
  lemma ChatRequest(st: ServerState, client: Handle, text: string)
    requires client in st.identity && Queued(st, client) != text
    requires IsChat(text)
    ensures var name := Name(st.identity[client]);
      Route(st, client, text) ==
        Ok(st.(sent := st.sent + Fanout(st.active, name + ": " + text),
               log := st.log + [ChatLine(name, text)]))
  {
  }

  /** The relay reaches a handle exactly when it is in the list it loops over;
      in particular an active sender gets its own line back. */
  lemma FanoutReaches(targets: seq<Handle>, text: string, h: Handle)
    ensures Delivery(h, Frame(text)) in Fanout(targets, text) <==> h in targets
  {
    var r := Fanout(targets, text);
    if h in targets {
      var i :| 0 <= i < |targets| && targets[i] == h;
      assert r[i] == Delivery(h, Frame(text));
    }
  }

  /** Chat from a client with no recorded identity makes getName throw. */
  lemma ChatWithoutIdentity(st: ServerState, client: Handle, text: string)
    requires client !in st.identity && Queued(st, client) != text
    requires IsChat(text)
    ensures Route(st, client, text) == Crash(st, NullPointer)
  {
  }

  /** A request that is the single word SYN reads its missing second word. */
  lemma LoneSyn(st: ServerState, client: Handle)
    requires Wf(st)
    ensures Route(st, client, "SYN") == Crash(st, ArrayIndexOutOfBounds)
  {
    SplitNoSep("SYN", ' ');
    QueuedIsNotSyn(st, client, "SYN");
  }

  /** Any request whose words are "SYN", "RST" and <x> (however many spaces
      follow) logs the client out whatever <x> is: one log line, the notice to
      every active client (the leaver too), then, only if it was active, its
      first entry is removed and it gets "SYN RST <name> ACK". Its identity
      stays. */
  lemma LogoutRequest(st: ServerState, client: Handle, request: string, x: string)
    requires Wf(st) && client in st.identity && Split(request, ' ') == ["SYN", "RST", x]
    ensures var name := Name(st.identity[client]);
      var notified := st.(log := st.log + [Presence(name, "out")],
                          sent := st.sent + Fanout(st.active, Notice(name, "out")));
      Route(st, client, request) ==
        if client in st.active then
          Ok(notified.(active := ListRemove(st.active, client),
                       sent := notified.sent + [Delivery(client, Frame("SYN RST " + name + " ACK"))]))
        else Ok(notified)
  {
    LogoutRoute(st, client, request, x);
    LogoutEffect(st, client);
  }

  /** A request whose words are "SYN", "RST" and <x> reaches logoutHandler. */
  lemma LogoutRoute(st: ServerState, client: Handle, request: string, x: string)
    requires Wf(st) && Split(request, ' ') == ["SYN", "RST", x]
    ensures Route(st, client, request) == LogoutHandler(st, client)
  {
    assert request != "";
    FirstField(request, ' ');
    assert Fields(request, ' ')[0] == "SYN";
    QueuedIsNotSyn(st, client, request);
    assert Route(st, client, request) == ServiceRequest(st, client, request);
  }

  /** logoutHandler for a client with an identity. */
  lemma LogoutEffect(st: ServerState, client: Handle)
    requires client in st.identity
    ensures var name := Name(st.identity[client]);
      var notified := st.(log := st.log + [Presence(name, "out")],
                          sent := st.sent + Fanout(st.active, Notice(name, "out")));
      LogoutHandler(st, client) ==
        if client in st.active then
          Ok(notified.(active := ListRemove(st.active, client),
                       sent := notified.sent + [Delivery(client, Frame("SYN RST " + name + " ACK"))]))
        else Ok(notified)
  {
    var name := Name(st.identity[client]);
  }

  /** "SYN RST <x>" from a client that never logged in: getName dereferences a
      missing identity, and nothing changes. */
  lemma LogoutWithoutIdentity(st: ServerState, client: Handle, request: string, x: string)
    requires Wf(st) && client !in st.identity && Split(request, ' ') == ["SYN", "RST", x]
    ensures Route(st, client, request) == Crash(st, NullPointer)
  {
    LogoutRoute(st, client, request, x);
  }

  /** Once logged in, the queued answer is "null", so a chat line reading
      exactly "null" is taken for the handshake answer and dropped. */
  lemma NullAfterLoginIsDropped(st: ServerState, client: Handle)
    requires Queued(st, client) == Null
    ensures Route(st, client, Null) == Ok(st)
  {
    SplitNoSep(Null, ' ');
  }

  // ---------------------------------------------------------------------------
  // Disconnection and shutdown.

  lemma {:induction false} ListRemoveNoDuplicates(s: seq<Handle>, x: Handle)
    requires NoDuplicates(s)
    ensures x !in ListRemove(s, x) && NoDuplicates(ListRemove(s, x))
    decreases |s|
  {
    if s != [] && s[0] != x {
      NoDuplicatesTail(s);
      ListRemoveNoDuplicates(s[1..], x);
      var r := ListRemove(s[1..], x);
      forall j | 0 <= j < |r| ensures r[j] != s[0] {
        assert r[j] in s[1..];
        var k :| 0 <= k < |s[1..]| && s[1..][k] == r[j];
        assert s[k + 1] == r[j];
      }
    } else if s != [] {
      NoDuplicatesTail(s);
    }
  }

  lemma NoDuplicatesTail(s: seq<Handle>)
    requires s != [] && NoDuplicates(s)
    ensures NoDuplicates(s[1..]) && s[0] !in s[1..]
  {
    forall i, j | 0 <= i < j < |s[1..]| ensures s[1..][i] != s[1..][j] {
      assert s[1..][i] == s[i + 1] && s[1..][j] == s[j + 1];
    }
    forall j | 0 <= j < |s[1..]| ensures s[1..][j] != s[0] {
      assert s[1..][j] == s[j + 1];
    }
  }

  /** exceptionHandler takes a client out of the active list for good as long as
      it was there at most once; the other clients are unaffected. */
  lemma ExceptionHandlerDeregisters(st: ServerState, client: Handle)
    requires NoDuplicates(st.active)
    ensures var st' := ExceptionHandler(st, client);
      client !in st'.active &&
      (forall h :: h != client ==> (h in st'.active <==> h in st.active))
  {
    ListRemoveNoDuplicates(st.active, client);
    var r := ListRemove(st.active, client);
    forall h | h != client
      ensures h in r <==> h in st.active
    {
      assert multiset(r)[h] == multiset(st.active)[h];
    }
  }

  /** Removing an element that occurs only at the end drops the last position. */
  lemma {:induction false} ListRemoveLast(s: seq<Handle>)
    requires s != [] && s[|s| - 1] !in s[..|s| - 1]
    ensures ListRemove(s, s[|s| - 1]) == s[..|s| - 1]
    decreases |s|
  {
    if |s| > 1 {
      var t := s[1..];
      assert s[0] == s[..|s| - 1][0];
      assert t[..|t| - 1] == s[..|s| - 1][1..];
      assert t[|t| - 1] == s[|s| - 1];
      ListRemoveLast(t);
      assert [s[0]] + t[..|t| - 1] == s[..|s| - 1];
    }
  }

  /** The "<name> logged out" notices stopServer sends for the clients of `a`,
      last first, each to the clients still ahead of it in the list. */
  function LeaveNotices(a: seq<Handle>, ids: map<Handle, string>): seq<Delivery>
    requires forall h :: h in a ==> h in ids
    decreases |a|
  {
    if a == [] then []
    else
      var rest := a[..|a| - 1];
      Fanout(rest, Notice(Name(ids[a[|a| - 1]]), "out")) + LeaveNotices(rest, ids)
  }

  /** The log lines stopServer writes for the clients of `a`, last first. */
  function LeaveLog(a: seq<Handle>, ids: map<Handle, string>): seq<LogEntry>
    requires forall h :: h in a ==> h in ids
    decreases |a|
  {
    if a == [] then [] else [Presence(Name(ids[a[|a| - 1]]), "out")] + LeaveLog(a[..|a| - 1], ids)
  }

  lemma {:induction false} StopLoopWithoutRepeats(st: ServerState, n: nat)
    requires n == |st.active| && NoDuplicates(st.active)
    requires forall h :: h in st.active ==> h in st.identity
    ensures StopLoop(st, n) ==
      Ok(st.(active := [],
             log := st.log + LeaveLog(st.active, st.identity),
             sent := st.sent + LeaveNotices(st.active, st.identity)))
    decreases n
  {
    if n > 0 {
      var a := st.active;
      var rest := a[..n - 1];
      var ids := st.identity;
      var name := Name(ids[a[n - 1]]);
      LastOfDistinct(a);
      StopStep(st, n);
      var st2 := st.(active := rest, log := st.log + [Presence(name, "out")],
                     sent := st.sent + Fanout(rest, Notice(name, "out")));
      StopLoopWithoutRepeats(st2, n - 1);
      LeaveStep(st.log, st.sent, a, ids);
    }
  }

  lemma LeaveStep(log: seq<LogEntry>, sent: seq<Delivery>, a: seq<Handle>, ids: map<Handle, string>)
    requires a != [] && forall h :: h in a ==> h in ids
    ensures var rest := a[..|a| - 1];
      var name := Name(ids[a[|a| - 1]]);
      log + [Presence(name, "out")] + LeaveLog(rest, ids) == log + LeaveLog(a, ids) &&
      sent + Fanout(rest, Notice(name, "out")) + LeaveNotices(rest, ids) == sent + LeaveNotices(a, ids)
  {
    var rest := a[..|a| - 1];
    var name := Name(ids[a[|a| - 1]]);
    assert LeaveLog(a, ids) == [Presence(name, "out")] + LeaveLog(rest, ids);
    assert LeaveNotices(a, ids) == Fanout(rest, Notice(name, "out")) + LeaveNotices(rest, ids);
  }

  /** Facts about the last element of a list without repeats. */
  lemma LastOfDistinct(a: seq<Handle>)
    requires a != [] && NoDuplicates(a)
    ensures var rest := a[..|a| - 1];
      a[|a| - 1] !in rest && NoDuplicates(rest) && ListRemove(a, a[|a| - 1]) == rest
  {
    var rest := a[..|a| - 1];
    forall j | 0 <= j < |rest| ensures rest[j] != a[|a| - 1] {
      assert rest[j] == a[j];
    }
    ListRemoveLast(a);
    forall i, j | 0 <= i < j < |rest| ensures rest[i] != rest[j] {
      assert rest[i] == a[i] && rest[j] == a[j];
    }
  }

  /** One iteration of stopServer's loop, as its method takes it. */
  lemma StopLoopStep(st: ServerState, n: nat)
    requires 0 < n <= |st.active|
    ensures var client := st.active[n - 1];
      var o := LogoutHandler(ExceptionHandler(st, client), client);
      StopLoop(st, n) == if o.fault.Some? then o else StopLoop(o.st, n - 1)
  {
  }

  /** One iteration of stopServer's loop on a last client that occurs only once. */
  lemma StopStep(st: ServerState, n: nat)
    requires 0 < n == |st.active| && st.active[n - 1] in st.identity
    requires st.active[n - 1] !in st.active[..n - 1]
    requires ListRemove(st.active, st.active[n - 1]) == st.active[..n - 1]
    ensures var client := st.active[n - 1];
      var name := Name(st.identity[client]);
      StopLoop(st, n) ==
        StopLoop(st.(active := st.active[..n - 1], log := st.log + [Presence(name, "out")],
                     sent := st.sent + Fanout(st.active[..n - 1], Notice(name, "out"))), n - 1)
  {
    var client := st.active[n - 1];
    var rest := st.active[..n - 1];
    assert ExceptionHandler(st, client) == st.(active := rest);
    LogoutEffect(st.(active := rest), client);
  }

  /** When no client is listed twice, stopping the server empties the active
      list, logs and announces each departure, and, since each client is removed
      before logoutHandler runs, sends no "SYN RST <name> ACK" at all. */
  lemma StopServerWithoutRepeats(st: ServerState)
    requires Wf(st) && NoDuplicates(st.active)
    ensures StopServer(st) ==
      Ok(st.(active := [],
             log := st.log + LeaveLog(st.active, st.identity),
             sent := st.sent + LeaveNotices(st.active, st.identity)))
  {
    StopLoopWithoutRepeats(st, |st.active|);
    if |st.active| == 0 {
      assert st.active == [];
      assert st.(active := []) == st;
    }
  }

  /** In any state that keeps the invariant, stopServer reads past the end of
      the active list exactly when some client is listed twice; the converse
      direction is StopServerWithoutRepeats. */
  lemma StopServerWithRepeats(st: ServerState)
    requires Wf(st) && !NoDuplicates(st.active)
    ensures StopServer(st).fault == Some(ArrayIndexOutOfBounds)
  {
    StopLoopWithRepeats(st, |st.active|);
  }

  /** With some client listed twice, the removal loop always ends by reading
      past the end of the list: an iteration on a client listed once shortens
      the list by one, and the first iteration on a repeated client removes it
      twice, so the next index is out of range. */
  lemma {:induction false} StopLoopWithRepeats(st: ServerState, n: nat)
    requires n == |st.active| && !NoDuplicates(st.active)
    requires forall h :: h in st.active ==> h in st.identity
    ensures StopLoop(st, n).fault == Some(ArrayIndexOutOfBounds)
    decreases n
  {
    RepeatBeforeLast(st.active);
    if st.active[n - 1] in st.active[..n - 1] {
      StopRepeatedLast(st, n);
    } else {
      var st2 := StopUniqueLast(st, n);
      StopLoopWithRepeats(st2, n - 1);
    }
  }

  /** A list with a repeat is not empty, and when its last element occurs only
      once the repeat lies before it. */
  lemma RepeatBeforeLast(a: seq<Handle>)
    requires !NoDuplicates(a)
    ensures a != [] && (a[|a| - 1] !in a[..|a| - 1] ==> !NoDuplicates(a[..|a| - 1]))
  {
    var rest := a[..|a| - 1];
    var i, j :| 0 <= i < j < |a| && a[i] == a[j];
    if a[|a| - 1] !in rest {
      assert rest[i] == a[i];
      assert j < |a| - 1;
      assert rest[i] == rest[j];
    }
  }

  /** The iteration on a last client listed only once leaves the rest of the
      list, with the identities unchanged. */
  lemma StopUniqueLast(st: ServerState, n: nat) returns (st2: ServerState)
    requires 0 < n == |st.active| && st.active[n - 1] in st.identity
    requires st.active[n - 1] !in st.active[..n - 1]
    ensures st2.active == st.active[..n - 1] && st2.identity == st.identity
    ensures StopLoop(st, n) == StopLoop(st2, n - 1)
  {
    var client := st.active[n - 1];
    var name := Name(st.identity[client]);
    ListRemoveLast(st.active);
    StopStep(st, n);
    st2 := st.(active := st.active[..n - 1], log := st.log + [Presence(name, "out")],
               sent := st.sent + Fanout(st.active[..n - 1], Notice(name, "out")));
  }

  /** The iteration on a last client that is also listed earlier removes it
      twice, so the index of the next iteration is past the end. */
  lemma StopRepeatedLast(st: ServerState, n: nat)
    requires 0 < n == |st.active| && st.active[n - 1] in st.identity
    requires st.active[n - 1] in st.active[..n - 1]
    ensures StopLoop(st, n).fault == Some(ArrayIndexOutOfBounds)
  {
    var client := st.active[n - 1];
    var st1 := ExceptionHandler(st, client);
    RemoveRepeated(st.active, client);
    StopLoopStep(st, n);
    LogoutEffect(st1, client);
    var o := LogoutHandler(st1, client);
    assert o.fault == None && |o.st.active| == n - 2;
  }

  /** A client listed again before the last position is still listed once its
      last entry is counted out by List.remove. */
  lemma RemoveRepeated(a: seq<Handle>, client: Handle)
    requires a != [] && client == a[|a| - 1] && client in a[..|a| - 1]
    ensures client in ListRemove(a, client)
  {
    var rest := a[..|a| - 1];
    assert a == rest + [client];
    assert multiset(a) == multiset(rest) + multiset{client};
    assert multiset(ListRemove(a, client))[client] >= 1;
  }

  /** With a client listed twice (a repeated handshake), the loop removes both
      copies in one iteration, sends that client "SYN RST <name> ACK", and then
      reads past the end of the emptied list. */
  lemma StopServerWithRepeatedClient()
    ensures var st := Initial.(identity := map[7 := "a"], active := [7, 7]);
      StopServer(st) ==
        Crash(st.(active := [],
                  log := [Presence("a", "out")],
                  sent := [Delivery(7, Frame("a logged out")), Delivery(7, Frame("SYN RST a ACK"))]),
              ArrayIndexOutOfBounds)
  {
    NameOfPlainId("a");
    var st := Initial.(identity := map[7 := "a"], active := [7, 7]);
    assert ListRemove([7, 7], 7) == [7];
    assert ListRemove([7], 7) == [];
    assert Notice("a", "out") == "a logged out";
    assert Fanout([7], "a logged out") == [Delivery(7, Frame("a logged out"))];
    assert "SYN RST " + "a" + " ACK" == "SYN RST a ACK";
    var left := st.(active := [7]);
    assert ExceptionHandler(st, 7) == left;
    LogoutEffect(left, 7);
    var st1 := st.(active := [], log := [Presence("a", "out")],
                   sent := [Delivery(7, Frame("a logged out")), Delivery(7, Frame("SYN RST a ACK"))]);
    assert LogoutHandler(left, 7) == Ok(st1);
    assert StopLoop(st, 2) == StopLoop(st1, 1);
  }
}
