/** ChatServer as a class whose fields the methods update in place, as the source
    does. Every method is proved to change the state exactly as the function of
    the same name in ServerModel says, and to raise the same exception. */
module ChatServer {
  import opened JavaLang
  import opened Framing
  import M = ServerModel
  import P = ServerProperties

  class Server {
    var cache: map<M.Handle, string>
    var queued: map<M.Handle, string>
    var identity: map<M.Handle, string>
    var active: seq<M.Handle>
    var log: seq<M.LogEntry>
    var sent: seq<M.Delivery>

    /** The fields as one value of the model's state. */
    function State(): M.ServerState
      reads this
    {
      M.ServerState(cache, queued, identity, active, log, sent)
    }

    ghost predicate Valid()
      reads this
    {
      M.Wf(State())
    }

    constructor ()
      ensures State() == M.Initial && Valid()
    {
      cache, queued, identity := map[], map[], map[];
      active, log, sent := [], [], [];
    }

    method Respond(response: string, client: M.Handle)
      modifies this
      ensures State() == M.Respond(old(State()), client, response)
    {
      sent := sent + [M.Delivery(client, Frame(response))];
    }

    method GlobalRespond(message: string, name: string)
      modifies this
      ensures State() == M.GlobalRespond(old(State()), message, name)
    {
      var text := name + ": " + message;
      for i := 0 to |active|
        invariant active == old(active)
        invariant State() == old(State()).(sent := old(sent) + M.Fanout(active[..i], text))
      {
        assert M.Fanout(active[..i + 1], text) == M.Fanout(active[..i], text) + [M.Delivery(active[i], Frame(text))];
        Respond(text, active[i]);
      }
      assert active[..|active|] == active;
    }

    method GlobalLogInOutNotify(inOut: string, name: string)
      modifies this
      ensures State() == M.GlobalLogInOutNotify(old(State()), inOut, name)
    {
      log := log + [M.Presence(name, inOut)];
      var text := M.Notice(name, inOut);
      ghost var logged := State();
      for i := 0 to |active|
        invariant active == logged.active
        invariant State() == logged.(sent := logged.sent + M.Fanout(active[..i], text))
      {
        assert M.Fanout(active[..i + 1], text) == M.Fanout(active[..i], text) + [M.Delivery(active[i], Frame(text))];
        Respond(text, active[i]);
      }
      assert active[..|active|] == active;
    }

    method BuildLog(message: string, name: string)
      modifies this
      ensures State() == M.BuildLog(old(State()), message, name)
    {
      log := log + [M.ChatLine(name, message)];
    }

    method MessageHandler(message: string, client: M.Handle) returns (fault: Option<Fault>)
      modifies this
      ensures M.MessageHandler(old(State()), client, message) == M.Outcome(State(), fault)
    {
      if client !in identity {
        return Some(NullPointer);
      }
      var name := M.Name(identity[client]);
      GlobalRespond(message, name);
      BuildLog(message, name);
      fault := None;
    }

    method LoginHandler(request: string, client: M.Handle)
      modifies this
      ensures State() == M.LoginHandler(old(State()), client, request)
    {
      active := active + [client];
      var name := ReplaceAll(request, "ACK ", "");
      if client !in identity {
        identity := identity[client := name];
      }
      GlobalLogInOutNotify("in", M.Name(identity[client]));
    }

    method LogoutHandler(client: M.Handle) returns (fault: Option<Fault>)
      modifies this
      ensures M.LogoutHandler(old(State()), client) == M.Outcome(State(), fault)
    {
      if client !in identity {
        return Some(NullPointer);
      }
      var name := M.Name(identity[client]);
      GlobalLogInOutNotify("out", name);
      if client in active {
        active := ListRemove(active, client);
        Respond("SYN RST " + name + " ACK", client);
      }
      fault := None;
    }

    method FinishHandshake(request: string, client: M.Handle) returns (fault: Option<Fault>)
      modifies this
      ensures M.FinishHandshake(old(State()), client, request) == M.Outcome(State(), fault)
    {
      var reqParts := Split(request, ' ');
      if |reqParts| == 0 {
        return Some(ArrayIndexOutOfBounds);
      }
      if reqParts[0] == "ACK" && |reqParts| == 2 {
        LoginHandler(request, client);
        queued := queued[client := M.Null];
      }
      fault := None;
    }

    method ServiceRequest(request: string, client: M.Handle) returns (fault: Option<Fault>)
      modifies this
      ensures M.ServiceRequest(old(State()), client, request) == M.Outcome(State(), fault)
    {
      var reqParts := Split(request, ' ');
      fault := None;
      if |reqParts| > 0 {
        if reqParts[0] == "SYN" && |reqParts| == 2 {
          Respond("SYN " + reqParts[1] + " ACK", client);
          queued := queued[client := "ACK " + reqParts[1]];
        } else if reqParts[0] == "SYN" && |reqParts| < 2 {
          fault := Some(ArrayIndexOutOfBounds);
        } else if reqParts[0] == "SYN" && reqParts[1] == "RST" && |reqParts| == 3 {
          fault := LogoutHandler(client);
        } else {
          fault := MessageHandler(request, client);
        }
      }
    }

    method ProcessRequests(requests: string, client: M.Handle) returns (fault: Option<Fault>)
      modifies this
      ensures M.ProcessRequests(old(State()), client, requests) == M.Outcome(State(), fault)
    {
      var pieces := Split(requests, Delim);
      ghost var st0 := State();
      fault := None;
      for k := 0 to |pieces|
        invariant M.ProcessPieces(st0, client, pieces[..k]) == M.Ok(State())
        invariant fault == None
      {
        var request := pieces[k];
        ghost var before := State();
        if (if client in queued then queued[client] else "") == request {
          fault := FinishHandshake(request, client);
        } else {
          fault := ServiceRequest(request, client);
        }
        assert M.Route(before, client, request) == M.Outcome(State(), fault);
        P.ProcessPiecesStep(st0, client, pieces, k);
        if fault.Some? {
          P.ProcessPiecesAppend(st0, client, pieces[..k + 1], pieces[k + 1..]);
          assert pieces[..k + 1] + pieces[k + 1..] == pieces;
          return;
        }
      }
      assert pieces[..|pieces|] == pieces;
    }

    method HandleRead(client: M.Handle, chunks: seq<string>) returns (fault: Option<Fault>)
      requires Valid()
      modifies this
      ensures Valid()
      ensures M.HandleRead(old(State()), client, chunks) == M.Outcome(State(), fault)
    {
      fault := None;
      var k := 0;
      while k < |chunks|
        invariant 0 <= k <= |chunks|
        invariant M.HandleRead(old(State()), client, chunks) == M.HandleRead(State(), client, chunks[k..])
        invariant Valid() && fault == None
      {
        var newMessage := chunks[k];
        assert chunks[k..][1..] == chunks[k + 1..];
        var existingData := if client in cache then cache[client] else "";
        var combined := newMessage + (if existingData != M.Null then existingData else "");
        if EndsWithDelim(combined) {
          fault := ProcessRequests(combined, client);
          if fault.Some? {
            return;
          }
          cache := cache[client := M.Null];
        } else {
          cache := cache[client := combined];
        }
        k := k + 1;
      }
    }

    method ExceptionHandler(client: M.Handle)
      requires Valid()
      modifies this
      ensures Valid()
      ensures State() == M.ExceptionHandler(old(State()), client)
    {
      active := ListRemove(active, client);
    }

    method StopServer() returns (fault: Option<Fault>)
      requires Valid()
      modifies this
      ensures Valid()
      ensures M.StopServer(old(State())) == M.Outcome(State(), fault)
    {
      fault := None;
      if |active| != 0 {
        var i := |active| - 1;
        while i >= 0
          invariant i >= -1
          invariant M.StopServer(old(State())) == M.StopLoop(State(), i + 1)
          invariant fault == None
          decreases i + 1
        {
          if i >= |active| {
            return Some(ArrayIndexOutOfBounds);
          }
          var client := active[i];
          ghost var before := State();
          active := ListRemove(active, client);
          assert State() == M.ExceptionHandler(before, client);
          fault := LogoutHandler(client);
          P.StopLoopStep(before, i + 1);
          if fault.Some? {
            return;
          }
          i := i - 1;
        }
      }
    }
  }
}
