/** ChatClient as a class: the chat view it builds up, the text it has written
    to the server and whether its channel was closed. The server's replies and
    the outcome of each connection attempt are parameters; every method is
    proved to do what the function of the same name in ClientModel says. */
module ChatClient {
  import opened JavaLang
  import opened Framing
  import opened Sequences
  import opened ClientModel

  class Client {
    const id: string
    /** The chat view: a header line, then every chat line received. */
    var chatView: string
    /** Everything written to the server so far, frames back to back. */
    var outgoing: string
    /** close() was the last thing done to the current channel. */
    var closed: bool

    /** The fields as one value of the model's state. */
    function State(): ClientState
      reads this
    {
      ClientState(chatView, outgoing, closed)
    }

    constructor (id: string)
      ensures this.id == id && State() == Fresh(id)
    {
      this.id := id;
      chatView := Header(id);
      outgoing := "";
      closed := false;
    }

    function GetChatView(): string
      reads this
    {
      chatView
    }

    method Close()
      modifies this
      ensures State() == old(State()).(closed := true)
    {
      closed := true;
    }

    /** send: the text and the delimiter go out as one frame. */
    method Send(text: string)
      modifies this
      ensures State() == Sent(old(State()), text)
    {
      outgoing := outgoing + Frame(text);
    }

    method SendMessage(message: string)
      modifies this
      ensures State() == Sent(old(State()), message)
    {
      Send(message);
    }

    /** processResponse; `thrown` stands for the ArrayIndexOutOfBoundsException
        it lets escape, and the chat view keeps what was appended before it. */
    method ProcessResponse(wholeResponse: string) returns (code: int, thrown: bool)
      modifies this
      ensures State() == Shown(old(State()), wholeResponse, id)
      ensures code == ClientModel.ProcessResponse(wholeResponse, id).code
      ensures thrown == ClientModel.ProcessResponse(wholeResponse, id).thrown
    {
      var responses := Split(wholeResponse, Delim);
      code, thrown := -1, false;
      ghost var scan := NoScan;
      for i := 0 to |responses|
        invariant ScanFrom(scan, responses[i..], id) == ClientModel.ProcessResponse(wholeResponse, id)
        invariant !scan.thrown && chatView == old(chatView) + scan.shown && code == scan.code
        invariant outgoing == old(outgoing) && closed == old(closed)
      {
        var response := responses[i];
        DropOne(responses, i);
        ghost var shown := scan.shown;
        scan := ScanStep(scan, response, id);
        match Classify(response, id) {
          case Malformed =>
            thrown := true;
            return;
          case LogoutAck =>
            code := 1;
          case LoginAck =>
            code := 2;
          case ChatText =>
            if response != "" {
              AppendAssoc(old(chatView), shown, response, "\n");
              chatView := chatView + response + "\n";
            }
        }
      }
    }

    /** sendCommand, with the reply that handleAwaitResponse returns as input. */
    method SendCommand(req: string, reply: string) returns (code: int, thrown: bool)
      modifies this
      ensures State() == Shown(Sent(old(State()), req), reply, id)
      ensures code == ClientModel.ProcessResponse(reply, id).code
      ensures thrown == ClientModel.ProcessResponse(reply, id).thrown
    {
      Send(req);
      code, thrown := ProcessResponse(reply);
    }

    /** One pass of login's loop: a fresh channel is opened and `rest[0]` is
        what that runs into; `next` is the attempt count after the pass. */
    method LoginAttempt(rest: seq<Attempt>, attempts: nat) returns (stop: bool, end: End, next: nat)
      requires attempts < MaxAttempts && rest != []
      modifies this
      ensures stop ==> LoginRun(old(State()), rest, id, attempts) == Run(end, State())
      ensures !stop ==> (next <= attempts + 1 &&
                         LoginRun(old(State()), rest, id, attempts) == LoginRun(State(), rest[1..], id, next))
    {
      ghost var before := State();
      closed := false;
      next := attempts;
      if rest[0].Answered? {
        var code, thrown := SendCommand("SYN " + id, rest[0].reply);
        LoginAnswered(before, rest, id, attempts, State(), code, thrown);
        if thrown {
          return true, Threw, next;
        }
        if code == 2 {
          Send("ACK " + id);
          return true, Done, next;
        }
        next := attempts + 1;
      } else {
        LoginUnanswered(before, rest, id, attempts);
        if rest[0].Refused? {
          next := attempts + 1;
        }
      }
      return false, GaveUp, next;
    }

    /** login, where `script[k]` is what the k-th pass of its loop runs into. */
    method Login(script: seq<Attempt>) returns (end: End)
      modifies this
      ensures LoginRun(old(State()), script, id, 0) == Run(end, State())
    {
      var attempts: nat, k := 0, 0;
      while attempts < MaxAttempts
        invariant attempts <= k <= |script|
        invariant LoginRun(State(), script[k..], id, attempts) == LoginRun(old(State()), script, id, 0)
        decreases |script| - k
      {
        if k == |script| {
          return OutOfScript;
        }
        var stop;
        stop, end, attempts := LoginAttempt(script[k..], attempts);
        if stop {
          return;
        }
        DropOne(script, k);
        k := k + 1;
      }
      Close();
      return GaveUp;
    }

    /** One pass of logout's loop: the request goes out and `rest[0]` is read. */
    method LogoutAttempt(rest: seq<string>, attempts: nat) returns (stop: bool, end: End)
      requires attempts < MaxAttempts && rest != []
      modifies this
      ensures stop ==> LogoutRun(old(State()), rest, id, attempts) == Run(end, State())
      ensures !stop ==> LogoutRun(old(State()), rest, id, attempts) == LogoutRun(State(), rest[1..], id, attempts + 1)
    {
      ghost var before := State();
      var code, thrown := SendCommand("SYN RST " + id, rest[0]);
      LogoutPass(before, rest, id, attempts, State(), code, thrown);
      if thrown {
        return true, Threw;
      }
      if code == 1 {
        Close();
        return true, Done;
      }
      return false, GaveUp;
    }

    /** logout, where `replies[k]` is the reply read after the k-th request. */
    method Logout(replies: seq<string>) returns (end: End)
      modifies this
      ensures LogoutRun(old(State()), replies, id, 0) == Run(end, State())
    {
      var attempts: nat := 0;
      while attempts < MaxAttempts
        invariant attempts <= |replies|
        invariant LogoutRun(State(), replies[attempts..], id, attempts) == LogoutRun(old(State()), replies, id, 0)
      {
        if attempts == |replies| {
          return OutOfScript;
        }
        var stop;
        stop, end := LogoutAttempt(replies[attempts..], attempts);
        if stop {
          return;
        }
        DropOne(replies, attempts);
        attempts := attempts + 1;
      }
      return GaveUp;
    }
  }
}
