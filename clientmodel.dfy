/** The decisions of ChatClient as functions: how one reply piece is classified,
    what a reply batch adds to the chat view and which control code it yields,
    and how the login and logout retry loops end for a given run of connection
    and reply outcomes. */
module ClientModel {
  import opened JavaLang
  import opened Framing

  /** ChatClient.MAX_ATTEMPTS. */
  const MaxAttempts: nat := 20

  /** The first line of every chat view. */
  function Header(id: string): string {
    "=== " + id + " chat view\n"
  }

  /** How processResponse reads one piece of a reply: a logout confirmation for
      this client (code 1), a login confirmation (code 2), text for the chat
      view, or a piece whose words it indexes past the end of. */
  datatype Kind = LogoutAck | LoginAck | ChatText | Malformed

  function Classify(piece: string, id: string): Kind {
    var parts := Split(piece, ' ');
    if |parts| == 0 || (parts[0] == "SYN" && |parts| < 2) then Malformed
    else if parts[0] != "SYN" || parts[|parts| - 1] != "ACK" then ChatText
    else if parts[1] == "RST" && Contains(piece, id) then LogoutAck
    else LoginAck
  }

  /** Each kind, stated both ways: a piece throws exactly when it has no words
      or is the bare word SYN; it is the logout code exactly when its two or
      more words have SYN first, RST second and ACK last and the piece holds
      this client's id; it is the login code exactly when its two or more words
      have SYN first and ACK last otherwise; and every other piece is chat. */
  lemma ClassifyKinds(piece: string, id: string)
    ensures var p := Split(piece, ' '); var k := Classify(piece, id);
      var synAck := |p| >= 2 && p[0] == "SYN" && p[|p| - 1] == "ACK";
      (k == Malformed <==> |p| == 0 || (p[0] == "SYN" && |p| == 1)) &&
      (k == LogoutAck <==> synAck && p[1] == "RST" && Contains(piece, id)) &&
      (k == LoginAck <==> synAck && !(p[1] == "RST" && Contains(piece, id))) &&
      (k == ChatText <==> (|p| > 0 && p[0] != "SYN") || (|p| >= 2 && p[0] == "SYN" && p[|p| - 1] != "ACK"))
  {
  }

  /** What processResponse has done after some pieces: the text it appended to
      the chat view, its control code, and whether it threw. */
  datatype Scan = Scan(shown: string, code: int, thrown: bool)

  const NoScan := Scan("", -1, false)

  /** One pass of processResponse's loop. */
  function ScanStep(s: Scan, piece: string, id: string): Scan {
    match Classify(piece, id)
    case Malformed => s.(thrown := true)
    case LogoutAck => s.(code := 1)
    case LoginAck => s.(code := 2)
    case ChatText => if piece == "" then s else s.(shown := s.shown + piece + "\n")
  }

  /** processResponse's loop over the pieces that remain, left to right,
      from scan `s`; it stops at the first piece that throws. */
  function ScanFrom(s: Scan, pieces: seq<string>, id: string): (r: Scan)
    ensures s.thrown ==> r == s
    ensures s.code in {-1, 1, 2} ==> r.code in {-1, 1, 2}
    decreases |pieces|
  {
    if pieces == [] || s.thrown then s
    else ScanFrom(ScanStep(s, pieces[0], id), pieces[1..], id)
  }

  /** processResponse(wholeResponse). */
  function ProcessResponse(wholeResponse: string, id: string): (r: Scan)
    ensures r.code in {-1, 1, 2}
  {
    ScanFrom(NoScan, Split(wholeResponse, Delim), id)
  }

  // ---------------------------------------------------------------------------
  // The retry loops.

  /** What one pass of login's loop runs into: the connection is refused
      (ConnectException), opening it fails in another way (any other
      IOException), or the server is reached and `reply` is what the client
      reads after sending its SYN. */
  datatype Attempt = Refused | Failed | Answered(reply: string)

  /** How a loop ends: it got the code it waits for, it ran out of attempts,
      processResponse threw, or the outcomes given to the model ran out first. */
  datatype End = Done | GaveUp | Threw | OutOfScript

  /** The effect of a loop: how it ended, the text added to the chat view, the
      texts sent (each framed on the wire), and how many outcomes it used. */
  datatype Session = Session(end: End, shown: string, sent: seq<string>, used: nat)

  /** A session preceded by `used` outcomes that showed `shown` and sent `sent`. */
  function After(shown: string, sent: seq<string>, used: nat, s: Session): Session {
    s.(shown := shown + s.shown, sent := sent + s.sent, used := used + s.used)
  }

  lemma AfterAfter(a: string, b: seq<string>, i: nat, c: string, d: seq<string>, j: nat, s: Session)
    ensures After(a, b, i, After(c, d, j, s)) == After(a + c, b + d, i + j, s)
  {
    assert a + (c + s.shown) == a + c + s.shown;
    assert b + (d + s.sent) == b + d + s.sent;
  }

  /** login's loop with `attempts` already used up. */
  function LoginFrom(script: seq<Attempt>, id: string, attempts: nat): (r: Session)
    ensures r.used <= |script|
    ensures r.end == OutOfScript ==> r.used == |script|
    decreases |script|
  {
    if attempts >= MaxAttempts then Session(GaveUp, "", [], 0)
    else if script == [] then Session(OutOfScript, "", [], 0)
    else
      match script[0]
      case Refused => After("", [], 1, LoginFrom(script[1..], id, attempts + 1))
      case Failed => After("", [], 1, LoginFrom(script[1..], id, attempts))
      case Answered(reply) =>
        var r := ProcessResponse(reply, id);
        if r.thrown then Session(Threw, r.shown, ["SYN " + id], 1)
        else if r.code == 2 then Session(Done, r.shown, ["SYN " + id, "ACK " + id], 1)
        else After(r.shown, ["SYN " + id], 1, LoginFrom(script[1..], id, attempts + 1))
  }

  /** logout's loop with `attempts` already used up; `replies` are what the
      client reads after each "SYN RST <id>". */
  function LogoutFrom(replies: seq<string>, id: string, attempts: nat): (r: Session)
    ensures |r.sent| == r.used <= |replies|
    ensures attempts <= MaxAttempts ==> attempts + r.used <= MaxAttempts
    ensures r.end == OutOfScript ==> r.used == |replies|
    decreases |replies|
  {
    if attempts >= MaxAttempts then Session(GaveUp, "", [], 0)
    else if replies == [] then Session(OutOfScript, "", [], 0)
    else
      var r := ProcessResponse(replies[0], id);
      if r.thrown then Session(Threw, r.shown, ["SYN RST " + id], 1)
      else if r.code == 1 then Session(Done, r.shown, ["SYN RST " + id], 1)
      else After(r.shown, ["SYN RST " + id], 1, LogoutFrom(replies[1..], id, attempts + 1))
  }

  // ---------------------------------------------------------------------------
  // The same loops as steps on the client's state, in the order the source
  // takes them.

  /** The part of a ChatClient that its methods change: the chat view, the
      text written to the server, and whether close() was the last thing done
      to the current channel. */
  datatype ClientState = ClientState(chatView: string, outgoing: string, closed: bool)

  /** A new client: its chat view holds only the header; no channel yet. */
  function Fresh(id: string): ClientState {
    ClientState(Header(id), "", false)
  }

  /** send(text). */
  function Sent(c: ClientState, text: string): ClientState {
    c.(outgoing := c.outgoing + Frame(text))
  }

  /** processResponse(reply), as far as the chat view goes. */
  function Shown(c: ClientState, reply: string, id: string): ClientState {
    c.(chatView := c.chatView + ProcessResponse(reply, id).shown)
  }

  /** How a loop ended, and the client's state then. */
  datatype Run = Run(end: End, after: ClientState)

  /** login's loop, from state `c` with `attempts` already used up. Each pass
      opens a fresh channel; running out of attempts ends in close(). */
  function LoginRun(c: ClientState, script: seq<Attempt>, id: string, attempts: nat): (r: Run)
    ensures r.end == GaveUp ==> r.after.closed
    ensures r.end == Done ==> !r.after.closed
    decreases |script|
  {
    if attempts >= MaxAttempts then Run(GaveUp, c.(closed := true))
    else if script == [] then Run(OutOfScript, c)
    else
      var c0 := c.(closed := false);
      match script[0]
      case Refused => LoginRun(c0, script[1..], id, attempts + 1)
      case Failed => LoginRun(c0, script[1..], id, attempts)
      case Answered(reply) =>
        var c1 := Shown(Sent(c0, "SYN " + id), reply, id);
        var r := ProcessResponse(reply, id);
        if r.thrown then Run(Threw, c1)
        else if r.code == 2 then Run(Done, Sent(c1, "ACK " + id))
        else LoginRun(c1, script[1..], id, attempts + 1)
  }

  /** logout's loop, from state `c` with `attempts` already used up. Only a
      confirmed logout closes the channel. */
  function LogoutRun(c: ClientState, replies: seq<string>, id: string, attempts: nat): (r: Run)
    ensures r.after.closed <==> c.closed || r.end == Done
    decreases |replies|
  {
    if attempts >= MaxAttempts then Run(GaveUp, c)
    else if replies == [] then Run(OutOfScript, c)
    else
      var c1 := Shown(Sent(c, "SYN RST " + id), replies[0], id);
      var r := ProcessResponse(replies[0], id);
      if r.thrown then Run(Threw, c1)
      else if r.code == 1 then Run(Done, c1.(closed := true))
      else LogoutRun(c1, replies[1..], id, attempts + 1)
  }

  /** A pass of login's loop that does not reach the server. */
  lemma LoginUnanswered(c: ClientState, script: seq<Attempt>, id: string, attempts: nat)
    requires attempts < MaxAttempts && script != [] && !script[0].Answered?
    ensures LoginRun(c, script, id, attempts) ==
      LoginRun(c.(closed := false), script[1..], id, if script[0].Refused? then attempts + 1 else attempts)
  {
  }

  /** A pass of login's loop that reaches the server; `c1` is the state after
      its sendCommand. */
  lemma LoginAnswered(c: ClientState, script: seq<Attempt>, id: string, attempts: nat, c1: ClientState,
                      code: int, thrown: bool)
    requires attempts < MaxAttempts && script != [] && script[0].Answered?
    requires c1 == Shown(Sent(c.(closed := false), "SYN " + id), script[0].reply, id)
    requires code == ProcessResponse(script[0].reply, id).code
    requires thrown == ProcessResponse(script[0].reply, id).thrown
    ensures thrown ==> LoginRun(c, script, id, attempts) == Run(Threw, c1)
    ensures !thrown && code == 2 ==> LoginRun(c, script, id, attempts) == Run(Done, Sent(c1, "ACK " + id))
    ensures !thrown && code != 2 ==> LoginRun(c, script, id, attempts) == LoginRun(c1, script[1..], id, attempts + 1)
  {
  }

  /** One pass of logout's loop; `c1` is the state after its sendCommand. */
  lemma LogoutPass(c: ClientState, replies: seq<string>, id: string, attempts: nat, c1: ClientState,
                   code: int, thrown: bool)
    requires attempts < MaxAttempts && replies != []
    requires c1 == Shown(Sent(c, "SYN RST " + id), replies[0], id)
    requires code == ProcessResponse(replies[0], id).code
    requires thrown == ProcessResponse(replies[0], id).thrown
    ensures thrown ==> LogoutRun(c, replies, id, attempts) == Run(Threw, c1)
    ensures !thrown && code == 1 ==> LogoutRun(c, replies, id, attempts) == Run(Done, c1.(closed := true))
    ensures !thrown && code != 1 ==> LogoutRun(c, replies, id, attempts) == LogoutRun(c1, replies[1..], id, attempts + 1)
  {
  }
}
