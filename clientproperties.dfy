/** What ChatClient does with the server's replies and how its retry loops end,
    proved about ClientModel, including how it reads the replies that
    ServerModel produces. */
module ClientProperties {
  import opened JavaLang
  import opened Framing
  import opened Sequences
  import opened ClientModel
  import ServerModel
  import ServerProperties

  // ---------------------------------------------------------------------------
  // processResponse.

  /** The control code a piece sets, -1 for pieces that set none. */
  function CodeOf(k: Kind): int {
    match k
    case LogoutAck => 1
    case LoginAck => 2
    case _ => -1
  }

  /** The chat lines of the pieces: every non-empty text piece, each followed by
      a line break. */
  function ChatLines(ps: seq<string>, id: string): string
    decreases |ps|
  {
    if ps == [] then ""
    else (if Classify(ps[0], id) == ChatText && ps[0] != "" then ps[0] + "\n" else "") + ChatLines(ps[1..], id)
  }

  /** Scanning pieces one batch after another is scanning them all at once. */
  lemma {:induction false} ScanConcat(s: Scan, ps: seq<string>, qs: seq<string>, id: string)
    ensures ScanFrom(s, ps + qs, id) == ScanFrom(ScanFrom(s, ps, id), qs, id)
    decreases |ps|
  {
    if ps == [] {
      assert ps + qs == qs;
    } else if !s.thrown {
      assert (ps + qs)[0] == ps[0] && (ps + qs)[1..] == ps[1..] + qs;
      ScanConcat(ScanStep(s, ps[0], id), ps[1..], qs, id);
    }
  }

  /** With no malformed piece, the scan appends exactly the chat lines, and the
      code is the one the last control piece sets (unchanged if there is none). */
  lemma {:induction false} ScanWellFormed(s: Scan, ps: seq<string>, id: string)
    requires !s.thrown
    requires forall k | 0 <= k < |ps| :: Classify(ps[k], id) != Malformed
    ensures !ScanFrom(s, ps, id).thrown
    ensures ScanFrom(s, ps, id).shown == s.shown + ChatLines(ps, id)
    ensures (forall k | 0 <= k < |ps| :: Classify(ps[k], id) == ChatText) ==> ScanFrom(s, ps, id).code == s.code
    ensures forall k | 0 <= k < |ps| && Classify(ps[k], id) != ChatText ::
      (forall j | k < j < |ps| :: Classify(ps[j], id) == ChatText) ==> ScanFrom(s, ps, id).code == CodeOf(Classify(ps[k], id))
    decreases |ps|
  {
    if ps != [] {
      var s1 := ScanStep(s, ps[0], id);
      assert forall k | 0 <= k < |ps[1..]| :: ps[1..][k] == ps[k + 1];
      ScanWellFormed(s1, ps[1..], id);
      var line := if Classify(ps[0], id) == ChatText && ps[0] != "" then ps[0] + "\n" else "";
      assert s1.shown == s.shown + line;
      Assoc(s.shown, line, ChatLines(ps[1..], id));
    }
  }

  /** The first malformed piece ends the scan: the pieces after it are ignored,
      and the chat lines before it stay in the view. */
  lemma ScanStopsAtMalformed(s: Scan, ps: seq<string>, n: nat, id: string)
    requires !s.thrown && n < |ps| && Classify(ps[n], id) == Malformed
    requires forall k | 0 <= k < n :: Classify(ps[k], id) != Malformed
    ensures ScanFrom(s, ps, id) == ScanFrom(s, ps[..n], id).(thrown := true)
    ensures ScanFrom(s, ps, id).shown == s.shown + ChatLines(ps[..n], id)
  {
    ScanConcat(s, ps[..n], ps[n..], id);
    assert ps[..n] + ps[n..] == ps;
    ScanWellFormed(s, ps[..n], id);
    var t := ScanFrom(s, ps[..n], id);
    assert ps[n..][0] == ps[n];
    assert ScanFrom(t, ps[n..], id) == ScanFrom(t.(thrown := true), ps[n..][1..], id);
  }

  /** A single piece is a single pass. */
  lemma ScanOne(s: Scan, piece: string, id: string)
    requires !s.thrown
    ensures ScanFrom(s, [piece], id) == ScanStep(s, piece, id)
  {
    assert [piece][1..] == [];
  }

  /** A reply made of frames, the last of them not empty, is read piece by
      piece, one piece per frame. */
  lemma ReplyOfFrames(ts: seq<string>, id: string)
    requires ts != [] && Unframed(ts) && ts[|ts| - 1] != ""
    ensures ProcessResponse(Frames(ts), id) == ScanFrom(NoScan, ts, id)
  {
    SplitFrames(ts);
  }

  // ---------------------------------------------------------------------------
  // How the client reads what ServerModel sends.

  lemma FourWords(a: string, b: string, c: string, d: string)
    requires a != "" && b != "" && c != "" && d != ""
    requires ' ' !in a && ' ' !in b && ' ' !in c && ' ' !in d
    ensures Split(a + " " + b + " " + c + " " + d, ' ') == [a, b, c, d]
  {
    assert [a, b, c, d][1..] == [b, c, d];
    assert [b, c, d][1..] == [c, d];
    assert [c, d][1..] == [d];
    assert Join([c, d], ' ') == c + " " + d;
    assert Join([b, c, d], ' ') == b + " " + c + " " + d;
    assert Join([a, b, c, d], ' ') == a + " " + b + " " + c + " " + d;
    SplitOfJoin([a, b, c, d], ' ');
  }

  /** The answer "SYN <x> ACK" to "SYN <x>" is a login confirmation, except for
      x = "RST": "SYN RST ACK" is taken for a logout confirmation by every
      client whose id occurs in it. */
  lemma SynAckRead(x: string, me: string)
    requires x != "" && ' ' !in x
    ensures var reply := "SYN " + x + " ACK";
      Classify(reply, me) == if x == "RST" && Contains(reply, me) then LogoutAck else LoginAck
  {
    assert "SYN " + x + " ACK" == "SYN" + " " + x + " " + "ACK";
    ServerProperties.ThreeWords("SYN", x, "ACK");
  }

  /** The confirmation "SYN RST <name> ACK" is a logout confirmation for a
      client exactly when its id occurs in it, otherwise a login confirmation;
      the client it is meant for finds its name in it. */
  lemma RstAckRead(name: string, me: string)
    requires name != "" && ' ' !in name
    ensures var reply := "SYN RST " + name + " ACK";
      Contains(reply, name) &&
      Classify(reply, me) == if Contains(reply, me) then LogoutAck else LoginAck
  {
    assert "SYN RST " + name + " ACK" == "SYN" + " " + "RST" + " " + name + " " + "ACK";
    FourWords("SYN", "RST", name, "ACK");
    ContainsMiddle("SYN RST ", name, " ACK");
  }

  /** Relayed chat "<name>: <message>" is always chat text, whatever the
      message says. */
  lemma RelayRead(name: string, message: string, me: string)
    requires name != "" && ' ' !in name
    ensures Classify(name + ": " + message, me) == ChatText
  {
    var first := name + ":";
    assert name + ": " + message == first + [' '] + message;
    SplitFirst(first, message, ' ');
    assert first[|first| - 1] == ':';
  }

  /** The notices "<name> logged in" and "<name> logged out" are chat text. */
  lemma NoticeRead(name: string, inOut: string, me: string)
    requires name != "" && ' ' !in name && (inOut == "in" || inOut == "out")
    ensures Classify(ServerModel.Notice(name, inOut), me) == ChatText
  {
    assert ServerModel.Notice(name, inOut) == name + " " + "logged" + " " + inOut;
    ServerProperties.ThreeWords(name, "logged", inOut);
  }

  /** A client that reads the server's answer to its SYN logs in on that pass:
      it sends SYN then ACK, and shows nothing. */
  lemma LoginOnServerAnswer(id: string, rest: seq<Attempt>, attempts: nat)
    requires attempts < MaxAttempts
    requires id != "" && ' ' !in id && Delim !in id && id != "RST"
    ensures LoginFrom([Answered(Frame("SYN " + id + " ACK"))] + rest, id, attempts) ==
      Session(Done, "", ["SYN " + id, "ACK " + id], 1)
  {
    var piece := "SYN " + id + " ACK";
    assert Delim !in piece;
    FrameRoundTrip(piece);
    SynAckRead(id, id);
    ScanOne(NoScan, piece, id);
  }

  /** A client with the id "RST" reads the server's answer "SYN RST ACK" as a
      logout confirmation (code 1), not as the login confirmation it waits for. */
  lemma RstAnswerRead()
    ensures ProcessResponse(Frame("SYN RST ACK"), "RST") == NoScan.(code := 1)
  {
    var piece := "SYN RST ACK";
    assert piece == "SYN " + "RST" + " ACK";
    FrameRoundTrip(piece);
    SynAckRead("RST", "RST");
    ContainsMiddle("SYN ", "RST", " ACK");
    ScanOne(NoScan, piece, "RST");
  }

  /** An answer that shows nothing and carries no login code. */
  predicate Unwelcome(a: Attempt, id: string) {
    a.Answered? && ProcessResponse(a.reply, id) in {NoScan, NoScan.(code := 1)}
  }

  /** Unwelcome answers use up login's attempts: it gives up, having sent one
      SYN per attempt and shown nothing. */
  lemma {:induction false} AnsweredWithoutLogin(script: seq<Attempt>, id: string, attempts: nat)
    requires attempts <= MaxAttempts && |script| >= MaxAttempts - attempts
    requires forall k | 0 <= k < |script| :: Unwelcome(script[k], id)
    ensures var s := LoginFrom(script, id, attempts);
      s.end == GaveUp && s.shown == "" && |s.sent| == MaxAttempts - attempts &&
      forall k | 0 <= k < |s.sent| :: s.sent[k] == "SYN " + id
    decreases MaxAttempts - attempts
  {
    if attempts < MaxAttempts {
      assert Unwelcome(script[0], id);
      assert forall k | 0 <= k < |script[1..]| :: script[1..][k] == script[k + 1];
      AnsweredWithoutLogin(script[1..], id, attempts + 1);
      var s' := LoginFrom(script[1..], id, attempts + 1);
      assert LoginFrom(script, id, attempts) == After("", ["SYN " + id], 1, s');
      assert "" + s'.shown == s'.shown;
    }
  }

  /** A refused connection uses an attempt: with every remaining pass
      refused, login gives up having sent nothing, and its state ends closed. */
  lemma {:induction false} GivesUpAfterRefusals(c: ClientState, script: seq<Attempt>, id: string, attempts: nat)
    requires attempts <= MaxAttempts && |script| >= MaxAttempts - attempts
    requires forall k | 0 <= k < |script| :: script[k] == Refused
    ensures LoginFrom(script, id, attempts) == Session(GaveUp, "", [], MaxAttempts - attempts)
    ensures LoginRun(c, script, id, attempts) == Run(GaveUp, c.(closed := true))
    decreases MaxAttempts - attempts
  {
    if attempts < MaxAttempts {
      assert script[0] == Refused;
      assert forall k | 0 <= k < |script[1..]| :: script[1..][k] == script[k + 1];
      GivesUpAfterRefusals(c.(closed := false), script[1..], id, attempts + 1);
    }
  }

  /** So the server's answers never log that client in: after the remaining
      attempts, all answered, it gives up. */
  lemma RstNeverLogsIn(script: seq<Attempt>, attempts: nat)
    requires attempts <= MaxAttempts && |script| >= MaxAttempts - attempts
    requires forall k | 0 <= k < |script| :: script[k] == Answered(Frame("SYN RST ACK"))
    ensures var s := LoginFrom(script, "RST", attempts);
      s.end == GaveUp && s.shown == "" && |s.sent| == MaxAttempts - attempts
  {
    RstAnswerRead();
    AnsweredWithoutLogin(script, "RST", attempts);
  }

  /** The server's answer to "SYN RST <id>" for an active client is the notice
      "<id> logged out" followed by "SYN RST <id> ACK"; read at once, it shows
      the notice and yields the logout code. */
  lemma LogoutAnswerRead(id: string)
    requires id != "" && ' ' !in id && Delim !in id
    ensures var notice := ServerModel.Notice(id, "out");
      ProcessResponse(Frames([notice, "SYN RST " + id + " ACK"]), id) == Scan(notice + "\n", 1, false)
  {
    var notice := ServerModel.Notice(id, "out");
    var ack := "SYN RST " + id + " ACK";
    assert Delim !in notice && Delim !in ack;
    ReplyOfFrames([notice, ack], id);
    NoticeRead(id, "out", id);
    RstAckRead(id, id);
    ChatThenLogoutAck(notice, ack, id);
  }

  /** A chat line followed by a logout confirmation shows the line and yields
      the logout code. */
  lemma ChatThenLogoutAck(line: string, ack: string, id: string)
    requires line != "" && Classify(line, id) == ChatText && Classify(ack, id) == LogoutAck
    ensures ScanFrom(NoScan, [line, ack], id) == Scan(line + "\n", 1, false)
  {
    ScanConcat(NoScan, [line], [ack], id);
    assert [line] + [ack] == [line, ack];
    ScanOne(NoScan, line, id);
    ScanOne(NoScan.(shown := line + "\n"), ack, id);
  }

  /** So a client that reads that answer ends its logout on that pass. */
  lemma LogoutOnServerAnswer(id: string, rest: seq<string>, attempts: nat)
    requires attempts < MaxAttempts
    requires id != "" && ' ' !in id && Delim !in id
    ensures var notice := ServerModel.Notice(id, "out");
      LogoutFrom([Frames([notice, "SYN RST " + id + " ACK"])] + rest, id, attempts) ==
        Session(Done, notice + "\n", ["SYN RST " + id], 1)
  {
    LogoutAnswerRead(id);
    LogoutEndsOn(Frames([ServerModel.Notice(id, "out"), "SYN RST " + id + " ACK"]), rest, id, attempts);
  }

  /** A reply carrying the logout code ends logout's loop on that pass. */
  lemma LogoutEndsOn(reply: string, rest: seq<string>, id: string, attempts: nat)
    requires attempts < MaxAttempts
    requires !ProcessResponse(reply, id).thrown && ProcessResponse(reply, id).code == 1
    ensures LogoutFrom([reply] + rest, id, attempts) ==
      Session(Done, ProcessResponse(reply, id).shown, ["SYN RST " + id], 1)
  {
    assert ([reply] + rest)[0] == reply;
  }

  // ---------------------------------------------------------------------------
  // The loops on the client's state against their session summaries.

  lemma FramesOfCons(x: string, ts: seq<string>)
    ensures Frames([x] + ts) == Frame(x) + Frames(ts)
  {
    assert ([x] + ts)[0] == x && ([x] + ts)[1..] == ts;
  }

  /** login's loop, run from `c`, agrees with its session summary: it ends as
      the session does, extends the chat view by the session's shown text and
      the outgoing stream by the frames of its sent texts, and leaves the
      channel closed exactly when it gave up, or as it was when no pass ran. */
  ghost predicate LoginAgrees(c: ClientState, script: seq<Attempt>, id: string, attempts: nat) {
    var run := LoginRun(c, script, id, attempts);
    var s := LoginFrom(script, id, attempts);
    run.end == s.end && run.after.chatView == c.chatView + s.shown &&
    run.after.outgoing == c.outgoing + Frames(s.sent) &&
    run.after.closed == (s.end == GaveUp || (s.used == 0 && c.closed))
  }

  lemma {:induction false} LoginRunSummary(c: ClientState, script: seq<Attempt>, id: string, attempts: nat)
    ensures LoginAgrees(c, script, id, attempts)
    decreases |script|
  {
    if attempts >= MaxAttempts || script == [] {
      LoginEnds(c, script, id, attempts);
    } else if !script[0].Answered? {
      var next := if script[0].Refused? then attempts + 1 else attempts;
      LoginRunSummary(c.(closed := false), script[1..], id, next);
      LoginSkips(c, script, id, attempts);
    } else {
      var r := ProcessResponse(script[0].reply, id);
      if r.thrown || r.code == 2 {
        LoginEnds(c, script, id, attempts);
      } else {
        LoginRunSummary(Shown(Sent(c.(closed := false), "SYN " + id), script[0].reply, id), script[1..], id, attempts + 1);
        LoginRetries(c, script, id, attempts);
      }
    }
  }

  /** The passes where login's loop stops. */
  lemma LoginEnds(c: ClientState, script: seq<Attempt>, id: string, attempts: nat)
    requires attempts >= MaxAttempts || script == [] ||
             (script[0].Answered? && (ProcessResponse(script[0].reply, id).thrown || ProcessResponse(script[0].reply, id).code == 2))
    ensures LoginAgrees(c, script, id, attempts)
  {
    if attempts >= MaxAttempts || script == [] {
      EmptyAppend(c.chatView);
      EmptyAppend(c.outgoing);
    } else {
      var syn := "SYN " + id;
      var r := ProcessResponse(script[0].reply, id);
      LoginAnswered(c, script, id, attempts, Shown(Sent(c.(closed := false), syn), script[0].reply, id), r.code, r.thrown);
      if r.thrown {
        FramesOfCons(syn, []);
      } else {
        FramesOfCons(syn, ["ACK " + id]);
        FramesOfCons("ACK " + id, []);
        Assoc(c.outgoing, Frame(syn), Frame("ACK " + id));
      }
    }
  }

  /** A pass that does not reach the server. */
  lemma LoginSkips(c: ClientState, script: seq<Attempt>, id: string, attempts: nat)
    requires attempts < MaxAttempts && script != [] && !script[0].Answered?
    requires LoginAgrees(c.(closed := false), script[1..], id, if script[0].Refused? then attempts + 1 else attempts)
    ensures LoginAgrees(c, script, id, attempts)
  {
    var next := if script[0].Refused? then attempts + 1 else attempts;
    LoginUnanswered(c, script, id, attempts);
    var s' := LoginFrom(script[1..], id, next);
    assert LoginFrom(script, id, attempts) == After("", [], 1, s');
    EmptyAppend(s'.shown);
    EmptyAppend(s'.sent);
  }

  /** An answered pass that does not end the loop. */
  lemma LoginRetries(c: ClientState, script: seq<Attempt>, id: string, attempts: nat)
    requires attempts < MaxAttempts && script != [] && script[0].Answered?
    requires !ProcessResponse(script[0].reply, id).thrown && ProcessResponse(script[0].reply, id).code != 2
    requires LoginAgrees(Shown(Sent(c.(closed := false), "SYN " + id), script[0].reply, id), script[1..], id, attempts + 1)
    ensures LoginAgrees(c, script, id, attempts)
  {
    var syn := "SYN " + id;
    var r := ProcessResponse(script[0].reply, id);
    var c1 := Shown(Sent(c.(closed := false), syn), script[0].reply, id);
    LoginAnswered(c, script, id, attempts, c1, r.code, r.thrown);
    var s' := LoginFrom(script[1..], id, attempts + 1);
    assert LoginFrom(script, id, attempts) == After(r.shown, [syn], 1, s');
    FramesOfCons(syn, s'.sent);
    Assoc(c.chatView, r.shown, s'.shown);
    Assoc(c.outgoing, Frame(syn), Frames(s'.sent));
  }

  /** logout's loop, run from `c`, agrees with its session summary in the
      same way; it closes the channel only when it is done. */
  ghost predicate LogoutAgrees(c: ClientState, replies: seq<string>, id: string, attempts: nat) {
    var run := LogoutRun(c, replies, id, attempts);
    var s := LogoutFrom(replies, id, attempts);
    run.end == s.end && run.after.chatView == c.chatView + s.shown &&
    run.after.outgoing == c.outgoing + Frames(s.sent) &&
    run.after.closed == (c.closed || s.end == Done)
  }

  lemma {:induction false} LogoutRunSummary(c: ClientState, replies: seq<string>, id: string, attempts: nat)
    ensures LogoutAgrees(c, replies, id, attempts)
    decreases |replies|
  {
    if attempts < MaxAttempts && replies != [] {
      var r := ProcessResponse(replies[0], id);
      if r.thrown || r.code == 1 {
        LogoutLastPass(c, replies, id, attempts);
      } else {
        LogoutRunSummary(Shown(Sent(c, "SYN RST " + id), replies[0], id), replies[1..], id, attempts + 1);
        LogoutNextPass(c, replies, id, attempts);
      }
    } else {
      EmptyAppend(c.chatView);
      EmptyAppend(c.outgoing);
    }
  }

  /** The pass where logout's loop stops on a reply. */
  lemma LogoutLastPass(c: ClientState, replies: seq<string>, id: string, attempts: nat)
    requires attempts < MaxAttempts && replies != []
    requires ProcessResponse(replies[0], id).thrown || ProcessResponse(replies[0], id).code == 1
    ensures LogoutAgrees(c, replies, id, attempts)
  {
    var rst := "SYN RST " + id;
    var r := ProcessResponse(replies[0], id);
    LogoutPass(c, replies, id, attempts, Shown(Sent(c, rst), replies[0], id), r.code, r.thrown);
    FramesOfCons(rst, []);
  }

  /** A pass of logout's loop that does not end it. */
  lemma LogoutNextPass(c: ClientState, replies: seq<string>, id: string, attempts: nat)
    requires attempts < MaxAttempts && replies != []
    requires !ProcessResponse(replies[0], id).thrown && ProcessResponse(replies[0], id).code != 1
    requires LogoutAgrees(Shown(Sent(c, "SYN RST " + id), replies[0], id), replies[1..], id, attempts + 1)
    ensures LogoutAgrees(c, replies, id, attempts)
  {
    var rst := "SYN RST " + id;
    var r := ProcessResponse(replies[0], id);
    var s' := LogoutFrom(replies[1..], id, attempts + 1);
    LogoutPass(c, replies, id, attempts, Shown(Sent(c, rst), replies[0], id), r.code, r.thrown);
    assert LogoutFrom(replies, id, attempts) == After(r.shown, [rst], 1, s');
    FramesOfCons(rst, s'.sent);
    Assoc(c.chatView, r.shown, s'.shown);
    Assoc(c.outgoing, Frame(rst), Frames(s'.sent));
  }

  // ---------------------------------------------------------------------------
  // Properties of the loops.

  /** The outcomes with the failed connection attempts left out. */
  function Reached(script: seq<Attempt>): seq<Attempt>
    decreases |script|
  {
    if script == [] then []
    else if script[0].Failed? then Reached(script[1..])
    else [script[0]] + Reached(script[1..])
  }

  /** An IOException other than ConnectException uses no attempt: login ends,
      shows and sends the same as if those passes had not happened. */
  lemma {:induction false} FailuresDoNotCount(script: seq<Attempt>, id: string, attempts: nat)
    ensures var s := LoginFrom(script, id, attempts);
      var t := LoginFrom(Reached(script), id, attempts);
      s.end == t.end && s.shown == t.shown && s.sent == t.sent
    decreases |script|
  {
    if attempts < MaxAttempts && script != [] {
      var rest := script[1..];
      var next := if script[0].Failed? then attempts else attempts + 1;
      FailuresDoNotCount(rest, id, next);
      if !script[0].Failed? {
        var reached := [script[0]] + Reached(rest);
        assert reached[0] == script[0] && reached[1..] == Reached(rest);
      }
    }
  }

  /** The texts a login session sent: "SYN <id>" at most `left` times and
      nothing else, followed, exactly when it is done, by one "ACK <id>" after
      at least one SYN. */
  predicate LoginShape(s: Session, id: string, left: int) {
    var syns := if s.end == Done then |s.sent| - 1 else |s.sent|;
    (s.end == Done ==> |s.sent| >= 2 && s.sent[|s.sent| - 1] == "ACK " + id) &&
    0 <= syns <= left &&
    forall k | 0 <= k < syns :: s.sent[k] == "SYN " + id
  }

  /** What login sends, with `MaxAttempts - attempts` attempts left. */
  lemma {:induction false} LoginSends(script: seq<Attempt>, id: string, attempts: nat)
    requires attempts <= MaxAttempts
    ensures LoginShape(LoginFrom(script, id, attempts), id, MaxAttempts - attempts)
    decreases |script|
  {
    if attempts < MaxAttempts && script != [] {
      var r := if script[0].Answered? then ProcessResponse(script[0].reply, id) else NoScan;
      if script[0].Refused? {
        LoginSends(script[1..], id, attempts + 1);
        ShapeAfterSkip(LoginFrom(script[1..], id, attempts + 1), id, MaxAttempts - attempts);
      } else if script[0].Failed? {
        LoginSends(script[1..], id, attempts);
        ShapeAfterSkip(LoginFrom(script[1..], id, attempts), id, MaxAttempts - attempts);
      } else if !r.thrown && r.code != 2 {
        LoginSends(script[1..], id, attempts + 1);
        ShapeAfterSyn(LoginFrom(script[1..], id, attempts + 1), id, MaxAttempts - attempts, r.shown);
      }
    }
  }

  lemma ShapeAfterSkip(s: Session, id: string, left: int)
    requires LoginShape(s, id, left)
    ensures LoginShape(After("", [], 1, s), id, left)
  {
    var t := After("", [], 1, s);
    EmptyAppend(s.sent);
    assert t.sent == s.sent && t.end == s.end;
  }

  lemma ShapeAfterSyn(s: Session, id: string, left: int, shown: string)
    requires LoginShape(s, id, left - 1)
    ensures LoginShape(After(shown, ["SYN " + id], 1, s), id, left)
  {
    var sent := ["SYN " + id] + s.sent;
    assert forall k | 1 <= k < |sent| :: sent[k] == s.sent[k - 1];
  }

  /** What logout sends: only "SYN RST <id>", one per reply read, at most one
      per attempt left. */
  lemma {:induction false} LogoutSends(replies: seq<string>, id: string, attempts: nat)
    requires attempts <= MaxAttempts
    ensures var s := LogoutFrom(replies, id, attempts);
      |s.sent| == s.used <= MaxAttempts - attempts &&
      forall k | 0 <= k < |s.sent| :: s.sent[k] == "SYN RST " + id
    decreases |replies|
  {
    if attempts < MaxAttempts && replies != [] {
      var r := ProcessResponse(replies[0], id);
      if !r.thrown && r.code != 1 {
        LogoutSends(replies[1..], id, attempts + 1);
        var s' := LogoutFrom(replies[1..], id, attempts + 1);
        assert LogoutFrom(replies, id, attempts) == After(r.shown, ["SYN RST " + id], 1, s');
        RstAfter(s', id, MaxAttempts - attempts, r.shown);
      }
    }
  }

  /** A pass with a logout request keeps that shape with one attempt fewer. */
  lemma RstAfter(s: Session, id: string, left: int, shown: string)
    requires |s.sent| == s.used <= left - 1
    requires forall k | 0 <= k < |s.sent| :: s.sent[k] == "SYN RST " + id
    ensures var t := After(shown, ["SYN RST " + id], 1, s);
      |t.sent| == t.used <= left && forall k | 0 <= k < |t.sent| :: t.sent[k] == "SYN RST " + id
  {
    var sent := ["SYN RST " + id] + s.sent;
    assert forall k | 1 <= k < |sent| :: sent[k] == s.sent[k - 1];
  }

  /** A new client that reads the server's answer to its SYN logs in: its
      channel stays open, its view holds only the header, and it has written
      exactly the two frames that ServerProperties.LoginScenario reads. */
  lemma FreshClientLogsIn(id: string, rest: seq<Attempt>)
    requires id != "" && ' ' !in id && Delim !in id && id != "RST"
    ensures LoginRun(Fresh(id), [Answered(Frame("SYN " + id + " ACK"))] + rest, id, 0) ==
      Run(Done, ClientState(Header(id), Frames(["SYN " + id, "ACK " + id]), false))
  {
    var script := [Answered(Frame("SYN " + id + " ACK"))] + rest;
    LoginOnServerAnswer(id, rest, 0);
    LoginRunSummary(Fresh(id), script, id, 0);
    assert Header(id) + "" == Header(id) && "" + Frames(["SYN " + id, "ACK " + id]) == Frames(["SYN " + id, "ACK " + id]);
  }

  /** A client that reads the server's answer to its logout request shows the
      notice, has written one "SYN RST <id>" more, and is closed. */
  lemma ClientLogsOut(c: ClientState, id: string, rest: seq<string>)
    requires id != "" && ' ' !in id && Delim !in id
    ensures var notice := ServerModel.Notice(id, "out");
      LogoutRun(c, [Frames([notice, "SYN RST " + id + " ACK"])] + rest, id, 0) ==
        Run(Done, ClientState(c.chatView + notice + "\n", c.outgoing + Frame("SYN RST " + id), true))
  {
    var notice := ServerModel.Notice(id, "out");
    LogoutOnServerAnswer(id, rest, 0);
    LogoutRunSummary(c, [Frames([notice, "SYN RST " + id + " ACK"])] + rest, id, 0);
    FramesOfCons("SYN RST " + id, []);
    assert c.chatView + (notice + "\n") == c.chatView + notice + "\n";
  }

  // ---------------------------------------------------------------------------
  // What the server writes to one client.

  /** The frames written to `h`, back to back, as its channel delivers them. */
  function Inbox(ds: seq<ServerModel.Delivery>, h: ServerModel.Handle): string
    decreases |ds|
  {
    if ds == [] then ""
    else (if ds[0].to == h then ds[0].frame else "") + Inbox(ds[1..], h)
  }

  lemma {:induction false} InboxAppend(a: seq<ServerModel.Delivery>, b: seq<ServerModel.Delivery>, h: ServerModel.Handle)
    ensures Inbox(a + b, h) == Inbox(a, h) + Inbox(b, h)
    decreases |a|
  {
    if a == [] {
      assert a + b == b;
    } else {
      TailAppend(a, b);
      InboxAppend(a[1..], b, h);
      var x := if a[0].to == h then a[0].frame else "";
      Assoc(x, Inbox(a[1..], h), Inbox(b, h));
    }
  }

  /** A loop over a list without repeats writes `text` once to every client on
      it and nothing to any other. */
  lemma {:induction false} InboxFanout(targets: seq<ServerModel.Handle>, text: string, h: ServerModel.Handle)
    requires NoDuplicates(targets)
    ensures Inbox(ServerModel.Fanout(targets, text), h) == if h in targets then Frame(text) else ""
    decreases |targets|
  {
    if targets != [] {
      var f := ServerModel.Fanout(targets, text);
      assert f[1..] == ServerModel.Fanout(targets[1..], text);
      assert NoDuplicates(targets[1..]) by {
        forall i, j | 0 <= i < j < |targets[1..]| ensures targets[1..][i] != targets[1..][j] {
          assert targets[1..][i] == targets[i + 1] && targets[1..][j] == targets[j + 1];
        }
      }
      InboxFanout(targets[1..], text, h);
      if targets[0] == h {
        assert h !in targets[1..] by {
          forall j | 0 <= j < |targets[1..]| ensures targets[1..][j] != h {
            assert targets[1..][j] == targets[j + 1];
          }
        }
        assert Frame(text) + "" == Frame(text);
      } else {
        assert (h in targets) == (h in targets[1..]);
      }
    }
  }

  lemma InboxOne(d: ServerModel.Delivery, h: ServerModel.Handle)
    ensures Inbox([d], h) == if d.to == h then d.frame else ""
  {
    assert [d][1..] == [];
  }

  /** The server answers "SYN <id>" by writing "SYN <id> ACK" to the sender and
      nothing else to it: what LoginOnServerAnswer reads. */
  lemma ServerAnswersSyn(st: ServerModel.ServerState, client: ServerModel.Handle, id: string)
    requires ServerModel.Wf(st) && id != "" && ' ' !in id
    ensures Inbox(ServerModel.Route(st, client, "SYN " + id).st.sent, client) ==
      Inbox(st.sent, client) + Frame("SYN " + id + " ACK")
  {
    ServerProperties.SynRequest(st, client, id);
    var d := ServerModel.Delivery(client, Frame("SYN " + id + " ACK"));
    InboxAppend(st.sent, [d], client);
    InboxOne(d, client);
  }

  /** The server answers "SYN RST <x>" from an active client (listed once) by
      writing to it the notice "<name> logged out" and then
      "SYN RST <name> ACK", and nothing else: what LogoutOnServerAnswer reads. */
  lemma ServerAnswersLogout(st: ServerModel.ServerState, client: ServerModel.Handle, x: string)
    requires ServerModel.Wf(st) && client in st.identity && client in st.active && NoDuplicates(st.active)
    requires x != "" && ' ' !in x
    ensures var name := ServerModel.Name(st.identity[client]);
      Inbox(ServerModel.Route(st, client, "SYN RST " + x).st.sent, client) ==
        Inbox(st.sent, client) + Frames([ServerModel.Notice(name, "out"), "SYN RST " + name + " ACK"])
  {
    ServerProperties.RstWords(x);
    ServerProperties.LogoutRequest(st, client, "SYN RST " + x, x);
    var name := ServerModel.Name(st.identity[client]);
    var notice := ServerModel.Notice(name, "out");
    var ack := "SYN RST " + name + " ACK";
    var fan := ServerModel.Fanout(st.active, notice);
    var d := ServerModel.Delivery(client, Frame(ack));
    InboxAppend(st.sent + fan, [d], client);
    InboxAppend(st.sent, fan, client);
    InboxFanout(st.active, notice, client);
    InboxOne(d, client);
    FramesOfCons(notice, [ack]);
    FramesOfCons(ack, []);
    Assoc(Inbox(st.sent, client), Frame(notice), Frame(ack));
  }
}
