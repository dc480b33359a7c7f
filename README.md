# Chat server and client: a Dafny model

This project models the two sequential cores of a small TCP chat system in
Dafny and proves properties about them.

**The server's request engine (`ChatServer`):**
- `handleRead` joins every chunk read from a client with that client's cached
  partial text.
- When the joined text ends with the delimiter U+1F631, `processRequests`
  splits it into requests.
- Each request either completes the handshake (`finishHandshake`, when it
  equals the queued expected answer) or is serviced (`serviceRequest`).
- A serviced request is one of:
  - `SYN <id>`: start a handshake;
  - `SYN RST <x>`: log out;
  - anything else: chat, relayed to every active client and logged.
- `stopServer` logs every active client out.

**The client (`ChatClient`):**
- `send` frames a text with the delimiter.
- `processResponse` splits a reply batch into pieces and classifies each one:
  - a logout confirmation (code 1);
  - a login confirmation (code 2);
  - chat text, which is appended to the chat view.
- `login` and `logout` are retry loops of at most 20 attempts.

Sockets are handles, and every `respond` appends a frame addressed to a handle
to the server's `sent` list. For the client, two things that come from outside
are inputs to the model:
- the reply text each command reads;
- the outcome of each connection attempt.

Java's `String.split`, `String.replace`, `String.contains` and
`List.remove(Object)` are written out in the module `JavaLang`. Uncaught
`ArrayIndexOutOfBoundsException` and `NullPointerException` are modelled as
outcomes:
- On the server, an `Outcome` with a `Fault`.
- On the client, the `thrown` flag and the `Threw` end of a loop.

Modules:

- `JavaLang`: `split` on one character, `replace`, `contains` and
  `List.remove`, with their lemmas.
- `Framing`: the delimiter, frames, and how split reads a run of frames back.
- `ServerModel`: one function per server method, on a value of the server's
  state (`ServerState`).
- `ServerProperties`: lemmas about the server functions.
- `ChatServer`: class `Server`. Its fields are updated in place, and every
  method is proved to change them exactly as the function of the same name
  in `ServerModel` says.
- `ClientModel`: how one reply piece is classified, what a reply batch does,
  and the login and logout loops as functions. There are two forms of each
  loop:
  - a session summary (`LoginFrom`/`LogoutFrom`);
  - steps on the client's state (`LoginRun`/`LogoutRun`).
- `ChatClient`: class `Client`, with fields `chatView`, `outgoing` and
  `closed`. Each method is proved against the corresponding `ClientModel`
  function.
- `ClientProperties`: lemmas about the client functions. These include how
  the client reads exactly what `ServerModel` writes to it, which links the
  two halves.

The model follows the code, not the protocol design, wherever the two differ:

- The cached partial text is appended after the new chunk, not before it. So
  once a partial frame is cached, nothing more from that client is ever
  dispatched (`PartialCarryBlocksClient`).
- The sender of a chat line receives its own line.
- Login and logout notices go to every active client, the leaver included.
- A logout removes the client from `activeClients`, but its recorded identity
  stays.
- The server does not close the connection on logout.
- Every answer to SYN that is not a login confirmation also uses one of
  login's attempts, not only a failed connection.
- `logout` does not close the channel when it gives up.

The exceptions the request engine can raise (`ArrayIndexOutOfBoundsException`
for a lone `SYN`, `NullPointerException` in `getName` for a client without an
identity) are not caught on the way out: `handleRead`'s caller in
`serviceConnections` (ChatServer.java:104-116) catches only I/O and
cancelled-key exceptions. Such an exception therefore ends the executor task
that serves every client, so one client sending a lone `SYN` stops the server
for all of them. The model ends the step with a `Fault` and stops processing
there; the end of the task itself is left out with the selector loop.

The model also does not enforce that the id contains no tab or delimiter.
Instead, the lemmas that need this state it as a precondition.

Two behaviours of the code are proved as they stand:

- In every state that keeps the server invariant, a client listed twice in
  `activeClients` makes `stopServer` read past the end of the list
  (`StopServerWithRepeats`, from `StopLoopWithRepeats` on the loop itself);
  without repeats it empties the list (`StopServerWithoutRepeats`).
  `StopServerWithRepeatedClient` works one instance out in full. A repeated
  handshake on one connection is one way to list a client twice
  (`RepeatedHandshakeRepeatsClient`).
- A client whose id is `RST` reads the server's answer `SYN RST ACK` as a
  logout confirmation, so it can never log in (`RstNeverLogsIn`).

## Model

Rows whose third column starts with "Proof step:" are lemmas that carry one
step of a larger proof (one loop pass, one case of an induction); the
properties themselves are in the other rows.

| member | source | states |
|---|---|---|
| JavaLang.Fields | src/zad1/ChatServer.java:142 | splitting at every occurrence of a character gives at least one field, and no field contains that character |
| JavaLang.StripTrailingEmpty | src/zad1/ChatServer.java:150 | split's removal of trailing empty strings keeps a prefix of the pieces that does not end with an empty piece |
| JavaLang.StripOnlyEmpties | src/zad1/ChatServer.java:150 | only empty pieces are removed |
| JavaLang.Split | src/zad1/ChatServer.java:150 | no piece returned by String.split contains the separator |
| JavaLang.JoinOfFields | src/zad1/ChatServer.java:150 | joining the fields with the separator gives back the original string |
| JavaLang.FieldsConcat | src/zad1/ChatServer.java:150 | the fields of `x + sep + y` are the fields of x followed by the fields of y |
| JavaLang.FieldsNoSep | src/zad1/ChatServer.java:245 | a string without the separator is its own single field |
| JavaLang.FieldsOfJoin | src/zad1/ChatServer.java:160 | splitting words joined with the separator gives the words back |
| JavaLang.SplitOfJoin | src/zad1/ChatServer.java:160 | String.split of words joined by spaces gives back the words, when the last word is not empty |
| JavaLang.SplitNoSep | src/zad1/ChatServer.java:160 | String.split of a string without the separator returns that string alone |
| JavaLang.SplitFirst | src/zad1/ChatClient.java:155 | the first word of `a + " " + b` is `a`, whatever b is |
| JavaLang.ListRemove | src/zad1/ChatServer.java:197 | List.remove(Object) takes out exactly one occurrence: the list is unchanged when the element is absent, and otherwise one shorter with the element counted once less; the position and order are in ListRemoveFirst |
| JavaLang.ListRemoveFirst | src/zad1/ChatServer.java:197 | List.remove(Object) removes the first occurrence of the element and keeps every other element in its order |
| JavaLang.FirstField | src/zad1/ChatServer.java:245 | the first piece of a split is the string up to its first separator, or the whole string when it has none, and holds no separator |
| JavaLang.Contains | src/zad1/ChatClient.java:156 | String.contains holds exactly when the pattern occurs at some position of the string |
| JavaLang.ReplaceAll | src/zad1/ChatServer.java:182 | String.replace returns the string unchanged when the pattern does not occur in it |
| JavaLang.ReplaceAllAbsent | src/zad1/ChatServer.java:182 | replace changes nothing when the pattern cannot occur |
| JavaLang.ContainsMiddle | src/zad1/ChatClient.java:156 | String.contains finds a string placed between two others |
| Framing.FramesAppend | src/zad1/ChatServer.java:227-228 | the frames of two batches, written one after the other, are the two streams concatenated |
| Framing.FieldsOfFrames | src/zad1/ChatServer.java:150 | the fields of a run of frames followed by a tail are the framed texts followed by the fields of the tail |
| Framing.SplitFrames | src/zad1/ChatServer.java:131-132 | a non-empty run of frames ends with the delimiter, and split gives the framed texts back, minus trailing empty ones |
| Framing.LastOfFrames | src/zad1/ChatServer.java:131 | a non-empty run of frames ends with the delimiter |
| Framing.FrameRoundTrip | src/zad1/ChatClient.java:86 | a non-empty text without the delimiter, once framed, splits back to exactly itself |
| ServerModel.Fanout | src/zad1/ChatServer.java:202-206 | the relay loop writes exactly one frame of the text to each target, in list order |
| ServerModel.Name | src/zad1/ChatServer.java:244-246 | getName is the identity record up to its first tab: a prefix of the record with no tab, followed in the record by a tab or by nothing |
| ServerModel.MessageHandler | src/zad1/ChatServer.java:173-177 | chat keeps the server invariant, changes neither the active list nor the handshake state, and only appends to the log and the written frames |
| ServerModel.LoginHandler | src/zad1/ChatServer.java:179-191 | login appends the client to the active list and leaves it with an identity; an existing identity is never changed |
| ServerModel.LogoutHandler | src/zad1/ChatServer.java:193-200 | logout keeps the identity map, the handshake state and the cache unchanged |
| ServerModel.FinishHandshake | src/zad1/ChatServer.java:141-147 | completing the handshake keeps the invariant and the cache, and only appends to the log and the written frames |
| ServerModel.ServiceRequest | src/zad1/ChatServer.java:159-171 | servicing a request keeps the invariant (every active client has an identity, and every queued answer is "null" or "ACK ...") and the cache |
| ServerModel.Route | src/zad1/ChatServer.java:151-155 | one request, routed by comparison with the queued answer, keeps the invariant and the cache |
| ServerModel.ProcessPieces | src/zad1/ChatServer.java:149-157 | the loop over the pieces keeps the invariant, and identities are never changed or lost |
| ServerModel.ProcessRequests | src/zad1/ChatServer.java:149-157 | processing a joined text keeps the invariant and the cache, only appends to the log and the written frames, and never changes or loses an identity |
| ServerModel.ReadChunk | src/zad1/ChatServer.java:129-136 | the cache becomes "null" when chunk plus old carry ends with the delimiter, and otherwise becomes that text with nothing dispatched |
| ServerModel.HandleRead | src/zad1/ChatServer.java:122-139 | reading any sequence of chunks keeps the invariant, and only appends to the log and the written frames |
| ServerModel.ExceptionHandler | src/zad1/ChatServer.java:215-225 | deregistering a client keeps the invariant |
| ServerModel.StopLoop | src/zad1/ChatServer.java:65-69 | every iteration of the removal loop keeps the invariant |
| ServerModel.StopServer | src/zad1/ChatServer.java:63-70 | stopping keeps the invariant, and only appends to the log and the written frames |
| ServerProperties.ReplaceAck | src/zad1/ChatServer.java:182 | `"ACK <id>".replace("ACK ", "")` is the id |
| ServerProperties.NameIsFirstField | src/zad1/ChatServer.java:183 | getName of the stored record "<id>\t<address>" is Name(id) |
| ServerProperties.NameOfPlainId | src/zad1/ChatServer.java:245 | an id without tabs is its own name |
| ServerProperties.QueuedIsNotSyn | src/zad1/ChatServer.java:151 | under the invariant, a request starting with SYN never equals the queued answer |
| ServerProperties.SynWordsRequest | src/zad1/ChatServer.java:160-164 | any request whose words are exactly SYN and <id>, whatever spaces follow, writes "SYN <id> ACK" to the sender, queues "ACK <id>", and changes nothing else |
| ServerProperties.ProcessPiecesAppend | src/zad1/ChatServer.java:150-156 | requests are processed strictly left to right, and nothing after a throwing request is processed |
| ServerProperties.WholeFramesAreDispatched | src/zad1/ChatServer.java:130-133 | with nothing carried, a chunk of whole frames dispatches the framed texts in order and resets the cache to "null" |
| ServerProperties.PartialCarryBlocksClient | src/zad1/ChatServer.java:129-135 | once a cached partial text is not a delimiter-ended frame, no later chunk is ever dispatched and only the cache changes |
| ServerProperties.SplitFrameIsNeverProcessed | src/zad1/ChatServer.java:130-135 | a request whose first read ends before its delimiter is never processed, and nothing sent after it is processed either |
| ServerProperties.SynRequest | src/zad1/ChatServer.java:162-164 | the request "SYN <id>" as the client writes it: the case of SynWordsRequest for a non-empty id without spaces |
| ServerProperties.AckRequest | src/zad1/ChatServer.java:143-146 | the queued "ACK <id>" appends the client to the active list, records the id only if none is recorded, logs one line, notifies every active client, and resets the queued answer to "null" |
| ServerProperties.OnlyTheQueuedAckLogsIn | src/zad1/ChatServer.java:141-147 | a request grows the active list exactly when it equals the queued answer and is a two-word ACK; otherwise the list does not grow |
| ServerProperties.AckBeforeSyn | src/zad1/ChatServer.java:168 | "ACK <id>" without a prior SYN is treated as chat and throws NullPointerException in getName |
| ServerProperties.RepeatedHandshakeRepeatsClient | src/zad1/ChatServer.java:181 | a second handshake on the same connection lists the client twice |
| ServerProperties.LoginScenario | src/zad1/ChatServer.java:122-139 | a fresh connection sending SYN and ACK in one read is logged in under its id with exactly the expected frames and log line |
| ServerProperties.OneChunk | src/zad1/ChatServer.java:124 | Proof step: one read is one pass of handleRead's loop |
| ServerProperties.LoginChunk | src/zad1/ChatServer.java:131-133 | Proof step: the login chunk is fully dispatched and the cache reset |
| ServerProperties.LoginPieces | src/zad1/ChatServer.java:150-156 | Proof step: the two handshake requests lead to the logged-in state |
| ServerProperties.AckAfterSyn | src/zad1/ChatServer.java:151-152 | Proof step: after SYN, the ACK takes the handshake route |
| ServerProperties.ProcessPiecesStep | src/zad1/ChatServer.java:150-156 | Proof step: one more request is one more routing step, unless an earlier one threw |
| ServerProperties.TwoPieces | src/zad1/ChatServer.java:150-156 | Proof step: two requests in a row are routed in order |
| ServerProperties.ChatRequest | src/zad1/ChatServer.java:159-177 | any request serviceRequest hands to messageHandler (a first word other than SYN, or SYN followed by words that are neither a handshake nor a logout, such as "SYN hello there"), from an identified client, relays "<name>: <text>" to every active client, the sender included, and appends exactly one log line |
| ServerProperties.FanoutReaches | src/zad1/ChatServer.java:203-204 | the relay reaches a client exactly when it is in the active list, so an active sender gets its own line |
| ServerProperties.ChatWithoutIdentity | src/zad1/ChatServer.java:167-174 | any request handed to messageHandler by a client with no identity throws NullPointerException in getName and changes nothing |
| ServerProperties.LoneSyn | src/zad1/ChatServer.java:165 | the single word SYN throws ArrayIndexOutOfBoundsException |
| ServerProperties.LogoutRequest | src/zad1/ChatServer.java:160-166 | any request whose words are SYN, RST and <x>, whatever spaces follow, logs out: one log line, the notice to every active client (the leaver too), and then, only if the client was active, its removal and "SYN RST <name> ACK"; the identity stays |
| ServerProperties.LogoutWithoutIdentity | src/zad1/ChatServer.java:193-194 | any request whose words are SYN, RST and <x>, from a client with no recorded identity, throws NullPointerException in getName before anything changes |
| ServerProperties.LogoutRoute | src/zad1/ChatServer.java:160-166 | Proof step: any request whose words are SYN, RST and <x> reaches logoutHandler |
| ServerProperties.LogoutEffect | src/zad1/ChatServer.java:193-200 | Proof step: logoutHandler's effect, in order |
| ServerProperties.NullAfterLoginIsDropped | src/zad1/ChatServer.java:145 | after login, a chat line reading exactly "null" is taken for the handshake answer and dropped |
| ServerProperties.ListRemoveNoDuplicates | src/zad1/ChatServer.java:223 | removing from a list without repeats leaves none of the removed element |
| ServerProperties.NoDuplicatesTail | src/zad1/ChatServer.java:223 | Proof step: the tail of a list without repeats has none, and lacks the head |
| ServerProperties.ExceptionHandlerDeregisters | src/zad1/ChatServer.java:215-225 | exceptionHandler takes the client out of the active list for good and leaves every other client's membership unchanged |
| ServerProperties.ListRemoveLast | src/zad1/ChatServer.java:67 | Proof step: removing an element that occurs only at the end of the list drops exactly the last position |
| ServerProperties.StopLoopWithoutRepeats | src/zad1/ChatServer.java:65-69 | the removal loop empties the list and writes exactly the departure log lines and notices |
| ServerProperties.LeaveStep | src/zad1/ChatServer.java:65-69 | Proof step: one departure's log line and notices are the head of the remaining ones |
| ServerProperties.LastOfDistinct | src/zad1/ChatServer.java:66-67 | Proof step: the last of a list without repeats is not in the rest, and removing it leaves the rest |
| ServerProperties.StopLoopStep | src/zad1/ChatServer.java:65-69 | Proof step: one iteration of stopServer's loop |
| ServerProperties.StopStep | src/zad1/ChatServer.java:66-68 | Proof step: one iteration on a client listed once: its log line and its notice to the clients still listed |
| ServerProperties.StopServerWithoutRepeats | src/zad1/ChatServer.java:63-70 | with no client listed twice, stopping empties the active list, logs and announces each departure, and sends no "SYN RST ... ACK" |
| ServerProperties.StopServerWithRepeats | src/zad1/ChatServer.java:63-70 | in every state that keeps the invariant, a client listed twice makes stopServer end by reading past the end of the list |
| ServerProperties.StopLoopWithRepeats | src/zad1/ChatServer.java:65-69 | run on a list that holds a repeat and whose clients all have an identity, the removal loop ends by reading past the end of the list |
| ServerProperties.RepeatBeforeLast | src/zad1/ChatServer.java:65-66 | Proof step: a list with a repeat is not empty, and when its last element is listed once the repeat is in the rest |
| ServerProperties.StopUniqueLast | src/zad1/ChatServer.java:66-68 | Proof step: an iteration on a last client listed once leaves the rest of the list and the identities for the next index |
| ServerProperties.StopRepeatedLast | src/zad1/ChatServer.java:66-68 | Proof step: an iteration on a last client listed earlier too removes two entries (one in the loop, one in logoutHandler), so the next index is past the end |
| ServerProperties.RemoveRepeated | src/zad1/ChatServer.java:67 | Proof step: after List.remove takes out the last entry of a client listed earlier too, the client is still listed |
| ServerProperties.StopServerWithRepeatedClient | src/zad1/ChatServer.java:65-68 | a client listed twice is removed twice in one iteration, gets "SYN RST a ACK", and the loop then reads past the end of the list |
| ChatServer.Server.constructor | src/zad1/ChatServer.java:36-46 | a new server has empty maps, an empty active list, log and written frames, and satisfies the invariant |
| ChatServer.Server.Respond | src/zad1/ChatServer.java:227-242 | appends one frame of the response for that client and changes nothing else |
| ChatServer.Server.GlobalRespond | src/zad1/ChatServer.java:202-206 | its loop writes "<name>: <message>" to every active client in list order |
| ChatServer.Server.GlobalLogInOutNotify | src/zad1/ChatServer.java:208-213 | one log line, then its loop writes the notice to every active client |
| ChatServer.Server.BuildLog | src/zad1/ChatServer.java:248-250 | appends one chat log line |
| ChatServer.Server.MessageHandler | src/zad1/ChatServer.java:173-177 | updates the fields, and raises the exception, exactly as ServerModel.MessageHandler |
| ChatServer.Server.LoginHandler | src/zad1/ChatServer.java:179-191 | updates the fields exactly as ServerModel.LoginHandler |
| ChatServer.Server.LogoutHandler | src/zad1/ChatServer.java:193-200 | exactly as ServerModel.LogoutHandler, including the NullPointerException |
| ChatServer.Server.FinishHandshake | src/zad1/ChatServer.java:141-147 | exactly as ServerModel.FinishHandshake |
| ChatServer.Server.ServiceRequest | src/zad1/ChatServer.java:159-171 | exactly as ServerModel.ServiceRequest, including the lone-SYN exception |
| ChatServer.Server.ProcessRequests | src/zad1/ChatServer.java:149-157 | its loop over the split requests ends in the state ServerModel.ProcessPieces gives, and stops at the first exception |
| ChatServer.Server.HandleRead | src/zad1/ChatServer.java:122-139 | its loop over the chunks keeps the invariant and ends as ServerModel.HandleRead |
| ChatServer.Server.ExceptionHandler | src/zad1/ChatServer.java:215-225 | removes the client's first entry from the active list and keeps the invariant |
| ChatServer.Server.StopServer | src/zad1/ChatServer.java:63-70 | its backwards loop ends as ServerModel.StopServer, including the out-of-bounds read |
| ClientModel.ClassifyKinds | src/zad1/ChatClient.java:155-164 | each kind both ways: a piece throws exactly when it has no words or is the bare word SYN; it gives code 1 exactly when its two or more words are SYN first, RST second and ACK last and it holds the id; it gives code 2 exactly for every other piece of two or more words with SYN first and ACK last; every other piece is chat text |
| ClientModel.ScanFrom | src/zad1/ChatClient.java:154-165 | the loop over the pieces stops for good at the first throw, and its control code stays -1, 1 or 2 |
| ClientModel.ProcessResponse | src/zad1/ChatClient.java:151-167 | the code processResponse returns is always -1, 1 or 2 |
| ClientModel.LoginFrom | src/zad1/ChatClient.java:39-60 | login uses at most the outcomes it is given, and all of them whenever it runs out of them |
| ClientModel.LogoutFrom | src/zad1/ChatClient.java:62-72 | logout sends one request per reply it reads and never more than the attempts left, and it has read every reply whenever it runs out of them |
| ClientModel.LoginRun | src/zad1/ChatClient.java:39-60 | login ends with the channel closed when it gives up and open when it succeeds |
| ClientModel.LogoutRun | src/zad1/ChatClient.java:62-72 | logout leaves the channel closed exactly when it was closed before or logout succeeded |
| ClientModel.LoginUnanswered | src/zad1/ChatClient.java:52-56 | Proof step: a pass that does not reach the server opens a new channel; only a ConnectException uses an attempt |
| ClientModel.LoginAnswered | src/zad1/ChatClient.java:47-51 | Proof step: an answered pass throws, finishes with "ACK <id>" on code 2, or uses an attempt |
| ClientModel.LogoutPass | src/zad1/ChatClient.java:65-69 | Proof step: a logout pass throws, closes and returns on code 1, or uses an attempt |
| ClientProperties.ScanConcat | src/zad1/ChatClient.java:154-165 | reading the pieces in two batches is the same as reading them all at once |
| ClientProperties.ScanWellFormed | src/zad1/ChatClient.java:153-165 | with no malformed piece, nothing is thrown; exactly the non-empty chat pieces are appended, each followed by a line break, in order; and the code is the one set by the last control piece, or unchanged if there is none |
| ClientProperties.ScanStopsAtMalformed | src/zad1/ChatClient.java:155-156 | the first piece whose words are indexed past the end throws: later pieces are ignored and earlier chat lines stay |
| ClientProperties.ReplyOfFrames | src/zad1/ChatClient.java:152 | a reply made of frames (the last not empty) is read one piece per frame |
| ClientProperties.SynAckRead | src/zad1/ChatClient.java:156-159 | the server's "SYN <x> ACK" is a login confirmation, except that "SYN RST ACK" is a logout confirmation for any client whose id occurs in it |
| ClientProperties.RstAckRead | src/zad1/ChatClient.java:156-159 | "SYN RST <name> ACK" is a logout confirmation exactly for clients whose id occurs in it and a login confirmation for all others, and the named client does occur in it |
| ClientProperties.RelayRead | src/zad1/ChatServer.java:204 | relayed chat "<name>: <message>" is always chat text, whatever the message says |
| ClientProperties.NoticeRead | src/zad1/ChatServer.java:211 | "<name> logged in" and "<name> logged out" are chat text |
| ClientProperties.LoginOnServerAnswer | src/zad1/ChatClient.java:47-50 | a client reading the server's answer to its SYN logs in on that pass: it sends SYN then ACK and shows nothing |
| ClientProperties.RstAnswerRead | src/zad1/ChatClient.java:156-157 | the client "RST" reads "SYN RST ACK" as code 1 |
| ClientProperties.AnsweredWithoutLogin | src/zad1/ChatClient.java:41-51 | answers that show nothing and carry no code 2 use up every attempt: login gives up having sent exactly one "SYN <id>" per attempt left |
| ClientProperties.GivesUpAfterRefusals | src/zad1/ChatClient.java:52-59 | each refused connection uses an attempt: after the attempts left are all refused, login gives up, sends nothing and ends closed |
| ClientProperties.RstNeverLogsIn | src/zad1/ChatClient.java:47-51 | the client "RST" never logs in on the server's answers, and gives up after all attempts |
| ClientProperties.LogoutAnswerRead | src/zad1/ChatClient.java:152-166 | the server's logout answer, read at once, shows the notice and yields code 1 |
| ClientProperties.ChatThenLogoutAck | src/zad1/ChatClient.java:154-165 | a chat piece followed by a logout confirmation shows the chat line and yields code 1 |
| ClientProperties.LogoutOnServerAnswer | src/zad1/ChatClient.java:65-67 | a client reading the server's logout answer ends its logout on that pass |
| ClientProperties.LogoutEndsOn | src/zad1/ChatClient.java:65-67 | any reply that yields code 1 ends logout after one "SYN RST <id>" |
| ClientProperties.LoginRunSummary | src/zad1/ChatClient.java:39-60 | login's loop ends as its session summary says. The chat view is extended by exactly the shown text, and the outgoing stream by exactly the frames of the sent texts. The channel ends closed exactly when login gave up |
| ClientProperties.LoginEnds | src/zad1/ChatClient.java:47-50 | Proof step: the passes where login stops agree with the summary |
| ClientProperties.LoginSkips | src/zad1/ChatClient.java:52-56 | Proof step: a pass that does not reach the server agrees with the summary |
| ClientProperties.LoginRetries | src/zad1/ChatClient.java:47-51 | Proof step: an answered pass without code 2 agrees with the summary |
| ClientProperties.LogoutRunSummary | src/zad1/ChatClient.java:62-72 | logout's loop ends as its summary says, extends the view and the outgoing stream accordingly, and closes the channel only when done, never on give-up |
| ClientProperties.LogoutLastPass | src/zad1/ChatClient.java:65-67 | Proof step: the pass where logout stops agrees with the summary |
| ClientProperties.LogoutNextPass | src/zad1/ChatClient.java:65-69 | Proof step: a logout pass without code 1 agrees with the summary |
| ClientProperties.FailuresDoNotCount | src/zad1/ChatClient.java:54-56 | an IOException other than ConnectException uses no attempt: login ends, shows and sends the same as without those passes |
| ClientProperties.LoginSends | src/zad1/ChatClient.java:41-51 | login sends only "SYN <id>", at most one per attempt left, and, exactly when it succeeds, one final "ACK <id>" after at least one SYN |
| ClientProperties.ShapeAfterSkip | src/zad1/ChatClient.java:52-56 | Proof step: a pass without a request keeps that shape |
| ClientProperties.ShapeAfterSyn | src/zad1/ChatClient.java:47-51 | Proof step: a pass with a request keeps that shape with one attempt fewer |
| ClientProperties.LogoutSends | src/zad1/ChatClient.java:62-72 | logout sends only "SYN RST <id>", one per reply it read, and at most one per attempt left |
| ClientProperties.RstAfter | src/zad1/ChatClient.java:65-69 | Proof step: a logout pass that sends one more "SYN RST <id>" keeps that shape with one attempt fewer |
| ClientProperties.FreshClientLogsIn | src/zad1/ChatClient.java:31-50 | a new client reading the server's answer logs in, keeps only the header in its view, and has written exactly the two frames that ServerProperties.LoginScenario reads |
| ClientProperties.ClientLogsOut | src/zad1/ChatClient.java:62-68 | a client reading the server's logout answer shows the notice, writes one more "SYN RST <id>" frame and is closed |
| ClientProperties.InboxAppend | src/zad1/ChatServer.java:227-242 | what a client receives from two batches of writes is what it receives from each, in order |
| ClientProperties.InboxFanout | src/zad1/ChatServer.java:210-212 | a loop over a list without repeats writes the text once to each listed client and nothing to others |
| ClientProperties.ServerAnswersSyn | src/zad1/ChatServer.java:162-163 | the server's answer to "SYN <id>" reaches the sender as exactly the frame "SYN <id> ACK" |
| ClientProperties.ServerAnswersLogout | src/zad1/ChatServer.java:193-200 | the server's answer to an active client's logout reaches it as exactly the notice and then "SYN RST <name> ACK" |
| ChatClient.Client.constructor | src/zad1/ChatClient.java:31-37 | the chat view starts as "=== <id> chat view" and a line break, and nothing has been written |
| ChatClient.Client.Close | src/zad1/ChatClient.java:169-177 | marks the channel closed and changes nothing else |
| ChatClient.Client.Send | src/zad1/ChatClient.java:83-101 | appends the text and the delimiter to the outgoing stream and changes nothing else |
| ChatClient.Client.SendMessage | src/zad1/ChatClient.java:79-81 | the same as send |
| ChatClient.Client.ProcessResponse | src/zad1/ChatClient.java:151-167 | its loop appends to the chat view exactly what ClientModel.ProcessResponse shows, and returns its code and whether it threw |
| ChatClient.Client.SendCommand | src/zad1/ChatClient.java:74-77 | sends the command, then processes the reply |
| ChatClient.Client.LoginAttempt | src/zad1/ChatClient.java:42-56 | one pass of login's loop either ends login as ClientModel.LoginRun says, or leaves the rest of the run to the remaining outcomes with at most one more attempt used |
| ChatClient.Client.LogoutAttempt | src/zad1/ChatClient.java:65-69 | one pass of logout's loop either ends logout as ClientModel.LogoutRun says, or leaves the rest of the run to the remaining replies with one more attempt used |
| ChatClient.Client.Login | src/zad1/ChatClient.java:39-60 | its counter-driven loop, one LoginAttempt per pass, ends in the end and state that ClientModel.LoginRun gives |
| ChatClient.Client.Logout | src/zad1/ChatClient.java:62-72 | its loop, one LogoutAttempt per pass, ends in the end and state that ClientModel.LogoutRun gives |

## Left out

- The selector loop, accepting connections, the executor thread, its shutdown and `serverReady` (ChatServer.java:23, 48-61, 71-120) are left out: they are about threads and readiness, not the request engine. `HandleRead` takes the chunks one read yields.
- Socket I/O is left out: the byte buffers, the write loops in `respond` and `send`, `read`, and closing sockets. A write is an append to `sent` or `outgoing`, and closing is the `closed` flag.
- Decoding bytes into strings is left out: chunks and replies are already-decoded strings. So a delimiter split across two reads at the byte level is not modelled.
- Timestamps in the log and the local address in the identity record are not modelled: they are external values. The identity holds the declared id, and `getName` takes its first tab-separated field.
- How the reply to a command is obtained is not modelled. This covers `handleAwaitResponse`, `middleman`, `read`, `handleReadChat` and its waiting. The reply text is an input, including "internal server issue idk" on an IOException.
- ChatClientTask.java is not part of this model: it is a scripted test driver with no logic of its own.
- ChatClient.Client.Send: does not model the 1024-byte `communicationBuffer` (ChatClient.java:35). A text whose UTF-8 encoding plus the 4-byte delimiter exceeds 1024 bytes makes `put` (line 86) throw BufferOverflowException. No catch in `send` handles it, so it escapes `sendMessage`, `login` and `logout`. Byte encoding is not modelled, so every send succeeds in the model.
- `send`'s exception paths are not modelled: SocketException or ClosedChannelException followed by `close()`, and the RuntimeException for other IOExceptions. Every write succeeds in the model.
- The `exceptionHandler` calls from `respond` on write failures are not modelled, for the same reason.
- `loginHandler`'s IOException path is not modelled, since the local address is external.
- Console output and stack traces are left out.
- ChatClient.Client.Login: reopening the channel on each pass is modelled only as clearing the `closed` flag. The old channel is not closed by the source either.
- ChatClient.Client.Login, ChatClient.Client.Logout: the outcomes are a finite sequence, so a login that keeps failing with IOExceptions other than ConnectException, which loops for ever in the source, ends in `OutOfScript` once the sequence runs out.
- ChatClient.Client.GetChatView: a plain reader of the chat view, with no contract of its own.
