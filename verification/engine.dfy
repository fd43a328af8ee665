/** The message endpoint as a pure step over the session map: create the
    session on first contact, log the text, extract, classify, and emit the
    final report the first time a scam message arrives in a session that,
    counting this message, holds at least two messages. */
module Engine {

  import opened Wrappers
  import opened Text
  import opened Patterns
  import opened ScamCheck
  import opened Intelligence

  /** One conversation: its messages in arrival order, the accumulated
      intelligence, and whether the final report has been sent. */
  datatype Session = Session(messages: seq<String>, extracted: Record, callbackSent: bool)

  /** The in-memory `sessions` dictionary. */
  type Sessions = map<String, Session>

  /** The two request fields the endpoint reads. */
  datatype Request = Request(sessionId: String, text: String)

  /** The response body; `reply` is absent when no scam was detected. */
  datatype Response = Response(status: String, scamDetected: bool, reply: Option<String>)

  /** The payload posted to the collector. */
  datatype Report = Report(
    sessionId: String,
    scamDetected: bool,
    totalMessagesExchanged: nat,
    extractedIntelligence: Record,
    agentNotes: String)

  /** The new session map, the response, and the report sent during the
      step, if any. */
  datatype Outcome = Outcome(sessions: Sessions, response: Response, report: Option<Report>)

  /** The fixed reply, character for character as the source spells it
      (its apostrophe is the three characters U+00E2 U+20AC U+2122). */
  const Reply: String := "Can you explain this again? I\U{00E2}\U{20AC}\U{2122}m not sure I understand."

  const AgentNotes: String := "Scammer used urgency and payment redirection tactics"

  /** The session created on first contact. */
  const NewSession: Session := Session([], Empty, false)

  /** The session a message for `id` starts from: the stored one, or a new one. */
  function Current(sessions: Sessions, id: String): Session {
    if id in sessions then sessions[id] else NewSession
  }

  /** `send_final_callback`: the payload built from the session as it
      stands, or nothing when the session is unknown. */
  function FinalCallback(sessions: Sessions, id: String): (r: Option<Report>)
    ensures r.None? <==> id !in sessions
    ensures r.Some? ==>
      && r.value.sessionId == id
      && r.value.scamDetected
      && r.value.totalMessagesExchanged == |sessions[id].messages|
      && r.value.extractedIntelligence == sessions[id].extracted
      && r.value.agentNotes == AgentNotes
  {
    if id !in sessions then None
    else
      var sess := sessions[id];
      Some(Report(id, true, |sess.messages|, sess.extracted, AgentNotes))
  }

  /** `receive_message`. The callback is built before `callbackSent` is
      set, from the session that already holds this message and its
      extraction. */
  function ReceiveMessage(sessions: Sessions, req: Request): (o: Outcome)
    // lazy creation; no other session changes and no session disappears
    ensures o.sessions.Keys == sessions.Keys + {req.sessionId}
    ensures forall id :: id in sessions && id != req.sessionId ==> o.sessions[id] == sessions[id]
    ensures req.sessionId !in sessions ==> o.sessions[req.sessionId].messages == [req.text]
    // exactly this text is appended
    ensures o.sessions[req.sessionId].messages == Current(sessions, req.sessionId).messages + [req.text]
    // extraction is append-only and leaves `bankAccounts` alone
    ensures var before := Current(sessions, req.sessionId).extracted;
      var after := o.sessions[req.sessionId].extracted;
      && after.bankAccounts == before.bankAccounts
      && before.phoneNumbers <= after.phoneNumbers
      && before.upiIds <= after.upiIds
      && before.phishingLinks <= after.phishingLinks
      && before.suspiciousKeywords <= after.suspiciousKeywords
    // the trigger condition, with the count taken after the append
    ensures o.report.Some? <==>
      IsScam(req.text) && |Current(sessions, req.sessionId).messages| + 1 >= 2
      && !Current(sessions, req.sessionId).callbackSent
    ensures o.sessions[req.sessionId].callbackSent ==
      (Current(sessions, req.sessionId).callbackSent || o.report.Some?)
    // the report describes this session as it stands after the message
    ensures o.report.Some? ==>
      && o.report.value.sessionId == req.sessionId
      && o.report.value.scamDetected
      && o.report.value.totalMessagesExchanged == |o.sessions[req.sessionId].messages| >= 2
      && o.report.value.extractedIntelligence == o.sessions[req.sessionId].extracted
      && o.report.value.agentNotes == AgentNotes
    // the response shape follows the verdict alone
    ensures !IsScam(req.text) ==> o.response == Response("ok", false, None)
    ensures IsScam(req.text) ==> o.response == Response("success", true, Some(Reply))
  {
    var id := req.sessionId;
    var sess := Current(sessions, id);
    var logged := sess.(messages := sess.messages + [req.text]);
    var extracted := logged.(extracted := ExtractInto(logged.extracted, req.text));
    var s1 := sessions[id := extracted];
    var scam := IsScam(req.text);
    var fire := scam && |extracted.messages| >= 2 && !extracted.callbackSent;
    var report := if fire then FinalCallback(s1, id) else None;
    var s2 := if fire then s1[id := extracted.(callbackSent := true)] else s1;
    var response :=
      if !scam then Response("ok", false, None)
      else Response("success", true, Some(Reply));
    Outcome(s2, response, report)
  }

  /** `debug_session`: the stored session, or the empty value for an
      unknown key. */
  function DebugSession(sessions: Sessions, id: String): (r: Option<Session>)
    ensures r.None? <==> id !in sessions
    ensures r.Some? ==> r.value == sessions[id]
  {
    if id in sessions then Some(sessions[id]) else None
  }

  /** After a message, the debug view of its session exists and ends with
      that message; the debug view of any other key is what it was. */
  lemma DebugSeesReceivedMessage(sessions: Sessions, req: Request, other: String)
    requires other != req.sessionId
    ensures var o := ReceiveMessage(sessions, req);
      && DebugSession(o.sessions, req.sessionId).Some?
      && var msgs := DebugSession(o.sessions, req.sessionId).value.messages;
         |msgs| > 0 && msgs[|msgs| - 1] == req.text
    ensures DebugSession(ReceiveMessage(sessions, req).sessions, other) == DebugSession(sessions, other)
  {
  }

  // ---------------------------------------------------------------------
  // The invariant every stored session keeps

  /** What holds of every session the endpoint has stored: it holds at
      least one message, the report is only ever marked sent once two
      messages exist, and its record is well formed. */
  ghost predicate WellFormed(sess: Session) {
    && |sess.messages| >= 1
    && (sess.callbackSent ==> |sess.messages| >= 2)
    && RecordWellFormed(sess.extracted)
  }

  ghost predicate AllWellFormed(sessions: Sessions) {
    forall id :: id in sessions ==> WellFormed(sessions[id])
  }

  /** A step keeps every stored session well formed. */
  lemma ReceivePreservesWellFormed(sessions: Sessions, req: Request)
    requires AllWellFormed(sessions)
    ensures AllWellFormed(ReceiveMessage(sessions, req).sessions)
  {
    var o := ReceiveMessage(sessions, req);
    var before := Current(sessions, req.sessionId);
    assert RecordWellFormed(before.extracted);
    ExtractKeepsWellFormed(before.extracted, req.text);
    assert WellFormed(o.sessions[req.sessionId]);
  }
}
