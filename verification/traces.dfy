/** Sequences of messages fed to the endpoint one after another, and what
    holds over any such sequence: the final report goes out at most once per
    session, each session's log is exactly its messages in order, and its
    intelligence record is the concatenation of the per-message findings.

    Each trace property follows from a property of a single step. The
    inductions are carried out for any step function with that property,
    and the `ReceiveMessage...` lemmas show that `receive_message` has all of them. */
module Traces {

  import opened Wrappers
  import opened Text
  import opened ScamCheck
  import opened Intelligence
  import opened Engine

  /** One call of the message endpoint. */
  type Step = (Sessions, Request) -> Outcome

  /** The session map after a sequence of messages, and every report sent
      along the way, in order. */
  datatype Run = Run(sessions: Sessions, reports: seq<Report>)

  /** The report a step sent, as a list of zero or one. */
  function Emitted(o: Outcome): seq<Report> {
    if o.report.Some? then [o.report.value] else []
  }

  function RunWith(step: Step, sessions: Sessions, trace: seq<Request>): Run
    decreases |trace|
  {
    if trace == [] then Run(sessions, [])
    else
      var o := step(sessions, trace[0]);
      var rest := RunWith(step, o.sessions, trace[1..]);
      Run(rest.sessions, Emitted(o) + rest.reports)
  }

  /** The service fed a sequence of messages. */
  function RunAll(sessions: Sessions, trace: seq<Request>): Run {
    RunWith(ReceiveMessage, sessions, trace)
  }

  /** How many of `reports` are about session `id`. */
  function ReportsFor(reports: seq<Report>, id: String): nat {
    if reports == [] then 0
    else (if reports[0].sessionId == id then 1 else 0) + ReportsFor(reports[1..], id)
  }

  lemma ReportsForAppend(a: seq<Report>, b: seq<Report>, id: String)
    ensures ReportsFor(a + b, id) == ReportsFor(a, id) + ReportsFor(b, id)
  {
    if a == [] {
      assert a + b == b;
    } else {
      assert (a + b)[0] == a[0];
      assert (a + b)[1..] == a[1..] + b;
      ReportsForAppend(a[1..], b, id);
    }
  }

  /** 1 when session `id` exists and its report is marked sent, else 0. */
  function SentFlag(sessions: Sessions, id: String): nat {
    if id in sessions && sessions[id].callbackSent then 1 else 0
  }

  /** The texts of the messages for session `id`, in order. */
  function TextsFor(trace: seq<Request>, id: String): seq<String> {
    if trace == [] then []
    else (if trace[0].sessionId == id then [trace[0].text] else []) + TextsFor(trace[1..], id)
  }

  // ---------------------------------------------------------------------
  // Properties of one step

  /** A step sends a report for a session exactly when it flips that
      session's flag from false to true, and never clears a flag. */
  ghost predicate ReportsOnFlagFlip(step: Step) {
    forall s, r, id ::
      ReportsFor(Emitted(step(s, r)), id) + SentFlag(s, id) == SentFlag(step(s, r).sessions, id)
  }

  /** A step creates only the session it is addressed to, removes none, and
      appends its text to that session's log only. */
  ghost predicate LogsItsMessage(step: Step) {
    forall s, r, id ::
      && (id in step(s, r).sessions <==> id in s || r.sessionId == id)
      && Current(step(s, r).sessions, id).messages
         == Current(s, id).messages + (if r.sessionId == id then [r.text] else [])
  }

  /** A step appends its message's findings to its own session's record
      and leaves every other record alone. */
  ghost predicate AppendsItsFindings(step: Step) {
    forall s, r, id ::
      Current(step(s, r).sessions, id).extracted
      == (if r.sessionId == id then Append(Current(s, id).extracted, Findings(r.text))
          else Current(s, id).extracted)
  }

  ghost predicate KeepsWellFormed(step: Step) {
    forall s, r :: AllWellFormed(s) ==> AllWellFormed(step(s, r).sessions)
  }

  /** Every report a step sends claims a scam and counts two messages or more. */
  ghost predicate ReportsAfterTwo(step: Step) {
    forall s, r :: step(s, r).report.Some? ==>
      step(s, r).report.value.scamDetected && step(s, r).report.value.totalMessagesExchanged >= 2
  }

  /** `receive_message` reports for a session exactly when it flips that
      session's flag. */
  lemma ReceiveMessageReportsOnFlip()
    ensures ReportsOnFlagFlip(ReceiveMessage)
  {
    forall s, r, id
      ensures ReportsFor(Emitted(ReceiveMessage(s, r)), id) + SentFlag(s, id)
           == SentFlag(ReceiveMessage(s, r).sessions, id)
    {
      var o := ReceiveMessage(s, r);
      if o.report.Some? {
        assert ReportsFor(Emitted(o), id) == (if r.sessionId == id then 1 else 0);
      }
    }
  }

  /** `receive_message` logs its text in its own session only. */
  lemma ReceiveMessageLogs()
    ensures LogsItsMessage(ReceiveMessage)
  {
  }

  /** `receive_message` appends its findings to its own record only. */
  lemma ReceiveMessageAppends()
    ensures AppendsItsFindings(ReceiveMessage)
  {
  }

  /** `receive_message` keeps every stored session well formed. */
  lemma ReceiveMessageKeepsWellFormed()
    ensures KeepsWellFormed(ReceiveMessage)
  {
    forall s, r | AllWellFormed(s)
      ensures AllWellFormed(ReceiveMessage(s, r).sessions)
    {
      ReceivePreservesWellFormed(s, r);
    }
  }

  /** Every report `receive_message` sends claims a scam and counts two
      messages or more. */
  lemma ReceiveMessageReportsAfterTwo()
    ensures ReportsAfterTwo(ReceiveMessage)
  {
  }

  // ---------------------------------------------------------------------
  // Properties of every sequence of steps

  /** The reports sent for a session over a sequence of steps account
      exactly for the change of its flag. */
  lemma {:induction false} ReportsMatchFlag(step: Step, sessions: Sessions, trace: seq<Request>, id: String)
    requires ReportsOnFlagFlip(step)
    ensures ReportsFor(RunWith(step, sessions, trace).reports, id) + SentFlag(sessions, id)
         == SentFlag(RunWith(step, sessions, trace).sessions, id)
    decreases |trace|
  {
    if trace != [] {
      var o := step(sessions, trace[0]);
      var rest := RunWith(step, o.sessions, trace[1..]);
      ReportsMatchFlag(step, o.sessions, trace[1..], id);
      ReportsForAppend(Emitted(o), rest.reports, id);
    }
  }

  /** Over a sequence of steps, no session disappears, a session exists at
      the end exactly when it existed at the start or received a message,
      and its log is its old log followed by exactly its messages, in order. */
  lemma {:induction false} MessagesAreLogged(step: Step, sessions: Sessions, trace: seq<Request>, id: String)
    requires LogsItsMessage(step)
    ensures id in sessions ==> id in RunWith(step, sessions, trace).sessions
    ensures id in RunWith(step, sessions, trace).sessions <==> id in sessions || TextsFor(trace, id) != []
    ensures Current(RunWith(step, sessions, trace).sessions, id).messages
         == Current(sessions, id).messages + TextsFor(trace, id)
    decreases |trace|
  {
    if trace != [] {
      var o := step(sessions, trace[0]);
      MessagesAreLogged(step, o.sessions, trace[1..], id);
      assert TextsFor(trace, id) ==
        (if trace[0].sessionId == id then [trace[0].text] else []) + TextsFor(trace[1..], id);
    }
  }

  /** Over a sequence of steps, a session's record is its old record
      followed by the findings of each of its messages, in arrival order.
      This is the session-map form of `Intelligence.ExtractionIsConcatenation`:
      here the other sessions' messages are interleaved and must be skipped. */
  lemma {:induction false} ExtractedIsConcatenation(step: Step, sessions: Sessions, trace: seq<Request>, id: String)
    requires AppendsItsFindings(step)
    ensures Current(RunWith(step, sessions, trace).sessions, id).extracted
         == Append(Current(sessions, id).extracted, Collected(TextsFor(trace, id)))
    decreases |trace|
  {
    var before := Current(sessions, id).extracted;
    if trace == [] {
      assert Append(before, Empty) == before;
    } else {
      var o := step(sessions, trace[0]);
      ExtractedIsConcatenation(step, o.sessions, trace[1..], id);
      var rest := TextsFor(trace[1..], id);
      if trace[0].sessionId == id {
        var f := Findings(trace[0].text);
        assert TextsFor(trace, id) == [trace[0].text] + rest;
        assert Collected([trace[0].text] + rest) == Append(f, Collected(rest));
        AppendAssociative(before, f, Collected(rest));
      } else {
        assert TextsFor(trace, id) == rest;
      }
    }
  }

  /** Every stored session stays well formed over a sequence of steps. */
  lemma {:induction false} RunPreservesWellFormed(step: Step, sessions: Sessions, trace: seq<Request>)
    requires KeepsWellFormed(step)
    requires AllWellFormed(sessions)
    ensures AllWellFormed(RunWith(step, sessions, trace).sessions)
    decreases |trace|
  {
    if trace != [] {
      RunPreservesWellFormed(step, step(sessions, trace[0]).sessions, trace[1..]);
    }
  }

  /** Every report sent over a sequence of steps claims a scam and counts at
      least two messages. */
  lemma {:induction false} ReportsCountTwoMessages(step: Step, sessions: Sessions, trace: seq<Request>)
    requires ReportsAfterTwo(step)
    ensures forall i :: 0 <= i < |RunWith(step, sessions, trace).reports| ==>
      RunWith(step, sessions, trace).reports[i].scamDetected
      && RunWith(step, sessions, trace).reports[i].totalMessagesExchanged >= 2
    decreases |trace|
  {
    if trace != [] {
      var o := step(sessions, trace[0]);
      ReportsCountTwoMessages(step, o.sessions, trace[1..]);
      var rest := RunWith(step, o.sessions, trace[1..]).reports;
      assert RunWith(step, sessions, trace).reports == Emitted(o) + rest;
    }
  }

  // ---------------------------------------------------------------------
  // The service itself

  /** Over any sequence of messages a session gets at most one final
      report, none once its flag is set, and the flag never reverts. */
  lemma AtMostOneReport(sessions: Sessions, trace: seq<Request>, id: String)
    ensures ReportsFor(RunAll(sessions, trace).reports, id) <= 1
    ensures id in sessions && sessions[id].callbackSent ==>
      && ReportsFor(RunAll(sessions, trace).reports, id) == 0
      && id in RunAll(sessions, trace).sessions
      && RunAll(sessions, trace).sessions[id].callbackSent
  {
    ReceiveMessageReportsOnFlip();
    ReportsMatchFlag(ReceiveMessage, sessions, trace, id);
  }

  /** Started empty, the service keeps every session well formed, and every
      report it sends claims a scam and counts two messages or more. */
  lemma FromEmptyWellFormed(trace: seq<Request>)
    ensures AllWellFormed(RunAll(map[], trace).sessions)
    ensures forall i :: 0 <= i < |RunAll(map[], trace).reports| ==>
      RunAll(map[], trace).reports[i].scamDetected
      && RunAll(map[], trace).reports[i].totalMessagesExchanged >= 2
  {
    ReceiveMessageKeepsWellFormed();
    ReceiveMessageReportsAfterTwo();
    RunPreservesWellFormed(ReceiveMessage, map[], trace);
    ReportsCountTwoMessages(ReceiveMessage, map[], trace);
  }

  /** Started empty, a session exists exactly when it got a message, and
      its log is exactly its messages, in order. */
  lemma FromEmptyLog(trace: seq<Request>, id: String)
    ensures id in RunAll(map[], trace).sessions <==> TextsFor(trace, id) != []
    ensures Current(RunAll(map[], trace).sessions, id).messages == TextsFor(trace, id)
  {
    ReceiveMessageLogs();
    MessagesAreLogged(ReceiveMessage, map[], trace, id);
  }

  /** Started empty, a session's record is exactly the concatenated
      findings of its messages. */
  lemma FromEmptyExtracted(trace: seq<Request>, id: String)
    ensures Current(RunAll(map[], trace).sessions, id).extracted == Collected(TextsFor(trace, id))
  {
    ReceiveMessageAppends();
    ExtractedIsConcatenation(ReceiveMessage, map[], trace, id);
    AppendEmpty(Collected(TextsFor(trace, id)));
  }

  /** Two scam messages on a new session: the first gets the scam reply and
      no report, the second sends the session's one report, counting two
      messages. */
  lemma SecondScamMessageReports(id: String, first: String, second: String)
    requires IsScam(first) && IsScam(second)
    ensures var o1 := ReceiveMessage(map[], Request(id, first));
      && o1.report.None?
      && o1.response == Response("success", true, Some(Reply))
      && var o2 := ReceiveMessage(o1.sessions, Request(id, second));
         && o2.report.Some?
         && o2.report.value.totalMessagesExchanged == 2
         && o2.sessions[id].callbackSent
  {
  }
}
