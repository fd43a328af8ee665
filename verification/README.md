# Agentic honeypot: session engine model

A Dafny model of the message-handling core of the agentic honeypot service.
The service receives chat messages from a suspected scammer and keeps one
session per conversation. Each session holds its messages, the extracted
intelligence and a `callbackSent` flag. For every message the service:

- creates the session on first contact;
- appends the text to the session's messages;
- extracts phone numbers, payment handles, links and suspicious keywords;
- classifies the message with a fixed keyword list;
- posts a final report when a scam message arrives and the session, counting this message, holds at least two messages; when a session's messages are handled one at a time, this happens at most once;
- answers with a fixed reply or a plain "ok".

The model is functional. The session store is a `map<String, Session>`. The
endpoint is a pure function `Engine.ReceiveMessage`, which returns the new
map, the response and the report sent during the step, if any. Traces of
messages are folded by `Traces.RunAll`. Each trace property is proved by
induction for any step function with a matching one-step property.
The `Traces.ReceiveMessage...` lemmas show that the endpoint has each of
these one-step properties.

Modules:

- `Wrappers` (wrappers.dfy): `Option`.
- `Text` (text.dfy): ASCII lower-casing and Python's substring test `k in s`.
  The test is a left-to-right scan, proved equal to "some window of `s` equals `k`".
- `ScamCheck` (scam.dfy): `is_scam`.
- `Patterns` (patterns.dfy): the three regular expressions of the extractor.
  Each is an anchored matcher plus one generic `re.findall` scanner. The
  anchored matchers are proved to return the longest span with the token's
  shape. For handles the span must also sit between two word boundaries.
  For these three patterns, that is exactly what Python's backtracking
  matcher returns. The scanner is proved to report spans in order, without
  overlap, and to cover every position where the pattern matches.
- `Intelligence` (intelligence.dfy): the `extracted` record and
  `extract_intelligence`.
- `Engine` (engine.dfy): sessions, `receive_message`, the callback payload and `debug_session`.
- `Traces` (traces.dfy): properties over any sequence of messages handled
  one at a time. The main one: a session receives at most one final report.

Facts about main.py that the model keeps:

- the scam keywords are `blocked`, `verify`, `urgent`, `upi` and `click`;
- the extractor tracks only the keywords `urgent`, `verify` and `blocked`;
- the reply to a scam message is one fixed string;
- the callback payload is built before `callbackSent` is set, in the same request;
- the payload's `agentNotes` is one fixed string.

The fixed reply is modelled character for character as main.py spells it.
Its apostrophe is the three characters U+00E2 U+20AC U+2122.

## Model

| member | source | states |
|---|---|---|
| Text.Lower | main.py:27 | `text.lower()`, restricted to ASCII lower-casing: keeps the length, maps each character on its own (ASCII upper case to lower case, everything else unchanged), and leaves no ASCII upper-case letter |
| Text.Contains | main.py:27 | `k in s` is true exactly when some window of `s` equals `k` |
| ScamCheck.AnyContained | main.py:27 | `any(k in s for k in ks)` is true exactly when some keyword of the list occurs in `s` |
| ScamCheck.IsScam | main.py:25-27 | a message is a scam exactly when one of `blocked`, `verify`, `urgent`, `upi`, `click` occurs in its lower-cased text |
| Patterns.PhoneAtIsLongest | main.py:32 | `\+?\d{10,13}` at a position matches the longest span of 10 to 13 digits, optionally led by `+`; with no such span, nothing matches |
| Patterns.HandleAtIsLongest | main.py:35 | `\b[\w.\-]{2,}@\w+\b` at a position matches the one span that is two or more local-part characters, `@` and a word run, between word boundaries; with no such span, nothing matches |
| Patterns.LinkAtIsLongest | main.py:38 | `https?://\S+` at a position matches the longest span made of a scheme and a non-empty run with no whitespace; with no such span, nothing matches |
| Patterns.MatchAtIsLongest | main.py:31-39 | each of the three patterns, anchored at a position, yields its longest accepted span or nothing |
| Patterns.Scan | main.py:31-39 | every span `re.findall` reports is the pattern's match at that span's start |
| Patterns.ScanIsFindall | main.py:31-39 | the `re.findall` spans come in order and do not overlap, and every position where the pattern matches lies inside one of them |
| Patterns.ScanShapes | main.py:31-39 | every reported span has the pattern's shape |
| Patterns.FindAll | main.py:31-39 | `re.findall` returns exactly the substrings at the scanner's spans, in order (so every matching position is represented); each is a substring of the text with the pattern's shape |
| Intelligence.HitsIn | main.py:41-43 | the keyword loop keeps exactly the keywords that occur, in list order |
| Intelligence.KeywordHits | main.py:41-43 | a message adds exactly the tracked keywords (`urgent`, `verify`, `blocked`) that occur case-insensitively, in that order, each at most once |
| Intelligence.Findings | main.py:30-43 | what one message contributes: the phone, handle and link lists are exactly the substrings at the scanner's spans for their patterns, each of the right shape; exactly the tracked keywords it contains, in the order `urgent`, `verify`, `blocked`, each at most once; and no bank account |
| Intelligence.ExtractInto | main.py:30-43 | extraction only appends: every list keeps its old entries as a prefix, new entries have their pattern's shape or are the message's keywords, and `bankAccounts` is untouched |
| Intelligence.ExtractKeepsWellFormed | main.py:30-43 | extraction keeps a record well formed: no bank accounts, shaped entries, only tracked keywords |
| Intelligence.ExtractionIsConcatenation | main.py:30-43 | extracting from messages one after another gives the old record followed by the concatenation of the per-message findings |
| Engine.FinalCallback | main.py:46-57 | no payload for an unknown session; otherwise the payload names the session, claims a scam, counts its messages, carries its record and has the fixed agent notes |
| Engine.ReceiveMessage | main.py:78-111 | a session is created only when its key is absent; exactly the text is appended; no other session changes; extraction only appends; the report is sent exactly when the message is a scam, the count after the append is at least 2 and the flag was false; the flag is set after that and never cleared; the report counts the session's messages (at least 2) and has the fixed agent notes; the response is `ok`/no reply or `success`/the fixed reply, by verdict |
| Engine.DebugSession | main.py:113-115 | the debug view is the stored session, or the empty value exactly when the key is unknown |
| Engine.DebugSeesReceivedMessage | main.py:95 | after a message, the debug view of its session ends with that message and other keys are unaffected |
| Engine.ReceivePreservesWellFormed | main.py:82-102 | a step keeps every stored session well formed: at least one message, flag set only once two messages exist, well-formed record |
| Traces.ReceiveMessageReportsOnFlip | main.py:98-102 | one `receive_message` step sends a report for a session exactly when it flips that session's flag from false to true, and never clears a flag |
| Traces.ReceiveMessageLogs | main.py:82-95 | one step creates only its own session, removes none, and appends its text to that session's log only |
| Traces.ReceiveMessageAppends | main.py:96 | one step appends its message's findings to its own session's record and leaves every other record alone |
| Traces.ReceiveMessageKeepsWellFormed | main.py:82-102 | one step keeps every stored session well formed |
| Traces.ReceiveMessageReportsAfterTwo | main.py:100-101 | every report one step sends claims a scam and counts at least two messages |
| Traces.ReportsMatchFlag | main.py:100-102 | over any message sequence, the reports for a session account exactly for the change of its flag |
| Traces.AtMostOneReport | main.py:100-102 | over any message sequence, a session gets at most one final report, and none once its flag is set; the flag never reverts |
| Traces.MessagesAreLogged | main.py:82-95 | over any message sequence, no session disappears, a session exists exactly when it existed before or got a message, and its log is its old log followed by exactly its messages, in order |
| Traces.ExtractedIsConcatenation | main.py:30-43 | over any message sequence, a session's record is its old record followed by the findings of each of its messages, in arrival order |
| Traces.RunPreservesWellFormed | main.py:78-102 | every stored session stays well formed over any message sequence |
| Traces.ReportsCountTwoMessages | main.py:51-57 | every report sent over any message sequence claims a scam and counts at least two messages |
| Traces.FromEmptyWellFormed | main.py:82-102 | started empty, the service keeps every session well formed, and every report it sends claims a scam and counts at least two messages |
| Traces.FromEmptyLog | main.py:82-95 | started empty, a session exists exactly when it got a message, and its log is exactly its messages, in order |
| Traces.FromEmptyExtracted | main.py:30-43 | started empty, a session's record is exactly the concatenated findings of its messages |
| Traces.SecondScamMessageReports | main.py:98-111 | on a new session, a first scam message gets the scam reply and no report; a second scam message sends the one report, counting two messages |

## Left out

- HTTP routing, the pydantic request models and the `home` endpoint (main.py:1-22, 73-75). These are framework plumbing. A request is just `(sessionId, text)`. `sender`, `timestamp`, `conversationHistory` and `metadata` are never read by the core.
- The network post to the collector, the `print` logging and the swallowed exception (main.py:59-70). This is I/O. The payload is returned as a value, and delivery success or failure is not modelled. Failure never changes state in the source either.
- Concurrency. The model handles one message at a time, so `Traces.AtMostOneReport` is a property of sequential handling. The source has no locking. `receive_message` (main.py:78) is a plain handler that the web framework may run on several threads at once. The flag is set only after `send_final_callback` returns (main.py:101-102), and that call can block in the post (main.py:63-67). `timeout=5` bounds each connect and read wait, not the whole call. A second scam message for the same session that arrives during the post still sees the flag unset and sends a second report.
- Text.Lower: lower-casing is ASCII only, so it always keeps the length. Python's `str.lower()` also maps non-ASCII letters: `'É'.lower()` is `'é'`, and `'İ'.lower()` has two characters.
- ScamCheck.IsScam: lower-casing is ASCII only. Python's `str.lower()` also maps non-ASCII letters, some into several characters. For example, `"UPİ"` lower-cases to a string containing `upi`. The model does not detect that case.
- Intelligence.KeywordHits: same ASCII-only lower-casing as `IsScam`.
- Patterns.PhoneAtIsLongest: `\d` is ASCII digits only. Python also matches other Unicode decimal digits.
- Patterns.HandleAtIsLongest: `\w` is ASCII letters, digits and `_` only. Python also matches other Unicode word characters.
- Patterns.LinkAtIsLongest: `\s` covers only the ASCII whitespace characters (space, 0x09-0x0D, 0x1C-0x1F). Python also treats other Unicode spaces as whitespace.
- The `if not session: return` guard of `send_final_callback` (main.py:47-49) is the unknown-key case of `Engine.FinalCallback`. A stored session is a non-empty dictionary, so it is never falsy.
