/** The per-session intelligence record and what `extract_intelligence`
    adds to it for one message: the three regex scans and the tracked
    keywords. Lists are only ever extended, and `bankAccounts` is never
    written. */
module Intelligence {

  import opened Text
  import opened Patterns

  /** The `extracted` record of a session. */
  datatype Record = Record(
    bankAccounts: seq<String>,
    upiIds: seq<String>,
    phishingLinks: seq<String>,
    phoneNumbers: seq<String>,
    suspiciousKeywords: seq<String>)

  /** The record a new session starts with: five empty lists. */
  const Empty: Record := Record([], [], [], [], [])

  /** The keywords the extractor records, in the order it tests them. */
  const TrackedKeywords: seq<String> := ["urgent", "verify", "blocked"]

  /** `xs` is `ys` with some elements left out, order kept. */
  predicate IsSubsequence<T(==)>(xs: seq<T>, ys: seq<T>) {
    if xs == [] then true
    else if ys == [] then false
    else if xs[0] == ys[0] then IsSubsequence(xs[1..], ys[1..])
    else IsSubsequence(xs, ys[1..])
  }

  predicate Distinct<T(==)>(xs: seq<T>) {
    forall a, b :: 0 <= a < b < |xs| ==> xs[a] != xs[b]
  }

  lemma {:induction false} SubsequenceElements<T>(xs: seq<T>, ys: seq<T>, x: T)
    requires IsSubsequence(xs, ys) && x in xs
    ensures x in ys
    decreases |ys|
  {
    if xs[0] == ys[0] {
      if x != xs[0] {
        SubsequenceElements(xs[1..], ys[1..], x);
      }
    } else {
      SubsequenceElements(xs, ys[1..], x);
    }
  }

  /** A subsequence of a list without repeats has no repeats. */
  lemma {:induction false} SubsequenceOfDistinct<T>(xs: seq<T>, ys: seq<T>)
    requires IsSubsequence(xs, ys) && Distinct(ys)
    ensures Distinct(xs)
    decreases |ys|
  {
    if xs != [] {
      assert Distinct(ys[1..]) by {
        forall a, b | 0 <= a < b < |ys| - 1 ensures ys[1..][a] != ys[1..][b] {
          assert ys[1..][a] == ys[a + 1] && ys[1..][b] == ys[b + 1];
        }
      }
      if xs[0] == ys[0] {
        SubsequenceOfDistinct(xs[1..], ys[1..]);
        forall b | 0 < b < |xs| ensures xs[0] != xs[b] {
          assert xs[b] == xs[1..][b - 1];
          SubsequenceElements(xs[1..], ys[1..], xs[b]);
          var c :| 0 <= c < |ys| - 1 && ys[1..][c] == xs[b];
          assert ys[c + 1] == xs[b];
        }
        forall a, b | 0 < a < b < |xs| ensures xs[a] != xs[b] {
          assert xs[a] == xs[1..][a - 1] && xs[b] == xs[1..][b - 1];
        }
      } else {
        SubsequenceOfDistinct(xs, ys[1..]);
      }
    }
  }

  /** The keywords of `ks`, in list order, that occur in `s`. */
  function HitsIn(s: String, ks: seq<String>): (r: seq<String>)
    ensures forall k :: k in r <==> k in ks && Occurs(k, s)
    ensures IsSubsequence(r, ks)
  {
    if ks == [] then []
    else if Contains(s, ks[0]) then [ks[0]] + HitsIn(s, ks[1..])
    else HitsIn(s, ks[1..])
  }

  /** The keyword loop of `extract_intelligence`: each of `urgent`,
      `verify`, `blocked` that occurs in the lower-cased text, once, in
      that order. */
  function KeywordHits(text: String): (r: seq<String>)
    ensures forall k :: k in r <==> k in TrackedKeywords && Occurs(k, Lower(text))
    ensures IsSubsequence(r, TrackedKeywords)
    ensures Distinct(r)
  {
    var r := HitsIn(Lower(text), TrackedKeywords);
    SubsequenceOfDistinct(r, TrackedKeywords);
    r
  }

  /** What one message contributes to each list: the `re.findall` results
      of the handle, link and phone patterns, and the tracked keywords it
      contains. Nothing is ever found for `bankAccounts`. */
  function Findings(text: String): (f: Record)
    ensures f.bankAccounts == []
    ensures TextsAt(f.phoneNumbers, Scan(Phone, text), text)
    ensures TextsAt(f.upiIds, Scan(Handle, text), text)
    ensures TextsAt(f.phishingLinks, Scan(Link, text), text)
    ensures forall i :: 0 <= i < |f.phoneNumbers| ==> IsPhone(f.phoneNumbers[i])
    ensures forall i :: 0 <= i < |f.upiIds| ==> IsHandle(f.upiIds[i])
    ensures forall i :: 0 <= i < |f.phishingLinks| ==> IsLink(f.phishingLinks[i])
    ensures forall k :: k in f.suspiciousKeywords <==> k in TrackedKeywords && Occurs(k, Lower(text))
    ensures IsSubsequence(f.suspiciousKeywords, TrackedKeywords) && Distinct(f.suspiciousKeywords)
  {
    Record([], FindAll(Handle, text), FindAll(Link, text), FindAll(Phone, text), KeywordHits(text))
  }

  /** `list.extend` on every field. */
  function Append(acc: Record, f: Record): Record {
    Record(
      acc.bankAccounts + f.bankAccounts,
      acc.upiIds + f.upiIds,
      acc.phishingLinks + f.phishingLinks,
      acc.phoneNumbers + f.phoneNumbers,
      acc.suspiciousKeywords + f.suspiciousKeywords)
  }

  /** The empty record is a left unit of `Append`. */
  lemma AppendEmpty(f: Record)
    ensures Append(Empty, f) == f
  {
    assert Empty.bankAccounts + f.bankAccounts == f.bankAccounts;
    assert Empty.upiIds + f.upiIds == f.upiIds;
    assert Empty.phishingLinks + f.phishingLinks == f.phishingLinks;
    assert Empty.phoneNumbers + f.phoneNumbers == f.phoneNumbers;
    assert Empty.suspiciousKeywords + f.suspiciousKeywords == f.suspiciousKeywords;
  }

  /** `extract_intelligence(text, session)` on the session's record: every
      list keeps its old entries as a prefix, the new entries have the
      pattern's shape, the new keywords are exactly the tracked ones the
      text contains, and `bankAccounts` is untouched. */
  function ExtractInto(rec: Record, text: String): (r: Record)
    ensures r.bankAccounts == rec.bankAccounts
    ensures rec.upiIds <= r.upiIds
    ensures rec.phishingLinks <= r.phishingLinks
    ensures rec.phoneNumbers <= r.phoneNumbers
    ensures rec.suspiciousKeywords <= r.suspiciousKeywords
    ensures forall i :: |rec.phoneNumbers| <= i < |r.phoneNumbers| ==> IsPhone(r.phoneNumbers[i])
    ensures forall i :: |rec.upiIds| <= i < |r.upiIds| ==> IsHandle(r.upiIds[i])
    ensures forall i :: |rec.phishingLinks| <= i < |r.phishingLinks| ==> IsLink(r.phishingLinks[i])
    ensures forall k :: k in r.suspiciousKeywords[|rec.suspiciousKeywords|..] <==>
      k in TrackedKeywords && Occurs(k, Lower(text))
  {
    var f := Findings(text);
    var r := Append(rec, f);
    r
  }

  lemma AppendAssociative(a: Record, b: Record, c: Record)
    ensures Append(Append(a, b), c) == Append(a, Append(b, c))
  {
  }

  /** What holds of every record the service builds: `bankAccounts` is
      empty, every phone, handle and link entry has its pattern's shape,
      and every keyword entry is a tracked keyword. */
  ghost predicate RecordWellFormed(rec: Record) {
    && rec.bankAccounts == []
    && (forall i :: 0 <= i < |rec.phoneNumbers| ==> IsPhone(rec.phoneNumbers[i]))
    && (forall i :: 0 <= i < |rec.upiIds| ==> IsHandle(rec.upiIds[i]))
    && (forall i :: 0 <= i < |rec.phishingLinks| ==> IsLink(rec.phishingLinks[i]))
    && (forall k :: k in rec.suspiciousKeywords ==> k in TrackedKeywords)
  }

  /** Extraction keeps a record well formed. */
  lemma ExtractKeepsWellFormed(rec: Record, text: String)
    requires RecordWellFormed(rec)
    ensures RecordWellFormed(ExtractInto(rec, text))
  {
    var r := ExtractInto(rec, text);
    forall i | 0 <= i < |rec.phoneNumbers| ensures r.phoneNumbers[i] == rec.phoneNumbers[i] {
    }
    forall i | 0 <= i < |rec.upiIds| ensures r.upiIds[i] == rec.upiIds[i] {
    }
    forall i | 0 <= i < |rec.phishingLinks| ensures r.phishingLinks[i] == rec.phishingLinks[i] {
    }
    var n := |rec.suspiciousKeywords|;
    assert r.suspiciousKeywords == rec.suspiciousKeywords + r.suspiciousKeywords[n..];
    forall k | k in r.suspiciousKeywords ensures k in TrackedKeywords {
      if k !in rec.suspiciousKeywords {
        assert k in r.suspiciousKeywords[n..];
      }
    }
  }

  /** The record built from a run of messages by extracting from each in
      arrival order. */
  function Collected(texts: seq<String>): Record {
    if texts == [] then Empty else Append(Findings(texts[0]), Collected(texts[1..]))
  }

  /** `extract_intelligence` applied to each message in turn. */
  function FoldExtract(rec: Record, texts: seq<String>): Record
    decreases |texts|
  {
    if texts == [] then rec else FoldExtract(ExtractInto(rec, texts[0]), texts[1..])
  }

  /** Extracting from the messages one after another gives the old record
      followed by the concatenation of the per-message findings. This is the
      fact for a single record; `Traces.ExtractedIsConcatenation` states it
      for one session inside the session map, over a whole message trace. */
  lemma {:induction false} ExtractionIsConcatenation(rec: Record, texts: seq<String>)
    ensures FoldExtract(rec, texts) == Append(rec, Collected(texts))
    decreases |texts|
  {
    if texts == [] {
      assert Append(rec, Empty) == rec;
    } else {
      var f := Findings(texts[0]);
      ExtractionIsConcatenation(ExtractInto(rec, texts[0]), texts[1..]);
      AppendAssociative(rec, f, Collected(texts[1..]));
    }
  }
}
