/** Text helpers shared by the scam check and the extractor: ASCII
    lower-casing (the model of `str.lower()`) and Python's substring test
    `k in s`, given both as a left-to-right scan and as its reference
    meaning "some window of `s` equals `k`". */
module Text {

  type String = seq<char>

  predicate IsUpper(c: char) {
    'A' <= c <= 'Z'
  }

  function LowerChar(c: char): char {
    if IsUpper(c) then (c as int + 32) as char else c
  }

  /** `s.lower()` on ASCII: every upper-case letter becomes its lower-case
      partner and every other character is kept, position by position. */
  function Lower(s: String): (r: String)
    ensures |r| == |s|
    ensures forall i :: 0 <= i < |s| ==> r[i] == LowerChar(s[i])
    ensures forall i :: 0 <= i < |r| ==> !IsUpper(r[i])
  {
    if s == [] then [] else [LowerChar(s[0])] + Lower(s[1..])
  }

  /** `k` occurs in `s` starting at index `i`. */
  predicate OccursAt(k: String, s: String, i: int) {
    0 <= i && i + |k| <= |s| && s[i..i + |k|] == k
  }

  /** The meaning of Python's `k in s`: some window of `s` equals `k`. */
  ghost predicate Occurs(k: String, s: String) {
    exists i :: OccursAt(k, s, i)
  }

  /** `k in s`, computed by trying each start position from the left. */
  function Contains(s: String, k: String): (b: bool)
    ensures b <==> Occurs(k, s)
    decreases |s|
  {
    if |s| < |k| then
      NoRoomNoOccurrence(k, s);
      false
    else if k <= s then
      assert OccursAt(k, s, 0);
      true
    else
      OccursShift(k, s);
      Contains(s[1..], k)
  }

  lemma NoRoomNoOccurrence(k: String, s: String)
    requires |s| < |k|
    ensures !Occurs(k, s)
  {
  }

  /** When `k` is not a prefix of `s`, it occurs in `s` exactly when it
      occurs in `s` with its first character dropped. */
  lemma OccursShift(k: String, s: String)
    requires |s| > 0 && !(k <= s)
    ensures Occurs(k, s) <==> Occurs(k, s[1..])
  {
    if Occurs(k, s) {
      var i :| OccursAt(k, s, i);
      assert i != 0;
      assert s[1..][i - 1..i - 1 + |k|] == s[i..i + |k|];
      assert OccursAt(k, s[1..], i - 1);
    }
    if Occurs(k, s[1..]) {
      var i :| OccursAt(k, s[1..], i);
      assert s[1..][i..i + |k|] == s[i + 1..i + 1 + |k|];
      assert OccursAt(k, s, i + 1);
    }
  }
}
