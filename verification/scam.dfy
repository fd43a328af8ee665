/** The binary scam verdict of the message endpoint: a message is a scam
    when its lower-cased text contains any of five fixed keywords. */
module ScamCheck {

  import opened Text

  /** The keyword list of `is_scam`, in source order. */
  const ScamKeywords: seq<String> := ["blocked", "verify", "urgent", "upi", "click"]

  /** Some keyword of `ks` is a substring of `s` (Python's `any(k in s for k in ks)`). */
  function AnyContained(s: String, ks: seq<String>): (b: bool)
    ensures b <==> exists i :: 0 <= i < |ks| && Occurs(ks[i], s)
  {
    if ks == [] then false
    else Contains(s, ks[0]) || AnyContained(s, ks[1..])
  }

  /** `is_scam`: true exactly when one of `blocked`, `verify`, `urgent`,
      `upi`, `click` occurs in the lower-cased text. */
  function IsScam(text: String): (r: bool)
    ensures r <==>
      || Occurs("blocked", Lower(text))
      || Occurs("verify", Lower(text))
      || Occurs("urgent", Lower(text))
      || Occurs("upi", Lower(text))
      || Occurs("click", Lower(text))
  {
    var t := Lower(text);
    var b := AnyContained(t, ScamKeywords);
    assert b ==> exists i :: 0 <= i < 5 && Occurs(ScamKeywords[i], t);
    assert Occurs("blocked", t) ==> Occurs(ScamKeywords[0], t);
    assert Occurs("verify", t) ==> Occurs(ScamKeywords[1], t);
    assert Occurs("urgent", t) ==> Occurs(ScamKeywords[2], t);
    assert Occurs("upi", t) ==> Occurs(ScamKeywords[3], t);
    assert Occurs("click", t) ==> Occurs(ScamKeywords[4], t);
    b
  }
}
