/** The aircraft classifier `detectMilitary`: a callsign is military when, trimmed and
    upper-cased, it starts with one of a fixed list of prefixes. */
module Classifier {
  import opened Js

  /** The anchored patterns `/^RCH/`, `/^MCE/`, ... in the order the classifier tries them. */
  const MilitaryPrefixes: seq<string> :=
    ["RCH", "MCE", "SAM", "VENUS", "CHAOS", "SPAR", "GAF", "RRR", "DUKE", "STEEL", "BARON"]

  /** `patterns.some((p) => p.test(s))` for anchored literal patterns. */
  function AnyPrefixOf(patterns: seq<string>, s: string): (b: bool)
    ensures b <==> exists k :: 0 <= k < |patterns| && patterns[k] <= s
  {
    if patterns == [] then false
    else if patterns[0] <= s then true
    else
      var b := AnyPrefixOf(patterns[1..], s);
      assert forall k :: 1 <= k < |patterns| ==> patterns[k] == patterns[1..][k - 1];
      b
  }

  /** `detectMilitary(callsign)`: false for a missing or empty callsign; otherwise whether
      the trimmed, upper-cased callsign starts with one of the military prefixes. */
  function DetectMilitary(callsign: Option<string>): bool {
    if !StringTruthy(callsign) then false
    else AnyPrefixOf(MilitaryPrefixes, Normalize(callsign.value))
  }

  /** `callsign.trim().toUpperCase()` */
  function Normalize(callsign: string): string {
    ToUpperCase(Trim(callsign))
  }

  /** The classifier in one statement: military exactly when the callsign is present and
      non-empty and its trimmed upper-case form starts with a listed prefix. */
  lemma DetectMilitarySpec(callsign: Option<string>)
    ensures DetectMilitary(callsign) <==>
      StringTruthy(callsign) &&
      exists k :: 0 <= k < |MilitaryPrefixes| && MilitaryPrefixes[k] <= Normalize(callsign.value)
  {
  }

  /** A present callsign is judged by its normal form alone: an empty callsign is falsy,
      but its normal form is empty too and starts with no prefix. */
  lemma DetectMilitaryPresent(c: string)
    ensures DetectMilitary(Some(c)) == AnyPrefixOf(MilitaryPrefixes, Normalize(c))
  {
    if c == [] {
      assert |Trim(c)| <= |c|;
      assert !AnyPrefixOf(MilitaryPrefixes, "");
    }
  }

  /** Two callsigns with the same normal form get the same verdict. */
  lemma DetectMilitaryCongruence(a: string, b: string)
    requires Normalize(a) == Normalize(b)
    ensures DetectMilitary(Some(a)) == DetectMilitary(Some(b))
  {
    DetectMilitaryPresent(a);
    DetectMilitaryPresent(b);
  }

  /** The classifier ignores letter case: upper-casing a callsign first changes nothing. */
  lemma DetectMilitaryIgnoresCase(s: string)
    ensures DetectMilitary(Some(ToUpperCase(s))) == DetectMilitary(Some(s))
  {
    NormalizeUpper(s);
    DetectMilitaryCongruence(ToUpperCase(s), s);
  }

  lemma NormalizeUpper(s: string)
    ensures Normalize(ToUpperCase(s)) == Normalize(s)
  {
    TrimToUpperCase(s);
    ToUpperCaseIdempotent(Trim(s));
  }

  /** The classifier ignores surrounding whitespace: wrapping a callsign in whitespace, or
      trimming it first, changes nothing. */
  lemma DetectMilitaryIgnoresWhitespace(front: string, s: string, back: string)
    requires AllWhitespace(front) && AllWhitespace(back)
    ensures DetectMilitary(Some(front + s + back)) == DetectMilitary(Some(s))
    ensures DetectMilitary(Some(Trim(s))) == DetectMilitary(Some(s))
  {
    NormalizeIgnoresWhitespace(front, s, back);
    DetectMilitaryCongruence(front + s + back, s);
    DetectMilitaryCongruence(Trim(s), s);
  }

  lemma NormalizeIgnoresWhitespace(front: string, s: string, back: string)
    requires AllWhitespace(front) && AllWhitespace(back)
    ensures Normalize(front + s + back) == Normalize(s)
    ensures Normalize(Trim(s)) == Normalize(s)
    ensures s == [] ==> Normalize(s) == []
  {
    TrimIgnoresWhitespace(front, s, back);
    TrimIdempotent(s);
  }

  // Sample callsigns. They are parameters so that the verifier does not unfold the
  // classifier over string literals.

  /** An Air Mobility Command callsign is military. */
  lemma MilitaryCallsignExample(callsign: string)
    requires callsign == "RCH123"
    ensures DetectMilitary(Some(callsign))
  {
    NormalizeOfPlain(callsign);
    DetectMilitaryPresent(callsign);
    assert MilitaryPrefixes[0] <= callsign;
  }

  /** The same prefix in lower case and padded with spaces is still military. */
  lemma PaddedLowerCaseExample(callsign: string)
    requires callsign == " rch456 "
    ensures DetectMilitary(Some(callsign))
  {
    NormalizeOfPadded(callsign);
    DetectMilitaryPresent(callsign);
    assert MilitaryPrefixes[0] <= "RCH456";
  }

  /** An airline callsign is not military, and neither is a missing or empty one. */
  lemma CivilianCallsignExample(callsign: string)
    requires callsign == "DAL123"
    ensures !DetectMilitary(Some(callsign))
    ensures !DetectMilitary(None) && !DetectMilitary(Some(""))
  {
    NormalizeOfPlain(callsign);
    DetectMilitaryPresent(callsign);
    NoPrefixForDA(callsign);
  }

  predicate PlainChar(c: char) {
    'A' <= c <= 'Z' || '0' <= c <= '9'
  }

  /** A callsign of upper-case letters and digits is its own normal form. */
  lemma NormalizeOfPlain(callsign: string)
    requires callsign != [] && forall k :: 0 <= k < |callsign| ==> PlainChar(callsign[k])
    ensures Normalize(callsign) == callsign
  {
    PlainIsUpper(callsign);
    PlainIsTrimmed(callsign);
  }

  lemma PlainIsUpper(callsign: string)
    requires forall k :: 0 <= k < |callsign| ==> PlainChar(callsign[k])
    ensures ToUpperCase(callsign) == callsign
  {
    ToUpperCaseFixed(callsign);
  }

  lemma PlainIsTrimmed(callsign: string)
    requires callsign != [] && forall k :: 0 <= k < |callsign| ==> PlainChar(callsign[k])
    ensures Trim(callsign) == callsign
  {
    assert callsign == [] + callsign + [];
    TrimUnwraps([], callsign, []);
  }

  lemma NormalizeOfPadded(callsign: string)
    requires callsign == " rch456 "
    ensures Normalize(callsign) == "RCH456"
  {
    PaddedTrim(callsign);
    LowerRch456();
  }

  lemma PaddedTrim(callsign: string)
    requires callsign == " rch456 "
    ensures Trim(callsign) == "rch456"
  {
    assert callsign == " " + "rch456" + " ";
    TrimUnwraps(" ", "rch456", " ");
  }

  lemma LowerRch456()
    ensures ToUpperCase("rch456") == "RCH456"
  {
    ToUpperCaseConcat("rch", "456");
    PlainIsUpper("456");
  }

  lemma NoPrefixForDA(s: string)
    requires |s| >= 2 && s[0] == 'D' && s[1] == 'A'
    ensures !AnyPrefixOf(MilitaryPrefixes, s)
  {
    assert |MilitaryPrefixes| == 11;
    forall k | 0 <= k < 11 ensures !(MilitaryPrefixes[k] <= s) {
      assert MilitaryPrefixes[k][0] != 'D' || MilitaryPrefixes[k][1] != 'A';
    }
  }
}
