/** The small part of JavaScript's value semantics that the globe overlay relies on:
    values that may be null or undefined, truthiness, `Math.round`, and the
    string operations `trim`, `toUpperCase` and `includes`. */
module Js {

  /** A value that may be `null`/`undefined` (`None`) or present (`Some`). */
  datatype Option<+T> = None | Some(value: T)

  /** JavaScript truthiness of a string that may be absent: `null`, `undefined` and `""` are falsy. */
  predicate StringTruthy(s: Option<string>) {
    s.Some? && s.value != ""
  }

  /** JavaScript truthiness of a number that may be absent: `null`, `undefined` and `0` are falsy. */
  predicate NumberTruthy(x: Option<real>) {
    x.Some? && x.value != 0.0
  }

  /** `x || 0` for a number that may be absent. */
  function OrZero(x: Option<real>): real {
    if NumberTruthy(x) then x.value else 0.0
  }

  /** `Math.round`: the integer nearest to `x`, halves rounded towards +infinity. */
  function Round(x: real): (r: int)
    ensures x - 0.5 < r as real <= x + 0.5
  {
    (x + 0.5).Floor
  }

  // ---------------------------------------------------------------------------
  // String.prototype.trim

  /** The characters `trim` removes: ECMAScript's WhiteSpace and LineTerminator code points. */
  predicate IsWhitespace(c: char) {
    c == '\t' || c == '\n' || c == '\U{000B}' || c == '\U{000C}' || c == '\r' || c == ' '
    || c == '\U{00A0}' || c == '\U{1680}' || ('\U{2000}' <= c <= '\U{200A}')
    || c == '\U{2028}' || c == '\U{2029}' || c == '\U{202F}' || c == '\U{205F}'
    || c == '\U{3000}' || c == '\U{FEFF}'
  }

  ghost predicate AllWhitespace(s: string) {
    forall i :: 0 <= i < |s| ==> IsWhitespace(s[i])
  }

  /** Neither the first nor the last character is whitespace. */
  ghost predicate NoEdgeWhitespace(s: string) {
    s == [] || (!IsWhitespace(s[0]) && !IsWhitespace(s[|s| - 1]))
  }

  /** `s` with its leading whitespace removed. */
  function TrimStart(s: string): (r: string)
    ensures |r| <= |s| && r == s[|s| - |r|..]
    ensures AllWhitespace(s[..|s| - |r|])
    ensures r == [] || !IsWhitespace(r[0])
  {
    if s != [] && IsWhitespace(s[0]) then TrimStart(s[1..]) else s
  }

  /** `s` with its trailing whitespace removed. */
  function TrimEnd(s: string): (r: string)
    ensures |r| <= |s| && r == s[..|r|]
    ensures AllWhitespace(s[|r|..])
    ensures r == [] || !IsWhitespace(r[|r| - 1])
  {
    if s != [] && IsWhitespace(s[|s| - 1]) then TrimEnd(s[..|s| - 1]) else s
  }

  /** `r` is `s` with the whitespace before index `i` and after `r` cut off. */
  ghost predicate TrimmedAt(s: string, r: string, i: int) {
    0 <= i <= |s| - |r| && r == s[i..i + |r|]
    && AllWhitespace(s[..i]) && AllWhitespace(s[i + |r|..])
  }

  /** `s.trim()`: the piece of `s` left once the whitespace at both ends is cut off. */
  function Trim(s: string): (r: string)
    ensures NoEdgeWhitespace(r)
    ensures TrimmedAt(s, r, |s| - |TrimStart(s)|)
  {
    var t := TrimStart(s);
    var r := TrimEnd(t);
    var i := |s| - |t|;
    assert r == s[i..i + |r|] && s[i + |r|..] == t[|r|..];
    assert TrimmedAt(s, r, i);
    r
  }

  /** Trim removes exactly the surrounding whitespace: whatever whitespace is wrapped
      around a string with no whitespace at its edges, trimming gives that string back. */
  lemma {:induction false} TrimUnwraps(front: string, t: string, back: string)
    requires AllWhitespace(front) && AllWhitespace(back) && NoEdgeWhitespace(t)
    ensures Trim(front + t + back) == t
  {
    if t == [] {
      assert front + t + back == front + back;
      assert AllWhitespace(front + back) by {
        forall k | 0 <= k < |front + back| ensures IsWhitespace((front + back)[k]) {
          if k >= |front| { assert (front + back)[k] == back[k - |front|]; }
        }
      }
      assert front + back + [] == front + back;
      TrimStartUnwraps(front + back, []);
    } else {
      assert front + t + back == front + (t + back);
      TrimStartUnwraps(front, t + back);
      TrimEndUnwraps(t, back);
    }
  }

  lemma {:induction false} TrimStartUnwraps(front: string, rest: string)
    requires AllWhitespace(front) && (rest == [] || !IsWhitespace(rest[0]))
    ensures TrimStart(front + rest) == rest
  {
    if front != [] {
      assert (front + rest)[1..] == front[1..] + rest;
      TrimStartUnwraps(front[1..], rest);
    } else {
      assert front + rest == rest;
    }
  }

  lemma {:induction false} TrimEndUnwraps(rest: string, back: string)
    requires AllWhitespace(back) && (rest == [] || !IsWhitespace(rest[|rest| - 1]))
    ensures TrimEnd(rest + back) == rest
  {
    if back != [] {
      assert (rest + back)[..|rest + back| - 1] == rest + back[..|back| - 1];
      TrimEndUnwraps(rest, back[..|back| - 1]);
    } else {
      assert rest + back == rest;
    }
  }

  /** Trimming twice is trimming once. */
  lemma TrimIdempotent(s: string)
    ensures Trim(Trim(s)) == Trim(s)
  {
    var t := Trim(s);
    assert [] + t + [] == t;
    TrimUnwraps([], t, []);
  }

  /** Splits `s` around its trimmed form: whitespace, `Trim(s)`, whitespace. */
  lemma TrimSplit(s: string) returns (front: string, back: string)
    ensures s == front + Trim(s) + back
    ensures AllWhitespace(front) && AllWhitespace(back)
  {
    var t := Trim(s);
    var i := |s| - |TrimStart(s)|;
    assert TrimmedAt(s, t, i);
    front, back := s[..i], s[i + |t|..];
    SplitThree(s, i, i + |t|);
  }

  lemma SplitThree(s: string, i: nat, j: nat)
    requires i <= j <= |s|
    ensures s == s[..i] + s[i..j] + s[j..]
  {
    assert s[..i] + s[i..j] == s[..j];
  }

  /** Whitespace wrapped around a string does not survive trimming. */
  lemma TrimIgnoresWhitespace(front: string, s: string, back: string)
    requires AllWhitespace(front) && AllWhitespace(back)
    ensures Trim(front + s + back) == Trim(s)
  {
    var a, c := TrimSplit(s);
    var t := Trim(s);
    WidenPadding(front, a, t, c, back);
    TrimUnwraps(front + a, t, c + back);
  }

  /** Whitespace added outside the whitespace that already pads `t` still pads `t`. */
  lemma WidenPadding(front: string, a: string, t: string, c: string, back: string)
    requires AllWhitespace(front) && AllWhitespace(a) && AllWhitespace(c) && AllWhitespace(back)
    ensures front + (a + t + c) + back == (front + a) + t + (c + back)
    ensures AllWhitespace(front + a) && AllWhitespace(c + back)
  {
    AllWhitespaceConcat(front, a);
    AllWhitespaceConcat(c, back);
  }

  lemma AllWhitespaceConcat(a: string, b: string)
    requires AllWhitespace(a) && AllWhitespace(b)
    ensures AllWhitespace(a + b)
  {
    forall k | 0 <= k < |a + b| ensures IsWhitespace((a + b)[k]) {
      if k >= |a| { assert (a + b)[k] == b[k - |a|]; }
    }
  }

  // ---------------------------------------------------------------------------
  // String.prototype.toUpperCase

  predicate IsAsciiLower(c: char) {
    'a' <= c <= 'z'
  }

  /** The uppercase form of one character. Besides ASCII, it lists every character whose
      Unicode uppercase form begins with an ASCII letter; every other character is kept as
      it is (for a non-ASCII letter this differs from JavaScript, but both forms start with
      a non-ASCII character, so no test for an ASCII prefix can tell them apart). */
  function UpperChar(c: char): string {
    if c < '\U{0080}' then
      if IsAsciiLower(c) then [(c as int - 32) as char] else [c]
    else UpperNonAscii(c)
  }

  function UpperNonAscii(c: char): string {
    match c
    case '\U{00DF}' => "SS"            // sharp s
    case '\U{0131}' => "I"             // dotless i
    case '\U{017F}' => "S"             // long s
    case '\U{01F0}' => "J\U{030C}"     // j with caron
    case '\U{1E96}' => "H\U{0331}"     // h with line below
    case '\U{1E97}' => "T\U{0308}"     // t with diaeresis
    case '\U{1E98}' => "W\U{030A}"     // w with ring above
    case '\U{1E99}' => "Y\U{030A}"     // y with ring above
    case '\U{1E9A}' => "A\U{02BE}"     // a with right half ring
    case '\U{FB00}' => "FF"            // ligatures ff, fi, fl, ffi, ffl, long st, st
    case '\U{FB01}' => "FI"
    case '\U{FB02}' => "FL"
    case '\U{FB03}' => "FFI"
    case '\U{FB04}' => "FFL"
    case '\U{FB05}' => "ST"
    case '\U{FB06}' => "ST"
    case _ => [c]
  }

  /** `s.toUpperCase()`, character by character. The result holds no ASCII lower-case letter. */
  function ToUpperCase(s: string): (r: string)
    ensures forall i :: 0 <= i < |r| ==> !IsAsciiLower(r[i])
  {
    if s == [] then [] else UpperChar(s[0]) + ToUpperCase(s[1..])
  }

  /** On ASCII text upper-casing maps each character by itself: a lower-case letter becomes
      its capital, every other character stays, and length and order are kept. */
  lemma {:induction false} ToUpperCaseAscii(s: string)
    requires forall i :: 0 <= i < |s| ==> s[i] < '\U{0080}'
    ensures |ToUpperCase(s)| == |s|
    ensures forall i :: 0 <= i < |s| ==>
      ToUpperCase(s)[i] == if IsAsciiLower(s[i]) then (s[i] as int - 32) as char else s[i]
  {
    if s != [] {
      ToUpperCaseAscii(s[1..]);
      var u, rest := ToUpperCase(s), ToUpperCase(s[1..]);
      assert u == UpperChar(s[0]) + rest;
      forall i | 1 <= i < |s| ensures u[i] == rest[i - 1] && s[1..][i - 1] == s[i] { }
    }
  }

  lemma {:induction false} ToUpperCaseConcat(a: string, b: string)
    ensures ToUpperCase(a + b) == ToUpperCase(a) + ToUpperCase(b)
  {
    if a != [] {
      assert (a + b)[0] == a[0] && (a + b)[1..] == a[1..] + b;
      ToUpperCaseConcat(a[1..], b);
      var h, x, y := UpperChar(a[0]), ToUpperCase(a[1..]), ToUpperCase(b);
      assert ToUpperCase(a + b) == h + (x + y);
      assert ToUpperCase(a) == h + x;
      assert h + (x + y) == (h + x) + y;
    } else {
      assert a + b == b;
    }
  }

  /** A string made of characters that uppercasing keeps is its own uppercase form. */
  lemma {:induction false} ToUpperCaseFixed(s: string)
    requires forall k :: 0 <= k < |s| ==> UpperChar(s[k]) == [s[k]]
    ensures ToUpperCase(s) == s
  {
    if s != [] {
      ToUpperCaseFixed(s[1..]);
    }
  }

  /** Every character's uppercase form is already upper case. */
  lemma UpperCharIsUpper(c: char)
    ensures ToUpperCase(UpperChar(c)) == UpperChar(c)
  {
    var u := UpperChar(c);
    assert forall k :: 0 <= k < |u| ==> UpperChar(u[k]) == [u[k]];
    ToUpperCaseFixed(u);
  }

  /** Uppercasing twice is uppercasing once. */
  lemma {:induction false} ToUpperCaseIdempotent(s: string)
    ensures ToUpperCase(ToUpperCase(s)) == ToUpperCase(s)
  {
    if s != [] {
      ToUpperCaseConcat(UpperChar(s[0]), ToUpperCase(s[1..]));
      UpperCharIsUpper(s[0]);
      ToUpperCaseIdempotent(s[1..]);
    }
  }

  /** Uppercasing keeps whitespace and never turns other characters into whitespace. */
  lemma UpperCharWhitespace(c: char)
    ensures IsWhitespace(c) ==> UpperChar(c) == [c]
    ensures !IsWhitespace(c) ==> UpperChar(c) != [] && NoEdgeWhitespace(UpperChar(c)) && !IsWhitespace(UpperChar(c)[0])
  {
  }

  /** Upper-casing leaves whitespace alone. */
  lemma {:induction false} ToUpperCaseWhitespace(s: string)
    requires AllWhitespace(s)
    ensures ToUpperCase(s) == s
  {
    if s != [] {
      UpperCharWhitespace(s[0]);
      ToUpperCaseWhitespace(s[1..]);
      assert s == [s[0]] + s[1..];
    }
  }

  /** Upper-casing never turns an edge character into whitespace. */
  lemma ToUpperCaseEdges(s: string)
    requires NoEdgeWhitespace(s)
    ensures NoEdgeWhitespace(ToUpperCase(s))
  {
    if s != [] {
      UpperCharWhitespace(s[0]);
      UpperCharWhitespace(s[|s| - 1]);
      ToUpperCaseLast(s);
    }
  }

  /** The last character of an upper-cased non-empty string comes from its last character. */
  lemma {:induction false} ToUpperCaseLast(s: string)
    requires s != [] && UpperChar(s[|s| - 1]) != []
    ensures ToUpperCase(s) != []
    ensures ToUpperCase(s)[|ToUpperCase(s)| - 1] == UpperChar(s[|s| - 1])[|UpperChar(s[|s| - 1])| - 1]
  {
    var u, rest := ToUpperCase(s), ToUpperCase(s[1..]);
    assert u == UpperChar(s[0]) + rest;
    if |s| > 1 {
      assert s[1..][|s[1..]| - 1] == s[|s| - 1];
      ToUpperCaseLast(s[1..]);
    } else {
      assert rest == [];
    }
  }

  /** Trimming and uppercasing commute. */
  lemma TrimToUpperCase(s: string)
    ensures Trim(ToUpperCase(s)) == ToUpperCase(Trim(s))
  {
    var front, back := TrimSplit(s);
    var t := Trim(s);
    ToUpperCaseConcat(front + t, back);
    ToUpperCaseConcat(front, t);
    ToUpperCaseWhitespace(front);
    ToUpperCaseWhitespace(back);
    ToUpperCaseEdges(t);
    TrimUnwraps(front, ToUpperCase(t), back);
  }

  // ---------------------------------------------------------------------------
  // String.prototype.includes

  /** `sub` occurs in `s` starting at index `i`. */
  predicate OccursAt(s: string, sub: string, i: int) {
    0 <= i <= |s| - |sub| && s[i..i + |sub|] == sub
  }

  /** `s.includes(sub)`: `sub` occurs in `s` as a contiguous piece. */
  function Includes(s: string, sub: string): (b: bool)
    ensures b <==> exists i :: OccursAt(s, sub, i)
    decreases |s|
  {
    if |s| < |sub| then false
    else if s[..|sub|] == sub then assert OccursAt(s, sub, 0); true
    else
      var b := Includes(s[1..], sub);
      assert forall i :: OccursAt(s, sub, i) ==> i >= 1 && OccursAt(s[1..], sub, i - 1) by {
        forall i | OccursAt(s, sub, i) ensures i >= 1 && OccursAt(s[1..], sub, i - 1) {
          assert i != 0;
          assert s[1..][i - 1..i - 1 + |sub|] == s[i..i + |sub|];
        }
      }
      assert b ==> exists i :: OccursAt(s, sub, i) by {
        if b {
          var j :| OccursAt(s[1..], sub, j);
          assert s[1..][j..j + |sub|] == s[j + 1..j + 1 + |sub|];
          assert OccursAt(s, sub, j + 1);
        }
      }
      b
  }
}
