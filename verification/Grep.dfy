/** The regular-expression matcher of grep, and the language a pattern denotes. */
module Grep {
  // ---- Patterns ----

  /** One character, or any number of one kind; '.' stands for every character. */
  datatype Item = One(c: char) | Many(c: char)

  /** A pattern: anchored at the start, items, anchored at the end. */
  datatype Pattern = Pattern(start: bool, items: seq<Item>, end: bool)

  predicate Fits(c: char, x: char) {
    c == '.' || c == x
  }

  /** An item per character, two characters to a starred one; a last lone $ is an anchor. */
  function Items(re: string): seq<Item> {
    if re == "" || re == "$" then []
    else if |re| >= 2 && re[1] == '*' then [Many(re[0])] + Items(re[2..])
    else [One(re[0])] + Items(re[1..])
  }

  predicate EndAnchored(re: string) {
    if re == "" then false
    else if re == "$" then true
    else if |re| >= 2 && re[1] == '*' then EndAnchored(re[2..])
    else EndAnchored(re[1..])
  }

  function Compile(re: string): Pattern {
    if re != "" && re[0] == '^' then Pattern(true, Items(re[1..]), EndAnchored(re[1..]))
    else Pattern(false, Items(re), EndAnchored(re))
  }

  /** The language of a sequence of items. */
  ghost predicate InLanguage(items: seq<Item>, s: string)
    decreases |items|
  {
    if items == [] then s == ""
    else match items[0]
         case One(c) => s != "" && Fits(c, s[0]) && InLanguage(items[1..], s[1..])
         case Many(c) => exists j :: 0 <= j <= |s| && AllFit(c, s[..j]) && InLanguage(items[1..], s[j..])
  }

  predicate AllFit(c: char, s: string) {
    forall i :: 0 <= i < |s| ==> Fits(c, s[i])
  }

  /** Some part of the text, anchored as the pattern says, is in the language. */
  ghost predicate Matches(p: Pattern, text: string) {
    exists i, k :: Part(p, text, i, k)
  }

  ghost predicate Part(p: Pattern, text: string, i: int, k: int) {
    0 <= i <= k <= |text| && (p.start ==> i == 0) && (p.end ==> k == |text|) && InLanguage(p.items, text[i..k])
  }

  // ---- The matcher ----

  /** matchhere, and matchstar as a recursion. */
  predicate Here(re: string, text: string)
    decreases |re|, |text|, 0
  {
    if re == "" then true
    else if |re| >= 2 && re[1] == '*' then Star(re[0], re[2..], text)
    else if re == "$" then text == ""
    else text != "" && Fits(re[0], text[0]) && Here(re[1..], text[1..])
  }

  predicate Star(c: char, re: string, text: string)
    decreases |re|, |text|, 1
  {
    Here(re, text) || (text != "" && Fits(c, text[0]) && Star(c, re, text[1..]))
  }

  method MatchHere(re: string, text: string) returns (b: bool)
    ensures b == Here(re, text)
    decreases |re|, |text|, 0
  {
    if re == "" {
      return true;
    }
    if |re| >= 2 && re[1] == '*' {
      b := MatchStar(re[0], re[2..], text);
      return;
    }
    if re == "$" {
      return text == "";
    }
    if text != "" && (re[0] == '.' || re[0] == text[0]) {
      b := MatchHere(re[1..], text[1..]);
      return;
    }
    return false;
  }

  method MatchStar(c: char, re: string, text: string) returns (b: bool)
    ensures b == Star(c, re, text)
    decreases |re|, |text|, 1
  {
    var n := 0;
    while true
      invariant 0 <= n <= |text| && Star(c, re, text[n..]) == Star(c, re, text)
      decreases |text| - n
    {
      b := MatchHere(re, text[n..]);
      if b {
        return;
      }
      if !(n < |text| && (text[n] == c || c == '.')) {
        return false;
      }
      assert text[n..][1..] == text[n + 1..];
      n := n + 1;
    }
  }

  /** Every place is tried, the empty end included. */
  method Match(re: string, text: string) returns (b: bool)
    ensures b <==> Matches(Compile(re), text)
  {
    if re != "" && re[0] == '^' {
      b := MatchHere(re[1..], text);
      AnchoredIs(re, text);
      return;
    }
    var n := 0;
    while true
      invariant 0 <= n <= |text|
      invariant forall i :: 0 <= i < n ==> !Here(re, text[i..])
      decreases |text| - n
    {
      b := MatchHere(re, text[n..]);
      if b {
        UnanchoredIs(re, text);
        return;
      }
      if n == |text| {
        UnanchoredIs(re, text);
        return false;
      }
      n := n + 1;
    }
  }

  // ---- The matcher computes the language ----

  /** A prefix of the text, the whole of it if anchored, is in the language. */
  ghost predicate Prefix(re: string, text: string) {
    exists k :: PrefixTo(re, text, k)
  }

  ghost predicate PrefixTo(re: string, text: string, k: int) {
    0 <= k <= |text| && (EndAnchored(re) ==> k == |text|) && InLanguage(Items(re), text[..k])
  }

  /** The starred form: some characters that fit, then a prefix for the rest. */
  ghost predicate StarPrefix(c: char, re: string, text: string) {
    exists j :: 0 <= j <= |text| && AllFit(c, text[..j]) && Prefix(re, text[j..])
  }

  lemma {:induction false} HereIs(re: string, text: string)
    ensures Here(re, text) <==> Prefix(re, text)
    decreases |re|, |text|, 0
  {
    if re == "" {
      assert text[..0] == "" && PrefixTo(re, text, 0);
    } else if |re| >= 2 && re[1] == '*' {
      StarIs(re[0], re[2..], text);
      ManyIs(re, text);
    } else if re == "$" {
      assert Here(re, text) ==> PrefixTo(re, text, 0);
      assert forall k :: PrefixTo(re, text, k) ==> text[..k] == "";
    } else if text == "" {
      assert text[..0] == "" && !PrefixTo(re, text, 0);
    } else {
      HereIs(re[1..], text[1..]);
      OneIs(re, text);
    }
  }

  lemma OneIs(re: string, text: string)
    requires re != "" && re != "$" && !(|re| >= 2 && re[1] == '*') && text != ""
    ensures Prefix(re, text) <==> Fits(re[0], text[0]) && Prefix(re[1..], text[1..])
  {
    if Prefix(re, text) {
      var k :| PrefixTo(re, text, k);
      assert text[..k] != "";
      assert text[..k][1..] == text[1..][..k - 1] && Items(re)[1..] == Items(re[1..]);
      assert PrefixTo(re[1..], text[1..], k - 1);
    }
    if Fits(re[0], text[0]) && Prefix(re[1..], text[1..]) {
      var k :| PrefixTo(re[1..], text[1..], k);
      assert text[..k + 1][1..] == text[1..][..k] && Items(re)[1..] == Items(re[1..]);
      assert PrefixTo(re, text, k + 1);
    }
  }

  lemma ManyIs(re: string, text: string)
    requires |re| >= 2 && re[1] == '*'
    ensures Prefix(re, text) <==> StarPrefix(re[0], re[2..], text)
  {
    if Prefix(re, text) { ManyStars(re, text); }
    if StarPrefix(re[0], re[2..], text) { StarsMany(re, text); }
  }

  lemma ManyStars(re: string, text: string)
    requires |re| >= 2 && re[1] == '*' && Prefix(re, text)
    ensures StarPrefix(re[0], re[2..], text)
  {
    var c, rest := re[0], re[2..];
    assert Items(re)[1..] == Items(rest);
    var k :| PrefixTo(re, text, k);
    var s := text[..k];
    var j :| 0 <= j <= |s| && AllFit(c, s[..j]) && InLanguage(Items(rest), s[j..]);
    hide Items, InLanguage;
    assert s[..j] == text[..j] && s[j..] == text[j..][..k - j];
    assert PrefixTo(rest, text[j..], k - j);
  }

  lemma StarsMany(re: string, text: string)
    requires |re| >= 2 && re[1] == '*' && StarPrefix(re[0], re[2..], text)
    ensures Prefix(re, text)
  {
    var c, rest := re[0], re[2..];
    var j :| 0 <= j <= |text| && AllFit(c, text[..j]) && Prefix(rest, text[j..]);
    var m :| PrefixTo(rest, text[j..], m);
    var s := text[..j + m];
    assert s[..j] == text[..j] && s[j..] == text[j..][..m];
    assert Items(re)[1..] == Items(rest);
    assert PrefixTo(re, text, j + m);
  }

  lemma {:induction false} StarIs(c: char, re: string, text: string)
    ensures Star(c, re, text) <==> StarPrefix(c, re, text)
    decreases |re|, |text|, 1
  {
    HereIs(re, text);
    if text != "" { StarIs(c, re, text[1..]); }
    StarStep(c, re, text);
  }

  /** No character first, or one that fits and then the same again. */
  lemma StarStep(c: char, re: string, text: string)
    ensures StarPrefix(c, re, text) <==>
              Prefix(re, text) || (text != "" && Fits(c, text[0]) && StarPrefix(c, re, text[1..]))
  {
    if StarPrefix(c, re, text) {
      var j :| 0 <= j <= |text| && AllFit(c, text[..j]) && Prefix(re, text[j..]);
      if j == 0 {
        assert text[0..] == text;
      } else {
        assert text[..j][0] == text[0];
        assert text[1..][..j - 1] == text[..j][1..] && text[1..][j - 1..] == text[j..];
      }
    }
    if Prefix(re, text) { assert text[0..] == text && AllFit(c, text[..0]); }
    if text != "" && Fits(c, text[0]) && StarPrefix(c, re, text[1..]) {
      var j :| 0 <= j <= |text[1..]| && AllFit(c, text[1..][..j]) && Prefix(re, text[1..][j..]);
      assert text[..j + 1] == [text[0]] + text[1..][..j] && text[1..][j..] == text[j + 1..];
      assert AllFit(c, text[..j + 1]);
    }
  }

  lemma AnchoredIs(re: string, text: string)
    requires re != "" && re[0] == '^'
    ensures Here(re[1..], text) <==> Matches(Compile(re), text)
  {
    var p := Compile(re);
    HereIs(re[1..], text);
    if Prefix(re[1..], text) {
      var k :| PrefixTo(re[1..], text, k);
      assert text[0..k] == text[..k];
      assert Part(p, text, 0, k);
    }
    if Matches(p, text) {
      var i, k :| Part(p, text, i, k);
      assert text[0..k] == text[..k];
      assert PrefixTo(re[1..], text, k);
    }
  }

  lemma UnanchoredIs(re: string, text: string)
    requires re == "" || re[0] != '^'
    ensures (exists i :: 0 <= i <= |text| && Here(re, text[i..])) <==> Matches(Compile(re), text)
  {
    var p := Compile(re);
    if i :| 0 <= i <= |text| && Here(re, text[i..]) {
      HereIs(re, text[i..]);
      var k :| PrefixTo(re, text[i..], k);
      assert text[i..][..k] == text[i..i + k];
      assert Part(p, text, i, i + k);
    }
    if Matches(p, text) {
      var i, k :| Part(p, text, i, k);
      assert text[i..][..k - i] == text[i..k];
      assert PrefixTo(re, text[i..], k - i);
      HereIs(re, text[i..]);
    }
  }
}
