/** The regular-expression matcher of grep: literals, '.', 'c*', a leading '^' and a final '$'.
    Strings are the C strings without their terminating NUL. */
module Grep {

  predicate CharMatches(c: char, x: char) {
    c == '.' || c == x
  }

  /** matchhere: does re match at the beginning of text? */
  predicate MatchHere(re: string, text: string)
    decreases |re| + |text|, 0
  {
    if re == "" then true
    else if |re| >= 2 && re[1] == '*' then MatchStar(re[0], re[2..], text)
    else if re == "$" then text == ""
    else text != "" && CharMatches(re[0], text[0]) && MatchHere(re[1..], text[1..])
  }

  /** matchstar: does c*re match at the beginning of text? */
  predicate MatchStar(c: char, re: string, text: string)
    decreases |re| + |text|, 1
  {
    MatchHere(re, text) || (text != "" && CharMatches(c, text[0]) && MatchStar(c, re, text[1..]))
  }

  /** match: a leading '^' anchors, otherwise every suffix of text is tried, the empty one too. */
  predicate Match(re: string, text: string) {
    if re != "" && re[0] == '^' then MatchHere(re[1..], text) else MatchAnywhere(re, text)
  }

  predicate MatchAnywhere(re: string, text: string) {
    MatchHere(re, text) || (text != "" && MatchAnywhere(re, text[1..]))
  }

  // ---- the loops ----

  /** match's do-while over the text. */
  method MatchLoop(re: string, text: string) returns (b: bool)
    ensures b == Match(re, text)
  {
    if re != "" && re[0] == '^' {
      return MatchHere(re[1..], text);
    }
    var t := text;
    while true
      invariant MatchAnywhere(re, text) == MatchAnywhere(re, t)
      decreases |t|
    {
      if MatchHere(re, t) {
        return true;
      }
      if t == "" {
        return false;
      }
      t := t[1..];
    }
  }

  /** matchstar's do-while. */
  method MatchStarLoop(c: char, re: string, text: string) returns (b: bool)
    ensures b == MatchStar(c, re, text)
  {
    var t := text;
    while true
      invariant MatchStar(c, re, text) == MatchStar(c, re, t)
      decreases |t|
    {
      if MatchHere(re, t) {
        return true;
      }
      if t == "" || !CharMatches(c, t[0]) {
        return false;
      }
      t := t[1..];
    }
  }

  // ---- the language of a pattern ----

  datatype Item = One(c: char) | Star(c: char)

  /** The items of a pattern, without a final '$'. */
  function Items(re: string): seq<Item> {
    if re == "" || re == "$" then []
    else if |re| >= 2 && re[1] == '*' then [Star(re[0])] + Items(re[2..])
    else [One(re[0])] + Items(re[1..])
  }

  /** Does the pattern end in an unstarred '$'? */
  predicate Anchored(re: string) {
    if re == "" then false
    else if re == "$" then true
    else if |re| >= 2 && re[1] == '*' then Anchored(re[2..])
    else Anchored(re[1..])
  }

  /** A character stands for itself, and '.' for any. */
  predicate InItem(it: Item, w: string) {
    match it
    case One(c) => |w| == 1 && (c == '.' || w[0] == c)
    case Star(c) => c == '.' || forall i :: 0 <= i < |w| ==> w[i] == c
  }

  function Concat(ws: seq<string>): string {
    if ws == [] then "" else ws[0] + Concat(ws[1..])
  }

  /** w is a concatenation of one word per item. */
  ghost predicate InLang(items: seq<Item>, w: string) {
    exists ws: seq<string> ::
      |ws| == |items| && Concat(ws) == w && forall i :: 0 <= i < |items| ==> InItem(items[i], ws[i])
  }

  /** Some prefix of text is in the language; all of it, if the pattern is anchored at the end. */
  ghost predicate PrefixIn(re: string, text: string) {
    exists k :: 0 <= k <= |text| && InLang(Items(re), text[..k]) && (Anchored(re) ==> k == |text|)
  }

  lemma InLangNil(w: string)
    ensures InLang([], w) <==> w == ""
  {
    if w == "" {
      assert Concat([]) == "";
    }
  }

  lemma InLangCons(it: Item, items: seq<Item>, w: string)
    ensures InLang([it] + items, w) <==> exists j :: 0 <= j <= |w| && InItem(it, w[..j]) && InLang(items, w[j..])
  {
    if InLang([it] + items, w) {
      var ws :| |ws| == |[it] + items| && Concat(ws) == w
                && forall i :: 0 <= i < |[it] + items| ==> InItem(([it] + items)[i], ws[i]);
      var j, vs := |ws[0]|, ws[1..];
      assert w[..j] == ws[0] && w[j..] == Concat(vs);
      assert InItem(([it] + items)[0], ws[0]);
      forall i | 0 <= i < |items|
        ensures InItem(items[i], vs[i])
      {
        assert InItem(([it] + items)[i + 1], ws[i + 1]);
      }
      assert InItem(it, w[..j]) && InLang(items, w[j..]);
    }
    if j :| 0 <= j <= |w| && InItem(it, w[..j]) && InLang(items, w[j..]) {
      var vs :| |vs| == |items| && Concat(vs) == w[j..] && forall i :: 0 <= i < |items| ==> InItem(items[i], vs[i]);
      var ws := [w[..j]] + vs;
      assert ws[1..] == vs;
      assert Concat(ws) == w;
      assert forall i :: 0 <= i < |[it] + items| ==> InItem(([it] + items)[i], ws[i]);
    }
  }

  ghost predicate Run(c: char, text: string, j: nat) {
    j <= |text| && forall x :: 0 <= x < j ==> CharMatches(c, text[x])
  }

  /** matchstar tries exactly the runs of c at the front of the text. */
  lemma {:induction false} StarTriesRuns(c: char, re: string, text: string)
    ensures MatchStar(c, re, text) <==> exists j: nat :: Run(c, text, j) && MatchHere(re, text[j..])
    decreases |text|
  {
    if MatchHere(re, text) {
      assert text[0..] == text;
      assert Run(c, text, 0);
    } else {
      if text != "" && CharMatches(c, text[0]) {
        var t := text[1..];
        StarTriesRuns(c, re, t);
        if MatchStar(c, re, t) {
          var j: nat :| Run(c, t, j) && MatchHere(re, t[j..]);
          assert text[j + 1..] == t[j..];
          assert Run(c, text, j + 1);
        }
      }
      if j: nat :| Run(c, text, j) && MatchHere(re, text[j..]) {
        assert text[0..] == text;
        assert CharMatches(c, text[0]);
        assert text[1..][j - 1..] == text[j..];
        assert Run(c, text[1..], j - 1);
      }
    }
  }

  /** matchhere is sound and complete: it accepts exactly when a prefix of the text (all of it, for
      a pattern ending in '$') is in the language of the pattern. */
  lemma {:induction false} MatchHereCorrect(re: string, text: string)
    ensures MatchHere(re, text) <==> PrefixIn(re, text)
    decreases |re|
  {
    if re == "" {
      InLangNil("");
      assert text[..0] == "";
      assert InLang(Items(re), text[..0]);
    } else if |re| >= 2 && re[1] == '*' {
      StarTriesRuns(re[0], re[2..], text);
      forall j: nat | j <= |text|
        ensures MatchHere(re[2..], text[j..]) <==> PrefixIn(re[2..], text[j..])
      {
        MatchHereCorrect(re[2..], text[j..]);
      }
      StarPrefix(re, text);
    } else if re == "$" {
      InLangNil(text);
      assert text[..|text|] == text;
    } else {
      if text != "" {
        MatchHereCorrect(re[1..], text[1..]);
      }
      OnePrefix(re, text);
    }
  }

  lemma TakeDrop(s: string, j: nat, k: nat)
    requires j <= k <= |s|
    ensures s[..k][j..] == s[j..][..k - j]
  {
    var a, b := s[..k][j..], s[j..][..k - j];
    assert |a| == |b| && forall i :: 0 <= i < |a| ==> a[i] == b[i];
  }

  lemma StarPrefix(re: string, text: string)
    requires |re| >= 2 && re[1] == '*'
    ensures PrefixIn(re, text) <==> exists j: nat :: Run(re[0], text, j) && PrefixIn(re[2..], text[j..])
  {
    hide PrefixIn;
    if PrefixIn(re, text) {
      var j := StarSplits(re, text);
    }
    if j: nat :| Run(re[0], text, j) && PrefixIn(re[2..], text[j..]) {
      StarJoins(re, text, j);
    }
  }

  lemma StarSplits(re: string, text: string) returns (j: nat)
    requires |re| >= 2 && re[1] == '*' && PrefixIn(re, text)
    ensures Run(re[0], text, j) && PrefixIn(re[2..], text[j..])
  {
    hide InLang;
    var it, items := Star(re[0]), Items(re[2..]);
    var k :| 0 <= k <= |text| && InLang(Items(re), text[..k]) && (Anchored(re) ==> k == |text|);
    InLangCons(it, items, text[..k]);
    j :| 0 <= j <= k && InItem(it, text[..k][..j]) && InLang(items, text[..k][j..]);
    TakeDrop(text, j, k);
    assert forall x :: 0 <= x < j ==> text[x] == text[..k][..j][x];
  }

  lemma StarJoins(re: string, text: string, j: nat)
    requires |re| >= 2 && re[1] == '*' && Run(re[0], text, j) && PrefixIn(re[2..], text[j..])
    ensures PrefixIn(re, text)
  {
    hide InLang;
    var it, items := Star(re[0]), Items(re[2..]);
    var m :| 0 <= m <= |text[j..]| && InLang(items, text[j..][..m]) && (Anchored(re[2..]) ==> m == |text[j..]|);
    var k := j + m;
    TakeDrop(text, j, k);
    assert InItem(it, text[..k][..j]);
    InLangCons(it, items, text[..k]);
    assert InLang(Items(re), text[..k]);
  }

  lemma OnePrefix(re: string, text: string)
    requires re != "" && re != "$" && !(|re| >= 2 && re[1] == '*')
    ensures PrefixIn(re, text) <==> text != "" && CharMatches(re[0], text[0]) && PrefixIn(re[1..], text[1..])
  {
    hide PrefixIn;
    if PrefixIn(re, text) {
      OneSplits(re, text);
    }
    if text != "" && CharMatches(re[0], text[0]) && PrefixIn(re[1..], text[1..]) {
      OneJoins(re, text);
    }
  }

  lemma OneSplits(re: string, text: string)
    requires re != "" && re != "$" && !(|re| >= 2 && re[1] == '*') && PrefixIn(re, text)
    ensures text != "" && CharMatches(re[0], text[0]) && PrefixIn(re[1..], text[1..])
  {
    hide InLang;
    var it, items := One(re[0]), Items(re[1..]);
    var k :| 0 <= k <= |text| && InLang(Items(re), text[..k]) && (Anchored(re) ==> k == |text|);
    InLangCons(it, items, text[..k]);
    var j :| 0 <= j <= k && InItem(it, text[..k][..j]) && InLang(items, text[..k][j..]);
    assert j == 1;
    TakeDrop(text, 1, k);
  }

  lemma OneJoins(re: string, text: string)
    requires re != "" && re != "$" && !(|re| >= 2 && re[1] == '*')
    requires text != "" && CharMatches(re[0], text[0]) && PrefixIn(re[1..], text[1..])
    ensures PrefixIn(re, text)
  {
    hide InLang;
    var it, items := One(re[0]), Items(re[1..]);
    var m :| 0 <= m <= |text[1..]| && InLang(items, text[1..][..m]) && (Anchored(re[1..]) ==> m == |text[1..]|);
    var k := 1 + m;
    TakeDrop(text, 1, k);
    assert InItem(it, text[..k][..1]);
    InLangCons(it, items, text[..k]);
    assert InLang(Items(re), text[..k]);
  }

  /** The substring matched without '^': from i, and to the end if the pattern ends in '$'. */
  ghost predicate Occurs(re: string, text: string) {
    exists i :: 0 <= i <= |text| && PrefixIn(re, text[i..])
  }

  lemma {:induction false} AnywhereCorrect(re: string, text: string)
    ensures MatchAnywhere(re, text) <==> Occurs(re, text)
    decreases |text|
  {
    MatchHereCorrect(re, text);
    assert text[0..] == text;
    if text != "" {
      AnywhereCorrect(re, text[1..]);
      forall i | 0 <= i <= |text[1..]|
        ensures text[1..][i..] == text[i + 1..]
      {
      }
      if Occurs(re, text[1..]) {
        var i :| 0 <= i <= |text[1..]| && PrefixIn(re, text[1..][i..]);
        assert PrefixIn(re, text[i + 1..]);
      }
      if i :| 0 <= i <= |text| && PrefixIn(re, text[i..]) {
        assert i > 0 ==> PrefixIn(re, text[1..][i - 1..]);
      }
    }
  }

  /** grep's matcher accepts a line exactly when some substring of it (a prefix, for a leading '^';
      reaching the end, for a final '$') is in the language of the pattern. */
  lemma MatchCorrect(re: string, text: string)
    ensures Match(re, text) <==>
            if re != "" && re[0] == '^' then PrefixIn(re[1..], text) else Occurs(re, text)
  {
    if re != "" && re[0] == '^' {
      MatchHereCorrect(re[1..], text);
    } else {
      AnywhereCorrect(re, text);
    }
  }
}
