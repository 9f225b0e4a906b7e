/** The shell's grammar, stated without the parser: how a line falls into tokens and which command trees a sequence of
    tokens stands for. The parser accepts exactly the lines that the grammar derives, with the tree it derives. */
module Grammar {
  import opened Shell

  // ---- tokens ----

  /** A token of the line from q up to eq: 'a' is a word, '+' is >>, other operators are themselves. */
  datatype Lex = Lex(kind: char, q: nat, eq: nat) {
    function Word(): Span { Span(q, eq) }
  }

  predicate White(c: char) { c in " \t\r\n\U{B}" }

  predicate Plain(c: char) { !White(c) && c !in "<|>&;()" && c != '\0' }

  predicate Blank(s: string, i: nat, j: nat) {
    i <= j <= |s| && forall k :: i <= k < j ==> White(s[k])
  }

  /** A word is a maximal run of plain characters; two adjacent > are one operator. */
  predicate IsLex(s: string, t: Lex) {
    && t.q < t.eq <= |s|
    && (if t.kind == 'a' then
          (forall k :: t.q <= k < t.eq ==> Plain(s[k])) && (t.eq < |s| ==> !Plain(s[t.eq]))
        else if t.kind == '+' then t.eq == t.q + 2 && s[t.q] == '>' && s[t.q + 1] == '>'
        else if t.kind == '>' then t.eq == t.q + 1 && s[t.q] == '>' && (t.eq < |s| ==> s[t.eq] != '>')
        else t.kind in "<|&;()" && t.eq == t.q + 1 && s[t.q] == t.kind)
  }

  /** The text from i up to j is the tokens `ts`, with white space before, between and after them. */
  predicate Scans(s: string, i: nat, ts: seq<Lex>, j: nat)
    decreases |ts|
  {
    if ts == [] then Blank(s, i, j)
    else IsLex(s, ts[0]) && Blank(s, i, ts[0].q) && Scans(s, ts[0].eq, ts[1..], j)
  }

  // ---- commands ----

  predicate IsArrow(c: char) { c == '<' || c == '>' || c == '+' }

  /** < is input; > and >> are output. */
  function Arrow(t: Lex, file: Lex): Redirect<Span> {
    Redirect(if t.kind == '<' then In else Out, file.Word())
  }

  /** Words in their order, with redirections, each an arrow and a word, among them in their order. */
  predicate Simple(ts: seq<Lex>, argv: seq<Span>, rs: seq<Redirect<Span>>)
    decreases |ts|
  {
    if ts == [] then argv == [] && rs == []
    else if ts[0].kind == 'a' then argv != [] && argv[0] == ts[0].Word() && Simple(ts[1..], argv[1..], rs)
    else
      && IsArrow(ts[0].kind) && |ts| >= 2 && ts[1].kind == 'a'
      && rs != [] && rs[0] == Arrow(ts[0], ts[1]) && Simple(ts[2..], argv, rs[1..])
  }

  /** c is c0 inside the redirections, the last one outermost. */
  predicate Nested(c0: Cmd<Span>, rs: seq<Redirect<Span>>, c: Cmd<Span>)
    decreases |rs|
  {
    if rs == [] then c == c0
    else
      var last := rs[|rs| - 1];
      c.Redir? && c.mode == last.mode && c.file == last.file && Nested(c0, rs[..|rs| - 1], c.cmd)
  }

  predicate IsSimple(ts: seq<Lex>, argv: seq<Span>, rs: seq<Redirect<Span>>, c: Cmd<Span>) {
    |argv| < 10 && Simple(ts, argv, rs) && Nested(Exec(argv), rs, c)
  }

  /** A line in parentheses that close at k, and redirections after them. */
  ghost predicate IsBlock(ts: seq<Lex>, k: nat, c0: Cmd<Span>, rs: seq<Redirect<Span>>, c: Cmd<Span>)
    decreases |ts|, 0
  {
    && 0 < k < |ts| && ts[0].kind == '(' && ts[k].kind == ')'
    && IsLine(ts[1..k], c0) && Simple(ts[k + 1..], [], rs) && Nested(c0, rs, c)
  }

  ghost predicate IsExec(ts: seq<Lex>, c: Cmd<Span>)
    decreases |ts|, 1
  {
    (exists argv, rs :: IsSimple(ts, argv, rs, c)) || (exists k: nat, c0, rs :: IsBlock(ts, k, c0, rs, c))
  }

  /** Pipes associate to the right. */
  ghost predicate IsPipe(ts: seq<Lex>, c: Cmd<Span>)
    decreases |ts|, 2
  {
    IsExec(ts, c) || (c.Pipe? && exists k: nat :: PipeAt(ts, k, c.left, c.right))
  }

  ghost predicate PipeAt(ts: seq<Lex>, k: nat, l: Cmd<Span>, r: Cmd<Span>)
    decreases |ts|, 1
  {
    k < |ts| && ts[k].kind == '|' && IsExec(ts[..k], l) && IsPipe(ts[k + 1..], r)
  }

  /** A pipeline with any number of & after it. */
  ghost predicate IsBacks(ts: seq<Lex>, c: Cmd<Span>)
    decreases |ts|, 3
  {
    IsPipe(ts, c) || (c.Back? && ts != [] && ts[|ts| - 1].kind == '&' && IsBacks(ts[..|ts| - 1], c.cmd))
  }

  /** Such pipelines separated by ;, associating to the right. */
  ghost predicate IsLine(ts: seq<Lex>, c: Cmd<Span>)
    decreases |ts|, 4
  {
    IsBacks(ts, c) || (c.List? && exists k: nat :: ListAt(ts, k, c.left, c.right))
  }

  ghost predicate ListAt(ts: seq<Lex>, k: nat, l: Cmd<Span>, r: Cmd<Span>)
    decreases |ts|, 3
  {
    k < |ts| && ts[k].kind == ';' && IsBacks(ts[..k], l) && IsLine(ts[k + 1..], r)
  }

  // ---- scanning ----

  lemma Classes(c: char)
    ensures White(c) <==> IsWhite(c)
    ensures Plain(c) <==> IsPlain(c)
    ensures IsSymbol(c) <==> c in "<|>&;()"
  {
  }

  lemma BlankSkip(s: string, i: nat)
    requires i <= |s|
    ensures Blank(s, i, SkipWhite(s, i))
  {
    forall k | i <= k < SkipWhite(s, i)
      ensures White(s[k])
    {
      Classes(s[k]);
    }
  }

  /** White space up to a character that is not leaves the cursor there. */
  lemma SkipTo(s: string, i: nat, j: nat)
    requires Blank(s, i, j) && (j < |s| ==> !IsWhite(s[j]))
    ensures SkipWhite(s, i) == j
  {
    var m := SkipWhite(s, i);
    if m < j {
      Classes(s[m]);
    }
  }

  lemma {:induction false} ScansJoin(s: string, i: nat, ts: seq<Lex>, j: nat, us: seq<Lex>, k: nat)
    requires Scans(s, i, ts, j) && Scans(s, j, us, k)
    ensures Scans(s, i, ts + us, k)
    decreases |ts|
  {
    if ts == [] {
      assert ts + us == us;
    } else {
      ScansJoin(s, ts[0].eq, ts[1..], j, us, k);
      assert (ts + us)[1..] == ts[1..] + us;
    }
  }

  lemma {:induction false} ScansSplit(s: string, i: nat, ts: seq<Lex>, j: nat, k: nat)
    requires Scans(s, i, ts, j) && k < |ts|
    ensures IsLex(s, ts[k]) && Scans(s, i, ts[..k], ts[k].q) && Scans(s, ts[k].eq, ts[k + 1..], j)
    decreases k
  {
    if k > 0 {
      ScansSplit(s, ts[0].eq, ts[1..], j, k - 1);
      assert ts[1..][..k - 1] == ts[..k][1..] && ts[1..][k..] == ts[k + 1..];
    }
  }

  lemma {:induction false} ScansIn(s: string, i: nat, ts: seq<Lex>, j: nat)
    requires Scans(s, i, ts, j)
    ensures i <= j <= |s|
    decreases |ts|
  {
    if ts != [] {
      ScansIn(s, ts[0].eq, ts[1..], j);
    }
  }

  /** gettoken() yields a token of the line. */
  lemma TokenIsLex(s: string, i: nat)
    requires CString(s) && i <= |s| && TokenAt(s, i).kind != NUL
    ensures var t := TokenAt(s, i);
            IsLex(s, Lex(t.kind, t.q, t.eq)) && Blank(s, i, t.q) && Blank(s, t.eq, t.next)
  {
    var t := TokenAt(s, i);
    BlankSkip(s, i);
    BlankSkip(s, t.eq);
    assert s[t.q] in s;
    Classes(s[t.q]);
    forall k | t.q <= k < t.eq && t.kind == 'a'
      ensures Plain(s[k])
    {
      assert s[k] in s;
      Classes(s[k]);
    }
    if t.eq < |s| {
      Classes(s[t.eq]);
    }
  }

  /** ... and a token at hand is the one gettoken() yields. */
  lemma LexIsToken(s: string, i: nat, t: Lex)
    requires CString(s) && i <= |s| && IsLex(s, t) && Blank(s, i, t.q)
    ensures TokenAt(s, i) == Token(t.kind, t.q, t.eq, SkipWhite(s, t.eq)) && SkipWhite(s, i) == t.q
  {
    Classes(s[t.q]);
    assert s[t.q] in s;
    SkipTo(s, i, t.q);
    if t.kind == 'a' {
      var e := WordEnd(s, t.q);
      if e < t.eq {
        Classes(s[e]);
      }
      if t.eq < |s| {
        assert s[t.eq] in s;
        Classes(s[t.eq]);
      }
    }
  }

  // ---- what the parser accepts is derived ----

  lemma ScansOne(s: string, i: nat, p: nat)
    requires CString(s) && i <= |s| && p == SkipWhite(s, i) && TokenAt(s, p).kind != NUL
    ensures var t := TokenAt(s, p); Scans(s, i, [Lex(t.kind, t.q, t.eq)], t.next)
  {
    var t := TokenAt(s, p);
    BlankSkip(s, i);
    TokenIsLex(s, p);
    SkipTo(s, p, p);
    assert t.q == p;
    assert [Lex(t.kind, t.q, t.eq)][1..] == [];
  }

  lemma SimpleHead(ts: seq<Lex>, argv: seq<Span>, rs: seq<Redirect<Span>>)
    requires Simple(ts, argv, rs)
    ensures if ts == [] then argv == [] && rs == []
            else if ts[0].kind == 'a' then argv != [] && argv[0] == ts[0].Word() && Simple(ts[1..], argv[1..], rs)
            else
              && IsArrow(ts[0].kind) && |ts| >= 2 && ts[1].kind == 'a'
              && rs != [] && rs[0] == Arrow(ts[0], ts[1]) && Simple(ts[2..], argv, rs[1..])
  {
  }

  lemma {:induction false} SimpleJoin(ts: seq<Lex>, argv: seq<Span>, rs: seq<Redirect<Span>>,
                                      us: seq<Lex>, more: seq<Span>, ms: seq<Redirect<Span>>)
    requires Simple(ts, argv, rs) && Simple(us, more, ms)
    ensures Simple(ts + us, argv + more, rs + ms)
    decreases |ts|
  {
    hide Simple;
    SimpleHead(ts, argv, rs);
    if ts == [] {
      assert ts + us == us && argv + more == more && rs + ms == ms;
    } else if ts[0].kind == 'a' {
      SimpleJoin(ts[1..], argv[1..], rs, us, more, ms);
      SimpleWord(ts[0], ts[1..] + us, argv[1..] + more, rs + ms);
      assert [ts[0]] + (ts[1..] + us) == ts + us && [ts[0].Word()] + (argv[1..] + more) == argv + more;
    } else {
      SimpleJoin(ts[2..], argv, rs[1..], us, more, ms);
      SimpleRedir(ts[0], ts[1], ts[2..] + us, argv + more, rs[1..] + ms);
      assert [ts[0], ts[1]] + (ts[2..] + us) == ts + us && [rs[0]] + (rs[1..] + ms) == rs + ms;
    }
  }

  lemma {:induction false} WrapNested(c: Cmd<Span>, rs: seq<Redirect<Span>>)
    ensures Nested(c, rs, Wrap(c, rs))
    decreases |rs|
  {
    if rs != [] {
      WrapNested(c, rs[..|rs| - 1]);
    }
  }

  lemma {:induction false} NestedIsWrap(c0: Cmd<Span>, rs: seq<Redirect<Span>>, c: Cmd<Span>)
    requires Nested(c0, rs, c)
    ensures c == Wrap(c0, rs)
    decreases |rs|
  {
    if rs != [] {
      NestedIsWrap(c0, rs[..|rs| - 1], c.cmd);
    }
  }

  lemma SimpleRedir(a: Lex, b: Lex, ts: seq<Lex>, argv: seq<Span>, rs: seq<Redirect<Span>>)
    requires IsArrow(a.kind) && b.kind == 'a' && Simple(ts, argv, rs)
    ensures Simple([a, b] + ts, argv, [Arrow(a, b)] + rs)
  {
    assert ([a, b] + ts)[2..] == ts && ([Arrow(a, b)] + rs)[1..] == rs;
  }

  lemma SimpleWord(a: Lex, ts: seq<Lex>, argv: seq<Span>, rs: seq<Redirect<Span>>)
    requires a.kind == 'a' && Simple(ts, argv, rs)
    ensures Simple([a] + ts, [a.Word()] + argv, rs)
  {
    assert ([a] + ts)[1..] == ts && ([a.Word()] + argv)[1..] == argv;
  }

  /** An arrow at p and the file after it. */
  lemma ScansRedir(s: string, i: nat, p: nat) returns (a: Lex, b: Lex)
    requires CString(s) && i <= |s| && p == SkipWhite(s, i) && (At(s, p) == '<' || At(s, p) == '>')
    requires TokenAt(s, TokenAt(s, p).next).kind == 'a'
    ensures var tok := TokenAt(s, p); var f := TokenAt(s, tok.next);
            && a == Lex(tok.kind, tok.q, tok.eq) && b == Lex('a', f.q, f.eq) && IsArrow(a.kind)
            && Scans(s, i, [a, b], f.next) && i < f.next
  {
    hide Scans;
    SkipWhiteStays(s, p);
    var tok := TokenAt(s, p);
    var f := TokenAt(s, tok.next);
    a, b := Lex(tok.kind, tok.q, tok.eq), Lex(f.kind, f.q, f.eq);
    ScansOne(s, i, p);
    SkipWhiteStays(s, tok.next);
    ScansOne(s, tok.next, tok.next);
    ScansJoin(s, i, [a], tok.next, [b], f.next);
    assert [a] + [b] == [a, b];
  }

  lemma {:induction false} RedirsDerive(s: string, rs: seq<Redirect<Span>>, i: nat)
    returns (ts: seq<Lex>, more: seq<Redirect<Span>>)
    requires CString(s) && i <= |s| && ParseRedirs(s, rs, i).Ok?
    ensures ParseRedirs(s, rs, i).value == rs + more
    ensures Scans(s, i, ts, ParseRedirs(s, rs, i).next) && Simple(ts, [], more)
    decreases |s| - i
  {
    hide Scans, Simple, TokenAt, SkipWhite, CString, ParseRedirs, IsLex, IsArrow;
    var p := SkipWhite(s, i);
    RedirsMeans(s, rs, i);
    if At(s, p) == '<' || At(s, p) == '>' {
      var f := TokenAt(s, TokenAt(s, p).next);
      var a, b := ScansRedir(s, i, p);
      var us, ms := RedirsDerive(s, rs + [Arrow(a, b)], f.next);
      ScansJoin(s, i, [a, b], f.next, us, ParseRedirs(s, rs, i).next);
      SimpleRedir(a, b, us, [], ms);
      ts, more := [a, b] + us, [Arrow(a, b)] + ms;
      assert rs + [Arrow(a, b)] + ms == rs + more;
    } else {
      NoTokens(s, i);
      ts, more := [], [];
    }
  }

  lemma NoTokens(s: string, i: nat)
    requires i <= |s|
    ensures Scans(s, i, [], SkipWhite(s, i)) && Simple([], [], [])
  {
    BlankSkip(s, i);
  }

  /** One turn of parseredirs(). */
  lemma RedirsMeans(s: string, rs: seq<Redirect<Span>>, i: nat)
    requires CString(s) && i <= |s| && ParseRedirs(s, rs, i).Ok?
    ensures var p := SkipWhite(s, i);
            if At(s, p) == '<' || At(s, p) == '>' then
              var tok := TokenAt(s, p);
              var f := TokenAt(s, tok.next);
              f.kind == 'a' && ParseRedirs(s, rs, i)
              == ParseRedirs(s, rs + [Arrow(Lex(tok.kind, tok.q, tok.eq), Lex('a', f.q, f.eq))], f.next)
            else ParseRedirs(s, rs, i) == Ok(rs, p)
  {
  }

  /** One turn of parseexec()'s loop. */
  lemma ArgsMeans(s: string, argv: seq<Span>, rs: seq<Redirect<Span>>, i: nat)
    requires CString(s) && i <= |s| && ParseArgs(s, argv, rs, i).Ok?
    ensures var p := SkipWhite(s, i);
            var t := TokenAt(s, p);
            if EndsArgs(At(s, p)) || t.kind == NUL then ParseArgs(s, argv, rs, i) == Ok(Wrap(Exec(argv), rs), p)
            else
              var r := ParseRedirs(s, rs, t.next);
              && i < t.next && t.kind == 'a' && |argv| + 1 < MAXARGS && r.Ok?
              && ParseArgs(s, argv, rs, i) == ParseArgs(s, argv + [Span(t.q, t.eq)], r.value, r.next)
  {
    hide ParseRedirs, Wrap;
    var p := SkipWhite(s, i);
    if TokenAt(s, p).kind == NUL {
      EndOfLine(s, i);
    }
  }

  lemma {:induction false} ArgsDerive(s: string, argv: seq<Span>, rs: seq<Redirect<Span>>, i: nat)
    returns (ts: seq<Lex>, more: seq<Span>, ms: seq<Redirect<Span>>)
    requires CString(s) && i <= |s| && ParseArgs(s, argv, rs, i).Ok? && |argv| < MAXARGS
    ensures ParseArgs(s, argv, rs, i).value == Wrap(Exec(argv + more), rs + ms) && |argv + more| < MAXARGS
    ensures Scans(s, i, ts, ParseArgs(s, argv, rs, i).next) && Simple(ts, more, ms)
    decreases |s| - i
  {
    hide Scans, Simple, TokenAt, SkipWhite, CString, ParseRedirs, ParseArgs, Wrap, EndsArgs, IsLex;
    var p := SkipWhite(s, i);
    var t := TokenAt(s, p);
    ArgsMeans(s, argv, rs, i);
    if EndsArgs(At(s, p)) || t.kind == NUL {
      NoTokens(s, i);
      ts, more, ms := [], [], [];
      assert argv + [] == argv && rs + [] == rs;
    } else {
      var a := Lex(t.kind, t.q, t.eq);
      var r := ParseRedirs(s, rs, t.next);
      var ts1, ms1 := RedirsDerive(s, rs, t.next);
      var ts2, more2, ms2 := ArgsDerive(s, argv + [a.Word()], r.value, r.next);
      ScansOne(s, i, p);
      ScansJoin(s, t.next, ts1, r.next, ts2, ParseArgs(s, argv, rs, i).next);
      ScansJoin(s, i, [a], t.next, ts1 + ts2, ParseArgs(s, argv, rs, i).next);
      ts, more, ms := [a] + (ts1 + ts2), [a.Word()] + more2, ms1 + ms2;
      SimpleJoin(ts1, [], ms1, ts2, more2, ms2);
      assert [] + more2 == more2;
      SimpleWord(a, ts1 + ts2, more2, ms);
      assert argv + [a.Word()] + more2 == argv + more && rs + ms1 + ms2 == rs + ms;
    }
  }

  lemma TokenAhead(s: string, i: nat)
    requires CString(s) && i <= |s| && TokenAt(s, SkipWhite(s, i)).kind != NUL
    ensures i < TokenAt(s, SkipWhite(s, i)).next
  {
  }

  lemma EndOfLine(s: string, i: nat)
    requires CString(s) && i <= |s| && TokenAt(s, SkipWhite(s, i)).kind == NUL
    ensures TokenAt(s, SkipWhite(s, i)).next == SkipWhite(s, i) == |s|
  {
    var p := SkipWhite(s, i);
    SkipTo(s, p, p);
  }

  lemma {:induction false} ExecDerives(s: string, i: nat) returns (ts: seq<Lex>)
    requires CString(s) && i <= |s| && ParseExec(s, i).Ok?
    ensures Scans(s, i, ts, ParseExec(s, i).next) && IsExec(ts, ParseExec(s, i).value)
    decreases |s| - i, 1
  {
    var p := SkipWhite(s, i);
    if At(s, p) == '(' {
      hide IsExec;
      ts := BlockDerives(s, i, p);
    } else {
      ts := SimpleDerives(s, i, p);
    }
  }

  lemma ExecMeans(s: string, i: nat)
    requires CString(s) && i <= |s| && ParseExec(s, i).Ok? && At(s, SkipWhite(s, i)) != '('
    ensures var r := ParseRedirs(s, [], SkipWhite(s, i));
            r.Ok? && ParseExec(s, i) == ParseArgs(s, [], r.value, r.next)
  {
  }

  lemma SimpleDerives(s: string, i: nat, p: nat) returns (ts: seq<Lex>)
    requires CString(s) && i <= |s| && p == SkipWhite(s, i) && At(s, p) != '(' && ParseExec(s, i).Ok?
    ensures Scans(s, i, ts, ParseExec(s, i).next) && IsExec(ts, ParseExec(s, i).value)
  {
    hide Scans, Simple, TokenAt, SkipWhite, CString, ParseRedirs, Wrap, ParseExec, ParseArgs, Nested, IsLex, IsBlock;
    ExecMeans(s, i);
    NoTokens(s, i);
    var r := ParseRedirs(s, [], p);
    var n := ParseExec(s, i).next;
    var ts1, ms1 := RedirsDerive(s, [], p);
    var ts2, more, ms2 := ArgsDerive(s, [], r.value, r.next);
    ScansJoin(s, p, ts1, r.next, ts2, n);
    ScansJoin(s, i, [], p, ts1 + ts2, n);
    ts := ts1 + ts2;
    assert [] + ts == ts && [] + more == more && [] + ms1 + ms2 == ms1 + ms2;
    SimpleJoin(ts1, [], ms1, ts2, more, ms2);
    WrapNested(Exec(more), ms1 + ms2);
    assert IsSimple(ts, more, ms1 + ms2, ParseExec(s, i).value);
  }

  lemma {:induction false} BlockDerives(s: string, i: nat, p: nat) returns (ts: seq<Lex>)
    requires CString(s) && i <= |s| && p == SkipWhite(s, i) && At(s, p) == '(' && ParseBlock(s, p).Ok?
    ensures Scans(s, i, ts, ParseBlock(s, p).next) && IsExec(ts, ParseBlock(s, p).value)
    decreases |s| - i, 0
  {
    BlockMeans(s, p);
    var a := TokenAt(s, p);
    var r := ParseLine(s, a.next);
    var e := SkipWhite(s, r.next);
    var b := TokenAt(s, e);
    var n := ParseBlock(s, p).next;
    assert i < a.next by { TokenAhead(s, i); }
    hide Scans, Simple, TokenAt, SkipWhite, Shell.CString, ParseRedirs, Wrap, ParseBlock, ParseLine, Nested, IsLine;
    var us := LineDerives(s, a.next);
    var vs, rs := RedirsDerive(s, [], b.next);
    ScansOne(s, i, p);
    ScansOne(s, r.next, e);
    var open, close := Lex(a.kind, a.q, a.eq), Lex(b.kind, b.q, b.eq);
    ScansJoin(s, r.next, [close], b.next, vs, n);
    ScansJoin(s, a.next, us, r.next, [close] + vs, n);
    ScansJoin(s, i, [open], a.next, us + ([close] + vs), n);
    ts := [open] + (us + ([close] + vs));
    assert [] + rs == rs;
    WrapNested(r.value, rs);
    BlockIs(open, us, close, vs, r.value, rs, ParseBlock(s, p).value);
  }

  /** What a successful parseblock() has gone through. */
  lemma BlockMeans(s: string, p: nat)
    requires CString(s) && p <= |s| && At(s, p) == '(' && ParseBlock(s, p).Ok?
    ensures var a := TokenAt(s, p);
            var r := ParseLine(s, a.next);
            && SkipWhite(s, p) == p && a.kind == '(' && r.Ok?
            && var b := TokenAt(s, SkipWhite(s, r.next));
               var rs := ParseRedirs(s, [], b.next);
               b.kind == ')' && rs.Ok? && ParseBlock(s, p) == Ok(Wrap(r.value, rs.value), rs.next)
  {
    hide ParseLine, ParseRedirs;
    SkipWhiteStays(s, p);
    SkipWhiteStays(s, SkipWhite(s, ParseLine(s, TokenAt(s, p).next).next));
  }

  lemma BlockIs(open: Lex, us: seq<Lex>, close: Lex, vs: seq<Lex>, c0: Cmd<Span>, rs: seq<Redirect<Span>>, c: Cmd<Span>)
    requires open.kind == '(' && close.kind == ')' && IsLine(us, c0) && Simple(vs, [], rs) && Nested(c0, rs, c)
    ensures IsExec([open] + (us + ([close] + vs)), c)
  {
    hide IsLine, Simple, Nested;
    var ts, k := [open] + (us + ([close] + vs)), |us| + 1;
    assert ts[k] == close && ts[1..k] == us && ts[k + 1..] == vs;
    assert IsBlock(ts, k, c0, rs, c);
  }

  lemma {:induction false} PipeDerives(s: string, i: nat) returns (ts: seq<Lex>)
    requires CString(s) && i <= |s| && ParsePipe(s, i).Ok?
    ensures Scans(s, i, ts, ParsePipe(s, i).next) && IsPipe(ts, ParsePipe(s, i).value)
    decreases |s| - i, 2
  {
    var us := ExecDerives(s, i);
    var l := ParseExec(s, i);
    var p := SkipWhite(s, l.next);
    if At(s, p) == '|' {
      SkipWhiteStays(s, p);
      var t := TokenAt(s, p);
      var vs := PipeDerives(s, t.next);
      ts := Chain(s, i, us, l.next, p, vs, ParsePipe(s, i).next);
      assert PipeAt(ts, |us|, l.value, ParsePipe(s, t.next).value);
    } else {
      BlankSkip(s, l.next);
      ScansJoin(s, i, us, l.next, [], p);
      assert us + [] == us;
      ts := us;
    }
  }

  /** Tokens, the operator at p, and more tokens. */
  lemma Chain(s: string, i: nat, us: seq<Lex>, j: nat, p: nat, vs: seq<Lex>, n: nat) returns (ts: seq<Lex>)
    requires CString(s) && j <= |s| && p == SkipWhite(s, j) && TokenAt(s, p).kind != NUL
    requires Scans(s, i, us, j) && Scans(s, TokenAt(s, p).next, vs, n)
    ensures Scans(s, i, ts, n) && |ts| == |us| + 1 + |vs|
    ensures ts[|us|].kind == TokenAt(s, p).kind && ts[..|us|] == us && ts[|us| + 1..] == vs
  {
    var t := TokenAt(s, p);
    var a := Lex(t.kind, t.q, t.eq);
    ScansOne(s, j, p);
    ScansJoin(s, j, [a], t.next, vs, n);
    ScansJoin(s, i, us, j, [a] + vs, n);
    ts := us + ([a] + vs);
  }

  lemma {:induction false} BacksDerive(s: string, i: nat, us: seq<Lex>, c: Cmd<Span>, j: nat) returns (ts: seq<Lex>)
    requires CString(s) && j <= |s| && Scans(s, i, us, j) && IsBacks(us, c)
    ensures Scans(s, i, ts, ParseBacks(s, c, j).next) && IsBacks(ts, ParseBacks(s, c, j).value)
    decreases |s| - j
  {
    var p := SkipWhite(s, j);
    if At(s, p) == '&' {
      SkipWhiteStays(s, p);
      var t := TokenAt(s, p);
      var vs := Chain(s, i, us, j, p, [], t.next);
      assert vs[..|vs| - 1] == us;
      ts := BacksDerive(s, i, vs, Back(c), t.next);
    } else {
      BlankSkip(s, j);
      ScansJoin(s, i, us, j, [], p);
      assert us + [] == us;
      ts := us;
    }
  }

  lemma {:induction false} LineDerives(s: string, i: nat) returns (ts: seq<Lex>)
    requires CString(s) && i <= |s| && ParseLine(s, i).Ok?
    ensures Scans(s, i, ts, ParseLine(s, i).next) && IsLine(ts, ParseLine(s, i).value)
    decreases |s| - i, 3
  {
    hide Scans, TokenAt, SkipWhite, CString, ParsePipe, ParseBacks, IsPipe, IsBacks, IsLex;
    var us := PipeDerives(s, i);
    var l := ParsePipe(s, i);
    assert IsBacks(us, l.value) by { PipeIsBacks(us, l.value); }
    var b := ParseBacks(s, l.value, l.next);
    var vs := BacksDerive(s, i, us, l.value, l.next);
    var p := SkipWhite(s, b.next);
    if At(s, p) == ';' {
      SkipWhiteStays(s, p);
      var t := TokenAt(s, p);
      OperatorAt(s, b.next, p);
      var ws := LineDerives(s, t.next);
      ts := Chain(s, i, vs, b.next, p, ws, ParseLine(s, i).next);
      assert ListAt(ts, |vs|, b.value, ParseLine(s, t.next).value);
    } else {
      NoTokens(s, b.next);
      ScansJoin(s, i, vs, b.next, [], p);
      assert vs + [] == vs;
      ts := vs;
    }
  }

  lemma PipeIsBacks(ts: seq<Lex>, c: Cmd<Span>)
    requires IsPipe(ts, c)
    ensures IsBacks(ts, c)
  {
  }

  /** An operator of one character is a token of its own. */
  lemma OperatorAt(s: string, j: nat, p: nat)
    requires CString(s) && j <= |s| && p == SkipWhite(s, j) && At(s, p) in "<|&;()"
    ensures TokenAt(s, p).kind == At(s, p) && j < TokenAt(s, p).next
  {
    SkipWhiteStays(s, p);
  }

  // ---- what is derived, the parser accepts ----

  predicate AtRest(s: string, j: nat) {
    j <= |s| && !IsWhite(At(s, j))
  }

  /** Where the cursor goes over white space: to the next token. */
  lemma Advance(s: string, i: nat, ts: seq<Lex>, j: nat)
    requires CString(s) && i <= |s| && Scans(s, i, ts, j) && AtRest(s, j)
    ensures SkipWhite(s, i) == (if ts == [] then j else ts[0].q) && Scans(s, SkipWhite(s, i), ts, j)
    ensures ts != [] ==> AtRest(s, ts[0].q)
  {
    if ts == [] {
      SkipTo(s, i, j);
    } else {
      LexIsToken(s, i, ts[0]);
      Classes(s[ts[0].q]);
    }
  }

  /** The next token, and the cursor behind it. */
  lemma NextToken(s: string, i: nat, ts: seq<Lex>, j: nat)
    requires CString(s) && i <= |s| && Scans(s, i, ts, j) && AtRest(s, j) && ts != []
    ensures var t, p := ts[0], SkipWhite(s, i);
            && p == t.q < |s| && TokenAt(s, p) == Token(t.kind, t.q, t.eq, SkipWhite(s, t.eq))
            && i < SkipWhite(s, t.eq) && Scans(s, SkipWhite(s, t.eq), ts[1..], j)
            && (if t.kind == 'a' then IsPlain(s[p]) else s[p] == if t.kind == '+' then '>' else t.kind)
  {
    var t := ts[0];
    Advance(s, i, ts, j);
    LexIsToken(s, t.q, t);
    Advance(s, t.eq, ts[1..], j);
    Classes(s[t.q]);
  }

  lemma SkipTwice(s: string, i: nat)
    requires i <= |s|
    ensures SkipWhite(s, SkipWhite(s, i)) == SkipWhite(s, i)
  {
    SkipTo(s, SkipWhite(s, i), SkipWhite(s, i));
  }

  predicate Ends(c: char) { EndsArgs(c) || c == NUL }

  lemma RedirsStop(s: string, rs0: seq<Redirect<Span>>, i: nat, ts: seq<Lex>, j: nat)
    requires CString(s) && i <= |s| && Scans(s, i, ts, j) && AtRest(s, j) && Ends(At(s, j))
    requires ts != [] ==> ts[0].kind == 'a'
    ensures ParseRedirs(s, rs0, i) == Ok(rs0, SkipWhite(s, i)) && Scans(s, SkipWhite(s, i), ts, j)
    ensures SkipWhite(s, SkipWhite(s, i)) == SkipWhite(s, i)
  {
    hide Scans, TokenAt, SkipWhite, IsLex;
    Advance(s, i, ts, j);
    SkipTwice(s, i);
    if ts != [] {
      NextToken(s, i, ts, j);
    }
  }

  lemma RedirsTurn(s: string, rs0: seq<Redirect<Span>>, i: nat, ts: seq<Lex>, j: nat)
    requires CString(s) && i <= |s| && Scans(s, i, ts, j) && AtRest(s, j)
    requires |ts| >= 2 && IsArrow(ts[0].kind) && ts[1].kind == 'a'
    ensures ts[1].eq <= |s| && Scans(s, SkipWhite(s, ts[1].eq), ts[2..], j)
    ensures ParseRedirs(s, rs0, i) == ParseRedirs(s, rs0 + [Arrow(ts[0], ts[1])], SkipWhite(s, ts[1].eq))
  {
    hide Scans, TokenAt, SkipWhite;
    NextToken(s, i, ts, j);
    var m := SkipWhite(s, ts[0].eq);
    NextToken(s, m, ts[1..], j);
    SkipTwice(s, ts[0].eq);
    assert ts[1..][1..] == ts[2..];
  }

  lemma {:induction false} RedirsAccept(s: string, rs0: seq<Redirect<Span>>, i: nat, ts: seq<Lex>, j: nat,
                                        argv: seq<Span>, rs: seq<Redirect<Span>>)
    returns (us: seq<Lex>, lead: seq<Redirect<Span>>, ms: seq<Redirect<Span>>)
    requires CString(s) && i <= |s| && Scans(s, i, ts, j) && AtRest(s, j) && Ends(At(s, j)) && Simple(ts, argv, rs)
    ensures var r := ParseRedirs(s, rs0, i);
            r.Ok? && r.value == rs0 + lead && Scans(s, r.next, us, j) && r.next == SkipWhite(s, r.next)
    ensures rs == lead + ms && Simple(us, argv, ms) && (us != [] ==> us[0].kind == 'a') && |us| <= |ts|
    decreases |ts|
  {
    hide Scans, TokenAt, SkipWhite, CString, IsLex, ParseRedirs, AtRest, Ends;
    if ts == [] || ts[0].kind == 'a' {
      RedirsStop(s, rs0, i, ts, j);
      us, lead, ms := ts, [], rs;
      assert rs0 + [] == rs0 && [] + rs == rs;
    } else {
      RedirsTurn(s, rs0, i, ts, j);
      var a := Arrow(ts[0], ts[1]);
      us, lead, ms := RedirsAccept(s, rs0 + [a], SkipWhite(s, ts[1].eq), ts[2..], j, argv, rs[1..]);
      lead := [a] + lead;
      assert rs0 + [a] + lead[1..] == rs0 + lead;
    }
  }

  lemma {:induction false} ArgsAccept(s: string, argv0: seq<Span>, rs0: seq<Redirect<Span>>, i: nat, ts: seq<Lex>,
                                      j: nat, argv: seq<Span>, rs: seq<Redirect<Span>>)
    requires CString(s) && i <= |s| && Scans(s, i, ts, j) && AtRest(s, j) && Ends(At(s, j)) && Simple(ts, argv, rs)
    requires (ts != [] ==> ts[0].kind == 'a') && |argv0| + |argv| < MAXARGS
    ensures ParseArgs(s, argv0, rs0, i) == Ok(Wrap(Exec(argv0 + argv), rs0 + rs), j)
    decreases |ts|
  {
    hide Scans, TokenAt, SkipWhite, CString, IsLex, ParseRedirs, Wrap;
    if ts == [] {
      Advance(s, i, ts, j);
      assert argv0 + [] == argv0 && rs0 + [] == rs0;
      if !EndsArgs(At(s, j)) {
        LastToken(s, i, j);
      }
    } else {
      NextToken(s, i, ts, j);
      var t := ts[0];
      var m := SkipWhite(s, t.eq);
      var us, lead, ms := RedirsAccept(s, rs0, m, ts[1..], j, argv[1..], rs);
      var r := ParseRedirs(s, rs0, m);
      ArgsAccept(s, argv0 + [t.Word()], r.value, r.next, us, j, argv[1..], ms);
      assert argv0 + [t.Word()] + argv[1..] == argv0 + argv && rs0 + lead + ms == rs0 + rs;
      PlainGoesOn(s[t.q]);
    }
  }

  lemma PlainGoesOn(c: char)
    requires IsPlain(c)
    ensures !Ends(c) && c != '(' && c != '<' && c != '>'
  {
  }

  lemma LastToken(s: string, i: nat, j: nat)
    requires CString(s) && i <= |s| && SkipWhite(s, i) == j && At(s, j) == NUL && j <= |s|
    ensures TokenAt(s, j) == Token(NUL, j, j, j)
  {
    assert forall k :: 0 <= k < |s| ==> s[k] != NUL;
    SkipTwice(s, i);
  }

  lemma SimpleAccept(s: string, i: nat, ts: seq<Lex>, j: nat, argv: seq<Span>, rs: seq<Redirect<Span>>, c: Cmd<Span>)
    requires CString(s) && i <= |s| && Scans(s, i, ts, j) && AtRest(s, j) && Ends(At(s, j)) && IsSimple(ts, argv, rs, c)
    ensures ParseExec(s, i) == Ok(c, j)
  {
    hide Scans, TokenAt, SkipWhite, CString, IsLex, ParseRedirs, ParseArgs, Wrap, Nested;
    Advance(s, i, ts, j);
    var p := SkipWhite(s, i);
    if ts != [] {
      NextToken(s, i, ts, j);
    }
    var us, lead, ms := RedirsAccept(s, [], p, ts, j, argv, rs);
    var r := ParseRedirs(s, [], p);
    ArgsAccept(s, [], r.value, r.next, us, j, argv, ms);
    NestedIsWrap(Exec(argv), rs, c);
    assert [] + argv == argv && [] + lead + ms == rs;
  }

  lemma {:induction false} BlockAccept(s: string, i: nat, ts: seq<Lex>, j: nat, k: nat, c0: Cmd<Span>,
                                       rs: seq<Redirect<Span>>, c: Cmd<Span>)
    requires CString(s) && i <= |s| && Scans(s, i, ts, j) && AtRest(s, j) && Ends(At(s, j)) && IsBlock(ts, k, c0, rs, c)
    ensures ParseExec(s, i) == Ok(c, j)
    decreases |ts|, 0
  {
    hide Scans, TokenAt, SkipWhite, CString, IsLex, ParseRedirs, ParseLine, Wrap, Nested, IsLine;
    NextToken(s, i, ts, j);
    var m := SkipWhite(s, ts[0].eq);
    ScansSplit(s, m, ts[1..], j, k - 1);
    assert ts[1..][..k - 1] == ts[1..k] && ts[1..][k - 1] == ts[k] && ts[1..][k..] == ts[k + 1..];
    CloseAt(s, ts[k]);
    LineAccept(s, m, ts[1..k], ts[k].q, c0);
    SkipTo(s, ts[k].q, ts[k].q);
    LexIsToken(s, ts[k].q, ts[k]);
    Advance(s, ts[k].eq, ts[k + 1..], j);
    var n := SkipWhite(s, ts[k].eq);
    var us, lead, ms := RedirsAccept(s, [], n, ts[k + 1..], j, [], rs);
    NothingLeft(s, ParseRedirs(s, [], n).next, us, j, ms);
    NestedIsWrap(c0, rs, c);
    assert [] + lead == lead && lead + [] == lead;
    SkipTwice(s, i);
  }

  lemma CloseAt(s: string, t: Lex)
    requires IsLex(s, t) && t.kind != 'a'
    ensures AtRest(s, t.q) && At(s, t.q) == if t.kind == '+' then '>' else t.kind
  {
  }

  lemma NothingLeft(s: string, n: nat, us: seq<Lex>, j: nat, ms: seq<Redirect<Span>>)
    requires CString(s) && n <= |s| && Scans(s, n, us, j) && AtRest(s, j) && n == SkipWhite(s, n)
    requires Simple(us, [], ms) && (us != [] ==> us[0].kind == 'a')
    ensures us == [] && ms == [] && n == j
  {
    Advance(s, n, us, j);
  }

  lemma {:induction false} ExecAccept(s: string, i: nat, ts: seq<Lex>, j: nat, c: Cmd<Span>)
    requires CString(s) && i <= |s| && Scans(s, i, ts, j) && AtRest(s, j) && Ends(At(s, j)) && IsExec(ts, c)
    ensures ParseExec(s, i) == Ok(c, j)
    decreases |ts|, 1
  {
    hide Scans, ParseExec, IsSimple, IsBlock;
    if argv, rs :| IsSimple(ts, argv, rs, c) {
      SimpleAccept(s, i, ts, j, argv, rs, c);
    } else {
      var k: nat, c0, rs :| IsBlock(ts, k, c0, rs, c);
      BlockAccept(s, i, ts, j, k, c0, rs, c);
    }
  }

  /** Tokens around an operator at k. */
  lemma Around(s: string, i: nat, ts: seq<Lex>, j: nat, k: nat)
    requires CString(s) && i <= |s| && Scans(s, i, ts, j) && AtRest(s, j) && k < |ts| && ts[k].kind != 'a'
    ensures var q := ts[k].q;
            && AtRest(s, q) && At(s, q) == (if ts[k].kind == '+' then '>' else ts[k].kind)
            && SkipWhite(s, q) == q && ts[k].eq <= |s|
            && Scans(s, i, ts[..k], q) && TokenAt(s, q) == Token(ts[k].kind, q, ts[k].eq, SkipWhite(s, ts[k].eq))
            && Scans(s, SkipWhite(s, ts[k].eq), ts[k + 1..], j)
  {
    hide Scans, TokenAt, SkipWhite, CString;
    ScansSplit(s, i, ts, j, k);
    CloseAt(s, ts[k]);
    SkipTo(s, ts[k].q, ts[k].q);
    LexIsToken(s, ts[k].q, ts[k]);
    Advance(s, ts[k].eq, ts[k + 1..], j);
  }

  lemma {:induction false} PipeAccept(s: string, i: nat, ts: seq<Lex>, j: nat, c: Cmd<Span>)
    requires CString(s) && i <= |s| && Scans(s, i, ts, j) && AtRest(s, j) && Ends(At(s, j)) && At(s, j) != '|'
    requires IsPipe(ts, c)
    ensures ParsePipe(s, i) == Ok(c, j)
    decreases |ts|, 2
  {
    hide Scans, ParseExec, TokenAt, SkipWhite, IsExec, PipeAt, IsLex;
    SkipTo(s, j, j);
    if IsExec(ts, c) {
      ExecAccept(s, i, ts, j, c);
    } else {
      var k: nat :| PipeAt(ts, k, c.left, c.right);
      PipeParts(ts, k, c.left, c.right);
      Around(s, i, ts, j, k);
      ExecAccept(s, i, ts[..k], ts[k].q, c.left);
      PipeAccept(s, SkipWhite(s, ts[k].eq), ts[k + 1..], j, c.right);
    }
  }

  lemma PipeParts(ts: seq<Lex>, k: nat, l: Cmd<Span>, r: Cmd<Span>)
    requires PipeAt(ts, k, l, r)
    ensures k < |ts| && ts[k].kind == '|' && IsExec(ts[..k], l) && IsPipe(ts[k + 1..], r)
  {
  }

  lemma ListParts(ts: seq<Lex>, k: nat, l: Cmd<Span>, r: Cmd<Span>)
    requires ListAt(ts, k, l, r)
    ensures k < |ts| && ts[k].kind == ';' && IsBacks(ts[..k], l) && IsLine(ts[k + 1..], r)
  {
  }

  function Backs(c: Cmd<Span>, n: nat): Cmd<Span>
    decreases n
  {
    if n == 0 then c else Backs(Back(c), n - 1)
  }

  lemma {:induction false} BacksOuter(c: Cmd<Span>, n: nat)
    ensures Back(Backs(c, n)) == Backs(c, n + 1)
    decreases n
  {
    if n > 0 {
      BacksOuter(Back(c), n - 1);
    }
  }

  /** A pipeline and the ampersands after it. */
  lemma {:induction false} BacksSplit(ts: seq<Lex>, c: Cmd<Span>) returns (m: nat, c0: Cmd<Span>)
    requires IsBacks(ts, c)
    ensures m <= |ts| && IsPipe(ts[..m], c0) && c == Backs(c0, |ts| - m)
    ensures forall k :: m <= k < |ts| ==> ts[k].kind == '&'
    decreases |ts|
  {
    hide IsPipe;
    if IsPipe(ts, c) {
      m, c0 := |ts|, c;
      assert ts[..m] == ts;
    } else {
      var us := ts[..|ts| - 1];
      m, c0 := BacksSplit(us, c.cmd);
      assert us[..m] == ts[..m];
      assert forall k :: m <= k < |us| ==> us[k] == ts[k];
      BacksOuter(c0, |us| - m);
    }
  }

  lemma {:induction false} BacksRun(s: string, c: Cmd<Span>, i: nat, ts: seq<Lex>, j: nat)
    requires CString(s) && i <= |s| && Scans(s, i, ts, j) && AtRest(s, j) && At(s, j) != '&'
    requires forall k :: 0 <= k < |ts| ==> ts[k].kind == '&'
    ensures ParseBacks(s, c, i) == Ok(Backs(c, |ts|), j)
    decreases |ts|
  {
    hide Scans, TokenAt, SkipWhite, IsLex;
    Advance(s, i, ts, j);
    if ts != [] {
      NextToken(s, i, ts, j);
      BacksRun(s, Back(c), SkipWhite(s, ts[0].eq), ts[1..], j);
    }
  }

  lemma {:induction false} BacksAccept(s: string, i: nat, ts: seq<Lex>, j: nat, c: Cmd<Span>)
    requires CString(s) && i <= |s| && Scans(s, i, ts, j) && AtRest(s, j) && Ends(At(s, j))
    requires At(s, j) != '|' && At(s, j) != '&' && IsBacks(ts, c)
    ensures var l := ParsePipe(s, i); l.Ok? && ParseBacks(s, l.value, l.next) == Ok(c, j)
    decreases |ts|, 3
  {
    hide Scans, TokenAt, SkipWhite, IsLex, ParsePipe, ParseBacks, IsPipe, IsBacks, Backs;
    var m, c0 := BacksSplit(ts, c);
    if m == |ts| {
      assert ts[..m] == ts;
      PipeAccept(s, i, ts, j, c0);
      ScansNone(s, j);
      BacksRun(s, c0, j, [], j);
    } else {
      Around(s, i, ts, j, m);
      PipeAccept(s, i, ts[..m], ts[m].q, c0);
      ScansFrom(s, i, ts, j, m);
      BacksRun(s, c0, ts[m].q, ts[m..], j);
    }
  }

  lemma ScansNone(s: string, j: nat)
    requires j <= |s|
    ensures Scans(s, j, [], j)
  {
  }

  lemma ScansFrom(s: string, i: nat, ts: seq<Lex>, j: nat, m: nat)
    requires Scans(s, i, ts, j) && m < |ts|
    ensures Scans(s, ts[m].q, ts[m..], j)
  {
    ScansSplit(s, i, ts, j, m);
    assert ts[m..][1..] == ts[m + 1..];
  }

  lemma {:induction false} LineAccept(s: string, i: nat, ts: seq<Lex>, j: nat, c: Cmd<Span>)
    requires CString(s) && i <= |s| && Scans(s, i, ts, j) && AtRest(s, j) && (At(s, j) == NUL || At(s, j) == ')')
    requires IsLine(ts, c)
    ensures ParseLine(s, i) == Ok(c, j)
    decreases |ts|, 4
  {
    hide Scans, TokenAt, SkipWhite, IsLex, ParsePipe, ParseBacks, IsBacks, ListAt;
    SkipTo(s, j, j);
    if IsBacks(ts, c) {
      BacksAccept(s, i, ts, j, c);
    } else {
      var k: nat :| ListAt(ts, k, c.left, c.right);
      ListParts(ts, k, c.left, c.right);
      Around(s, i, ts, j, k);
      BacksAccept(s, i, ts[..k], ts[k].q, c.left);
      LineAccept(s, SkipWhite(s, ts[k].eq), ts[k + 1..], j, c.right);
    }
  }

  /** The parser is the grammar: it accepts a line with tree c if and only if c is derived from the line's tokens. */
  lemma ParsesIff(s: string, c: Cmd<Span>)
    requires CString(s)
    ensures (ParseCmd(s).Ok? && ParseCmd(s).value == c) <==> exists ts :: Scans(s, 0, ts, |s|) && IsLine(ts, c)
  {
    hide Scans, IsLine;
    if ParseCmd(s).Ok? && ParseCmd(s).value == c {
      var r := ParseLine(s, 0);
      var ts := LineDerives(s, 0);
      BlankSkip(s, r.next);
      assert Scans(s, r.next, [], |s|) by { NoTokens(s, r.next); }
      ScansJoin(s, 0, ts, r.next, [], |s|);
      assert ts + [] == ts;
    }
    if ts :| Scans(s, 0, ts, |s|) && IsLine(ts, c) {
      LineAccept(s, 0, ts, |s|, c);
      SkipTo(s, |s|, |s|);
    }
  }
}
