/** The shell's scanner and recursive-descent parser, and the in-place termination of its words.
    A command line is a C string without its NUL; positions stand for pointers into it. */
module Shell {

  const MAXARGS := 10
  const NUL := '\0'

  predicate IsWhite(c: char) { c == ' ' || c == '\t' || c == '\r' || c == '\n' || c == '\U{B}' }

  predicate IsSymbol(c: char) {
    c == '<' || c == '|' || c == '>' || c == '&' || c == ';' || c == '(' || c == ')'
  }

  predicate IsPlain(c: char) { !IsWhite(c) && !IsSymbol(c) && c != NUL }

  /** *p, which is NUL at the end. */
  function At(s: string, i: nat): char {
    if i < |s| then s[i] else NUL
  }

  predicate CString(s: string) { NUL !in s }

  // ---- specification of the scanner ----

  function SkipWhite(s: string, i: nat): (j: nat)
    requires i <= |s|
    ensures i <= j <= |s| && !(j < |s| && IsWhite(s[j]))
    ensures forall k :: i <= k < j ==> IsWhite(s[k])
    decreases |s| - i
  {
    if i < |s| && IsWhite(s[i]) then SkipWhite(s, i + 1) else i
  }

  function WordEnd(s: string, i: nat): (j: nat)
    requires i <= |s|
    ensures i <= j <= |s| && (j < |s| ==> IsWhite(s[j]) || IsSymbol(s[j]))
    ensures forall k :: i <= k < j ==> !IsWhite(s[k]) && !IsSymbol(s[k])
    decreases |s| - i
  {
    if i < |s| && !IsWhite(s[i]) && !IsSymbol(s[i]) then WordEnd(s, i + 1) else i
  }

  datatype Token = Token(kind: char, q: nat, eq: nat, next: nat)

  /** gettoken() at position i: the kind ('a' for a word, '+' for >>), where it starts and ends, and
      where the cursor goes. */
  function TokenAt(s: string, i: nat): (t: Token)
    requires i <= |s|
    ensures i <= t.q <= t.eq <= t.next <= |s|
    ensures CString(s) ==> (t.kind == NUL <==> t.q == |s|) && (t.kind != NUL ==> t.q < t.eq)
  {
    var q := SkipWhite(s, i);
    var c := At(s, q);
    var kind := if c == NUL || (IsSymbol(c) && c != '>') then c
                else if c == '>' then (if At(s, q + 1) == '>' then '+' else '>')
                else 'a';
    var eq := if c == NUL then q else if kind == '+' then q + 2 else if kind == 'a' then WordEnd(s, q) else q + 1;
    Token(kind, q, eq, SkipWhite(s, eq))
  }

  // ---- command trees ----

  datatype Mode = In | Out

  datatype Cmd<W> = Exec(argv: seq<W>)
                  | Redir(cmd: Cmd<W>, mode: Mode, file: W)
                  | Pipe(left: Cmd<W>, right: Cmd<W>)
                  | List(left: Cmd<W>, right: Cmd<W>)
                  | Back(cmd: Cmd<W>)

  /** A word in the line: the characters from q up to eq. */
  datatype Span = Span(q: nat, eq: nat)

  datatype Redirect<W> = Redirect(mode: Mode, file: W)

  function Wrap<W>(c: Cmd<W>, rs: seq<Redirect<W>>): Cmd<W>
    decreases |rs|
  {
    if rs == [] then c else Redir(Wrap(c, rs[..|rs| - 1]), rs[|rs| - 1].mode, rs[|rs| - 1].file)
  }

  datatype Result<T> = Ok(value: T, next: nat) | Err(msg: string)

  // ---- specification of the parser ----

  function ParseRedirs(s: string, rs: seq<Redirect<Span>>, i: nat): (r: Result<seq<Redirect<Span>>>)
    requires CString(s) && i <= |s|
    ensures r.Ok? ==> i <= r.next <= |s|
    decreases |s| - i
  {
    var p := SkipWhite(s, i);
    if At(s, p) == '<' || At(s, p) == '>' then
      var tok := TokenAt(s, p);
      var f := TokenAt(s, tok.next);
      if f.kind != 'a' then Err("missing file for redirection")
      else ParseRedirs(s, rs + [Redirect(if tok.kind == '<' then In else Out, Span(f.q, f.eq))], f.next)
    else Ok(rs, p)
  }

  predicate EndsArgs(c: char) { c == '|' || c == ')' || c == '&' || c == ';' }

  function ParseArgs(s: string, argv: seq<Span>, rs: seq<Redirect<Span>>, i: nat): (r: Result<Cmd<Span>>)
    requires CString(s) && i <= |s|
    ensures r.Ok? ==> i <= r.next <= |s|
    decreases |s| - i
  {
    var p := SkipWhite(s, i);
    if EndsArgs(At(s, p)) then Ok(Wrap(Exec(argv), rs), p)
    else
      var t := TokenAt(s, p);
      if t.kind == NUL then Ok(Wrap(Exec(argv), rs), t.next)
      else if t.kind != 'a' then Err("syntax")
      else if |argv| + 1 >= MAXARGS then Err("too many args")
      else
        var r := ParseRedirs(s, rs, t.next);
        if r.Err? then Err(r.msg) else ParseArgs(s, argv + [Span(t.q, t.eq)], r.value, r.next)
  }

  function ParseExec(s: string, i: nat): (r: Result<Cmd<Span>>)
    requires CString(s) && i <= |s|
    ensures r.Ok? ==> i <= r.next <= |s|
    decreases |s| - i, 1
  {
    var p := SkipWhite(s, i);
    if At(s, p) == '(' then ParseBlock(s, p)
    else
      var r := ParseRedirs(s, [], p);
      if r.Err? then Err(r.msg) else ParseArgs(s, [], r.value, r.next)
  }

  function ParseBlock(s: string, i: nat): (r: Result<Cmd<Span>>)
    requires CString(s) && i <= |s|
    ensures r.Ok? ==> i <= r.next <= |s|
    decreases |s| - i, 0
  {
    var p := SkipWhite(s, i);
    if At(s, p) != '(' then Err("parseblock")
    else
      var r := ParseLine(s, TokenAt(s, p).next);
      if r.Err? then r
      else
        var e := SkipWhite(s, r.next);
        if At(s, e) != ')' then Err("syntax - missing )")
        else
          var rs := ParseRedirs(s, [], TokenAt(s, e).next);
          if rs.Err? then Err(rs.msg) else Ok(Wrap(r.value, rs.value), rs.next)
  }

  function ParsePipe(s: string, i: nat): (r: Result<Cmd<Span>>)
    requires CString(s) && i <= |s|
    ensures r.Ok? ==> i <= r.next <= |s|
    decreases |s| - i, 2
  {
    var l := ParseExec(s, i);
    if l.Err? then l
    else
      var p := SkipWhite(s, l.next);
      if At(s, p) != '|' then Ok(l.value, p)
      else
        var r := ParsePipe(s, TokenAt(s, p).next);
        if r.Err? then r else Ok(Pipe(l.value, r.value), r.next)
  }

  function ParseBacks(s: string, c: Cmd<Span>, i: nat): (r: Result<Cmd<Span>>)
    requires CString(s) && i <= |s|
    ensures r.Ok? && i <= r.next <= |s|
    decreases |s| - i
  {
    var p := SkipWhite(s, i);
    if At(s, p) == '&' then ParseBacks(s, Back(c), TokenAt(s, p).next) else Ok(c, p)
  }

  function ParseLine(s: string, i: nat): (r: Result<Cmd<Span>>)
    requires CString(s) && i <= |s|
    ensures r.Ok? ==> i <= r.next <= |s|
    decreases |s| - i, 3
  {
    var l := ParsePipe(s, i);
    if l.Err? then l
    else
      var b := ParseBacks(s, l.value, l.next);
      var p := SkipWhite(s, b.next);
      if At(s, p) != ';' then Ok(b.value, p)
      else
        var r := ParseLine(s, TokenAt(s, p).next);
        if r.Err? then r else Ok(List(b.value, r.value), r.next)
  }

  function ParseCmd(s: string): (r: Result<Cmd<Span>>)
    requires CString(s)
  {
    var r := ParseLine(s, 0);
    if r.Err? then r
    else if SkipWhite(s, r.next) != |s| then Err("syntax")
    else r
  }

  // ---- the words of a tree are tokens of the line ----

  /** A maximal run of plain characters. */
  predicate IsToken(s: string, w: Span) {
    && w.q < w.eq <= |s| && (forall k :: w.q <= k < w.eq ==> IsPlain(s[k]))
    && (w.eq < |s| ==> !IsPlain(s[w.eq]))
  }

  predicate TreeTokens(s: string, c: Cmd<Span>) {
    match c
    case Exec(argv) => |argv| < MAXARGS && forall k :: 0 <= k < |argv| ==> IsToken(s, argv[k])
    case Redir(c1, _, file) => TreeTokens(s, c1) && IsToken(s, file)
    case Pipe(l, r) => TreeTokens(s, l) && TreeTokens(s, r)
    case List(l, r) => TreeTokens(s, l) && TreeTokens(s, r)
    case Back(c1) => TreeTokens(s, c1)
  }

  predicate RedirTokens(s: string, rs: seq<Redirect<Span>>) {
    forall k :: 0 <= k < |rs| ==> IsToken(s, rs[k].file)
  }

  lemma WordIsToken(s: string, i: nat)
    requires CString(s) && i <= |s| && TokenAt(s, i).kind == 'a'
    ensures IsToken(s, Span(TokenAt(s, i).q, TokenAt(s, i).eq))
  {
    var t := TokenAt(s, i);
    assert t.q < |s| && t.eq == WordEnd(s, t.q);
    forall k | t.q <= k < t.eq ensures IsPlain(s[k]) {
      assert s[k] in s;
    }
  }

  lemma {:induction false} WrapTokens(s: string, c: Cmd<Span>, rs: seq<Redirect<Span>>)
    requires TreeTokens(s, c) && RedirTokens(s, rs)
    ensures TreeTokens(s, Wrap(c, rs))
    decreases |rs|
  {
    if rs != [] {
      WrapTokens(s, c, rs[..|rs| - 1]);
    }
  }

  lemma {:induction false} RedirsTokens(s: string, rs: seq<Redirect<Span>>, i: nat)
    requires CString(s) && i <= |s| && RedirTokens(s, rs) && ParseRedirs(s, rs, i).Ok?
    ensures RedirTokens(s, ParseRedirs(s, rs, i).value)
    decreases |s| - i
  {
    var p := SkipWhite(s, i);
    if At(s, p) == '<' || At(s, p) == '>' {
      var tok := TokenAt(s, p);
      var f := TokenAt(s, tok.next);
      WordIsToken(s, tok.next);
      RedirsTokens(s, rs + [Redirect(if tok.kind == '<' then In else Out, Span(f.q, f.eq))], f.next);
    }
  }

  lemma {:induction false} ArgsTokens(s: string, argv: seq<Span>, rs: seq<Redirect<Span>>, i: nat)
    requires CString(s) && i <= |s| && RedirTokens(s, rs) && TreeTokens(s, Exec(argv)) && ParseArgs(s, argv, rs, i).Ok?
    ensures TreeTokens(s, ParseArgs(s, argv, rs, i).value)
    decreases |s| - i
  {
    WrapTokens(s, Exec(argv), rs);
    var p := SkipWhite(s, i);
    var t := TokenAt(s, p);
    if !EndsArgs(At(s, p)) && t.kind != NUL {
      WordIsToken(s, p);
      RedirsTokens(s, rs, t.next);
      var r := ParseRedirs(s, rs, t.next);
      ArgsTokens(s, argv + [Span(t.q, t.eq)], r.value, r.next);
    }
  }

  lemma {:induction false} BacksTokens(s: string, c: Cmd<Span>, i: nat)
    requires CString(s) && i <= |s| && TreeTokens(s, c)
    ensures TreeTokens(s, ParseBacks(s, c, i).value)
    decreases |s| - i
  {
    var p := SkipWhite(s, i);
    if At(s, p) == '&' {
      BacksTokens(s, Back(c), TokenAt(s, p).next);
    }
  }

  lemma {:induction false} ExecTokens(s: string, i: nat)
    requires CString(s) && i <= |s| && ParseExec(s, i).Ok?
    ensures TreeTokens(s, ParseExec(s, i).value)
    decreases |s| - i, 1
  {
    var p := SkipWhite(s, i);
    if At(s, p) == '(' {
      SkipWhiteStays(s, p);
      LineTokens(s, TokenAt(s, p).next);
      var r := ParseLine(s, TokenAt(s, p).next);
      var e := SkipWhite(s, r.next);
      RedirsTokens(s, [], TokenAt(s, e).next);
      WrapTokens(s, r.value, ParseRedirs(s, [], TokenAt(s, e).next).value);
    } else {
      RedirsTokens(s, [], p);
      var r := ParseRedirs(s, [], p);
      ArgsTokens(s, [], r.value, r.next);
    }
  }

  lemma SkipWhiteStays(s: string, p: nat)
    requires p <= |s| && !IsWhite(At(s, p))
    ensures SkipWhite(s, p) == p
  {
  }

  lemma {:induction false} PipeTokens(s: string, i: nat)
    requires CString(s) && i <= |s| && ParsePipe(s, i).Ok?
    ensures TreeTokens(s, ParsePipe(s, i).value)
    decreases |s| - i, 2
  {
    ExecTokens(s, i);
    var p := SkipWhite(s, ParseExec(s, i).next);
    if At(s, p) == '|' {
      PipeTokens(s, TokenAt(s, p).next);
    }
  }

  /** Whatever the line, the words of its tree are maximal runs of plain characters. */
  lemma {:induction false} LineTokens(s: string, i: nat)
    requires CString(s) && i <= |s| && ParseLine(s, i).Ok?
    ensures TreeTokens(s, ParseLine(s, i).value)
    decreases |s| - i, 3
  {
    PipeTokens(s, i);
    var l := ParsePipe(s, i);
    BacksTokens(s, l.value, l.next);
    var p := SkipWhite(s, ParseBacks(s, l.value, l.next).next);
    if At(s, p) == ';' {
      LineTokens(s, TokenAt(s, p).next);
    }
  }

  // ---- termination of the words in place ----

  function Sub(s: string, w: Span): string {
    if w.q <= w.eq <= |s| then s[w.q..w.eq] else ""
  }

  function Subs(s: string, argv: seq<Span>): seq<string> {
    if argv == [] then [] else [Sub(s, argv[0])] + Subs(s, argv[1..])
  }

  lemma {:induction false} SubsAt(s: string, argv: seq<Span>)
    ensures |Subs(s, argv)| == |argv| && forall k :: 0 <= k < |argv| ==> Subs(s, argv)[k] == Sub(s, argv[k])
  {
    if argv != [] {
      SubsAt(s, argv[1..]);
    }
  }

  /** The tree with the words' texts. */
  function Text(s: string, c: Cmd<Span>): Cmd<string> {
    match c
    case Exec(argv) => Exec(Subs(s, argv))
    case Redir(c1, m, file) => Redir(Text(s, c1), m, Sub(s, file))
    case Pipe(l, r) => Pipe(Text(s, l), Text(s, r))
    case List(l, r) => List(Text(s, l), Text(s, r))
    case Back(c1) => Back(Text(s, c1))
  }

  /** The C string at position q. */
  function StringAt(b: seq<char>, q: nat): string
    decreases |b| - q
  {
    if q < |b| && b[q] != NUL then [b[q]] + StringAt(b, q + 1) else []
  }

  /** The tree as exec() and open() read it: every word from its start to the next NUL. */
  function CText(b: seq<char>, c: Cmd<Span>): Cmd<string> {
    match c
    case Exec(argv) => Exec(seq(|argv|, k requires 0 <= k < |argv| => StringAt(b, argv[k].q)))
    case Redir(c1, m, file) => Redir(CText(b, c1), m, StringAt(b, file.q))
    case Pipe(l, r) => Pipe(CText(b, l), CText(b, r))
    case List(l, r) => List(CText(b, l), CText(b, r))
    case Back(c1) => Back(CText(b, c1))
  }

  /** The positions just after the words of a tree. */
  ghost function Ends(c: Cmd<Span>): set<nat> {
    match c
    case Exec(argv) => ArgEnds(argv, |argv|)
    case Redir(c1, _, file) => Ends(c1) + {file.eq}
    case Pipe(l, r) => Ends(l) + Ends(r)
    case List(l, r) => Ends(l) + Ends(r)
    case Back(c1) => Ends(c1)
  }

  ghost function ArgEnds(argv: seq<Span>, n: nat): set<nat>
    requires n <= |argv|
  {
    set k | 0 <= k < n :: argv[k].eq
  }

  /** The line in its buffer with NUL at the positions in e. */
  ghost predicate Cut(s: string, b: seq<char>, e: set<nat>) {
    |b| == |s| + 1 && forall k :: 0 <= k < |b| ==> b[k] == if k in e then NUL else At(s, k)
  }

  ghost predicate NoPlain(s: string, e: set<nat>) {
    forall k :: k in e ==> k <= |s| && !IsPlain(At(s, k))
  }

  lemma {:induction false} EndsNoPlain(s: string, c: Cmd<Span>)
    requires TreeTokens(s, c)
    ensures NoPlain(s, Ends(c))
  {
    match c {
      case Exec(argv) =>
      case Redir(c1, _, _) => EndsNoPlain(s, c1);
      case Pipe(l, r) => EndsNoPlain(s, l); EndsNoPlain(s, r);
      case List(l, r) => EndsNoPlain(s, l); EndsNoPlain(s, r);
      case Back(c1) => EndsNoPlain(s, c1);
    }
  }

  lemma {:induction false} CutWord(s: string, b: seq<char>, e: set<nat>, w: Span, k: nat)
    requires Cut(s, b, e) && NoPlain(s, e) && IsToken(s, w) && w.eq in e && w.q <= k <= w.eq
    ensures StringAt(b, k) == s[k..w.eq]
    decreases w.eq - k
  {
    if k < w.eq {
      CutWord(s, b, e, w, k + 1);
      assert s[k..w.eq] == [s[k]] + s[k + 1..w.eq];
    }
  }

  /** No word is cut short by the terminator of another. */
  lemma {:induction false} CutText(s: string, b: seq<char>, e: set<nat>, c: Cmd<Span>)
    requires Cut(s, b, e) && NoPlain(s, e) && TreeTokens(s, c) && Ends(c) <= e
    ensures CText(b, c) == Text(s, c)
  {
    match c {
      case Exec(argv) =>
        SubsAt(s, argv);
        forall k | 0 <= k < |argv|
          ensures StringAt(b, argv[k].q) == Sub(s, argv[k])
        {
          assert argv[k].eq in Ends(c);
          CutWord(s, b, e, argv[k], argv[k].q);
        }
      case Redir(c1, _, file) => CutText(s, b, e, c1); CutWord(s, b, e, file, file.q);
      case Pipe(l, r) => CutText(s, b, e, l); CutText(s, b, e, r);
      case List(l, r) => CutText(s, b, e, l); CutText(s, b, e, r);
      case Back(c1) => CutText(s, b, e, c1);
    }
  }

  /** nulterminate(): exactly the positions after the tree's words become NUL. */
  method NulTerminate(buf: array<char>, c: Cmd<Span>, ghost s: string, ghost e: set<nat>)
    requires Cut(s, buf[..], e) && TreeTokens(s, c)
    modifies buf
    ensures Cut(s, buf[..], e + Ends(c))
    decreases c
  {
    match c {
      case Exec(argv) =>
        for i := 0 to |argv|
          invariant Cut(s, buf[..], e + ArgEnds(argv, i))
        {
          buf[argv[i].eq] := NUL;
          assert ArgEnds(argv, i + 1) == ArgEnds(argv, i) + {argv[i].eq};
        }
      case Redir(c1, _, file) =>
        NulTerminate(buf, c1, s, e);
        buf[file.eq] := NUL;
      case Pipe(l, r) =>
        NulTerminate(buf, l, s, e);
        NulTerminate(buf, r, s, e + Ends(l));
        assert e + Ends(l) + Ends(r) == e + (Ends(l) + Ends(r));
      case List(l, r) =>
        NulTerminate(buf, l, s, e);
        NulTerminate(buf, r, s, e + Ends(l));
        assert e + Ends(l) + Ends(r) == e + (Ends(l) + Ends(r));
      case Back(c1) => NulTerminate(buf, c1, s, e);
    }
  }

  // ---- printing ----

  predicate IsWord(w: string) { w != [] && forall k :: 0 <= k < |w| ==> IsPlain(w[k]) }

  /** At most nine words per command, all of them plain. */
  predicate WellFormed(t: Cmd<string>) {
    match t
    case Exec(argv) => |argv| < MAXARGS && forall k :: 0 <= k < |argv| ==> IsWord(argv[k])
    case Redir(c, _, file) => WellFormed(c) && IsWord(file)
    case Pipe(l, r) => WellFormed(l) && WellFormed(r)
    case List(l, r) => WellFormed(l) && WellFormed(r)
    case Back(c) => WellFormed(c)
  }

  function Base<W>(t: Cmd<W>): (b: Cmd<W>)
    ensures !b.Redir? && (t.Redir? ==> Size(b) < Size(t)) && (!t.Redir? ==> b == t)
  {
    if t.Redir? then Base(t.cmd) else t
  }

  function Redirs<W>(t: Cmd<W>): seq<Redirect<W>> {
    if t.Redir? then Redirs(t.cmd) + [Redirect(t.mode, t.file)] else []
  }

  function Size<W>(t: Cmd<W>): (n: nat)
    ensures n >= 1
  {
    match t
    case Exec(_) => 1
    case Redir(c, _, _) => Size(c) + 1
    case Pipe(l, r) => Size(l) + Size(r) + 1
    case List(l, r) => Size(l) + Size(r) + 1
    case Back(c) => Size(c) + 1
  }

  function PrintWords(ws: seq<string>): string {
    if ws == [] then "" else " " + ws[0] + PrintWords(ws[1..])
  }

  function Sign(m: Mode): string { if m == In then "<" else ">" }

  function PrintRedirs(rs: seq<Redirect<string>>): string {
    if rs == [] then "" else Sign(rs[0].mode) + rs[0].file + PrintRedirs(rs[1..])
  }

  function PrintLine(t: Cmd<string>): string
    decreases Size(t), if t.List? then 0 else 4
  {
    if t.List? then PrintBack(t.left) + (";" + PrintLine(t.right)) else PrintBack(t)
  }

  function PrintBack(t: Cmd<string>): string
    decreases Size(t), 3
  {
    if t.Back? then PrintBack(t.cmd) + "&"
    else if t.List? then "(" + (PrintLine(t) + ")")
    else PrintPipe(t)
  }

  function PrintPipe(t: Cmd<string>): string
    decreases Size(t), if t.List? || t.Back? then 6 else 2
  {
    if t.Pipe? then PrintExec(t.left) + ("|" + PrintPipe(t.right)) else PrintExec(t)
  }

  function PrintExec(t: Cmd<string>): string
    decreases Size(t), if t.Exec? || t.Redir? then 1 else 5
  {
    var b := Base(t);
    (if b.Exec? then PrintWords(b.argv) else "(" + (PrintLine(b) + ")")) + PrintRedirs(Redirs(t))
  }

  lemma {:induction false} WrapBase<W>(t: Cmd<W>)
    ensures Wrap(Base(t), Redirs(t)) == t
  {
    if t.Redir? {
      WrapBase(t.cmd);
      assert Redirs(t)[..|Redirs(t)| - 1] == Redirs(t.cmd);
    }
  }

  lemma {:induction false} WellFormedBase(t: Cmd<string>)
    requires WellFormed(t)
    ensures WellFormed(Base(t)) && forall k :: 0 <= k < |Redirs(t)| ==> IsWord(Redirs(t)[k].file)
  {
    if t.Redir? {
      WellFormedBase(t.cmd);
    }
  }

  lemma {:induction false} PrintWordsC(ws: seq<string>)
    requires Words(ws)
    ensures CString(PrintWords(ws))
  {
    if ws != [] {
      assert IsWord(ws[0]);
      PrintWordsC(ws[1..]);
    }
  }

  lemma {:induction false} PrintRedirsC(rs: seq<Redirect<string>>)
    requires WordFiles(rs)
    ensures CString(PrintRedirs(rs))
  {
    if rs != [] {
      assert IsWord(rs[0].file);
      PrintRedirsC(rs[1..]);
    }
  }

  lemma {:induction false} PrintLineC(t: Cmd<string>)
    requires WellFormed(t)
    ensures CString(PrintLine(t))
    decreases Size(t), if t.List? then 0 else 4
  {
    if t.List? {
      PrintBackC(t.left);
      PrintLineC(t.right);
    } else {
      PrintBackC(t);
    }
  }

  lemma {:induction false} PrintBackC(t: Cmd<string>)
    requires WellFormed(t)
    ensures CString(PrintBack(t))
    decreases Size(t), 3
  {
    if t.Back? {
      PrintBackC(t.cmd);
    } else if t.List? {
      PrintLineC(t);
    } else {
      PrintPipeC(t);
    }
  }

  lemma {:induction false} PrintPipeC(t: Cmd<string>)
    requires WellFormed(t)
    ensures CString(PrintPipe(t))
    decreases Size(t), if t.List? || t.Back? then 6 else 2
  {
    if t.Pipe? {
      PrintExecC(t.left);
      PrintPipeC(t.right);
    } else {
      PrintExecC(t);
    }
  }

  lemma {:induction false} PrintExecC(t: Cmd<string>)
    requires WellFormed(t)
    ensures CString(PrintExec(t))
    decreases Size(t), if t.Exec? || t.Redir? then 1 else 5
  {
    var b := Base(t);
    WellFormedBase(t);
    PrintRedirsC(Redirs(t));
    if b.Exec? {
      PrintWordsC(b.argv);
    } else {
      PrintLineC(b);
    }
  }

  // ---- reading what was printed ----

  /** The text u stands in the line at position i. */
  predicate Has(s: string, i: nat, u: string) {
    i + |u| <= |s| && s[i..i + |u|] == u
  }

  lemma HasSplit(s: string, i: nat, u: string, v: string)
    requires Has(s, i, u + v)
    ensures Has(s, i, u) && Has(s, i + |u|, v) && |u + v| == |u| + |v|
  {
    assert s[i..i + |u + v|][..|u|] == s[i..i + |u|] && (u + v)[..|u|] == u;
    assert s[i..i + |u + v|][|u|..] == s[i + |u|..i + |u| + |v|] && (u + v)[|u|..] == v;
  }

  lemma HasChar(s: string, i: nat, u: string, k: nat)
    requires Has(s, i, u) && k < |u|
    ensures At(s, i + k) == u[k]
  {
    assert s[i..i + |u|][k] == s[i + k];
  }

  lemma {:induction false} WordEndIs(s: string, i: nat, j: nat, k: nat)
    requires i <= k <= j <= |s| && (forall m :: i <= m < j ==> IsPlain(s[m])) && !IsPlain(At(s, j))
    requires CString(s)
    ensures WordEnd(s, k) == j
    decreases j - k
  {
    if k < j {
      WordEndIs(s, i, j, k + 1);
    } else if j < |s| {
      assert s[j] in s;
    }
  }

  /** gettoken() on a printed word. */
  lemma TokenWord(s: string, i: nat, w: string)
    requires CString(s) && IsWord(w) && Has(s, i, w) && !IsPlain(At(s, i + |w|))
    ensures TokenAt(s, i) == Token('a', i, i + |w|, SkipWhite(s, i + |w|)) && IsPlain(At(s, i)) && SkipWhite(s, i) == i
  {
    forall m | i <= m < i + |w| ensures IsPlain(s[m]) {
      HasChar(s, i, w, m - i);
    }
    assert IsPlain(s[i]);
    WordEndIs(s, i, i + |w|, i);
  }

  /** gettoken() on a printed one-character symbol that no second '>' follows. */
  lemma TokenSymbol(s: string, i: nat)
    requires CString(s) && i < |s| && IsSymbol(s[i]) && (s[i] == '>' ==> At(s, i + 1) != '>')
    ensures TokenAt(s, i) == Token(s[i], i, i + 1, SkipWhite(s, i + 1)) && SkipWhite(s, i) == i
  {
  }

  lemma {:induction false} SkipTwice(s: string, i: nat)
    requires i <= |s|
    ensures SkipWhite(s, SkipWhite(s, i)) == SkipWhite(s, i)
  {
  }

  lemma SkipFirst(s: string, i: nat)
    requires CString(s) && i <= |s|
    ensures ParseRedirs(s, [], SkipWhite(s, i)) == ParseRedirs(s, [], i)
    ensures ParseExec(s, SkipWhite(s, i)) == ParseExec(s, i)
    ensures ParsePipe(s, SkipWhite(s, i)) == ParsePipe(s, i)
    ensures ParseLine(s, SkipWhite(s, i)) == ParseLine(s, i)
  {
    SkipTwice(s, i);
  }

  function RedirSpans(rs: seq<Redirect<string>>, i: nat): seq<Redirect<Span>> {
    if rs == [] then []
    else [Redirect(rs[0].mode, Span(i + 1, i + 1 + |rs[0].file|))] + RedirSpans(rs[1..], i + 1 + |rs[0].file|)
  }

  function WordSpans(ws: seq<string>, i: nat): seq<Span> {
    if ws == [] then [] else [Span(i + 1, i + 1 + |ws[0]|)] + WordSpans(ws[1..], i + 1 + |ws[0]|)
  }

  predicate WordFiles(rs: seq<Redirect<string>>) { forall k :: 0 <= k < |rs| ==> IsWord(rs[k].file) }

  lemma Assoc<T>(a: seq<T>, b: seq<T>, c: seq<T>)
    ensures a + b + c == a + (b + c)
  {
  }

  lemma OneRedir(s: string, rs0: seq<Redirect<Span>>, i: nat, m: Mode, f: string)
    requires CString(s) && IsWord(f) && Has(s, i, Sign(m) + f)
    requires var c := At(s, i + 1 + |f|); !IsPlain(c) && !IsWhite(c)
    ensures ParseRedirs(s, rs0, i) == ParseRedirs(s, rs0 + [Redirect(m, Span(i + 1, i + 1 + |f|))], i + 1 + |f|)
  {
    HasSplit(s, i, Sign(m), f);
    HasChar(s, i, Sign(m), 0);
    HasChar(s, i + 1, f, 0);
    assert IsPlain(f[0]);
    TokenSymbol(s, i);
    TokenWord(s, i + 1, f);
    SkipWhiteStays(s, i + 1 + |f|);
    hide TokenAt, SkipWhite, IsPlain, IsWhite, IsSymbol, Has;
  }

  /** The first of several printed redirections, and where the others start. */
  lemma RedirHead(s: string, i: nat, rs: seq<Redirect<string>>)
    requires rs != [] && WordFiles(rs) && Has(s, i, PrintRedirs(rs)) && Stops(At(s, i + |PrintRedirs(rs)|))
    ensures var f := rs[0].file; var k := i + 1 + |f|;
            && IsWord(f) && Has(s, i, Sign(rs[0].mode) + f) && Has(s, k, PrintRedirs(rs[1..]))
            && !IsPlain(At(s, k)) && !IsWhite(At(s, k)) && k + |PrintRedirs(rs[1..])| == i + |PrintRedirs(rs)|
            && RedirSpans(rs, i) == [Redirect(rs[0].mode, Span(i + 1, k))] + RedirSpans(rs[1..], k)
  {
    var f := rs[0].file;
    HasSplit(s, i, Sign(rs[0].mode) + f, PrintRedirs(rs[1..]));
    var k := i + 1 + |f|;
    if rs[1..] != [] {
      HasChar(s, k, PrintRedirs(rs[1..]), 0);
    }
  }

  /** A character that ends a word and starts no redirection. */
  predicate Stops(c: char) { c != '<' && c != '>' && !IsWhite(c) && !IsPlain(c) }

  lemma NoRedirs(s: string, rs0: seq<Redirect<Span>>, i: nat)
    requires CString(s) && i <= |s| && At(s, i) != '<' && At(s, i) != '>' && !IsWhite(At(s, i))
    ensures ParseRedirs(s, rs0, i) == Ok(rs0, i)
  {
  }

  /** Redirections read back. */
  lemma {:induction false} RedirsRound(s: string, rs0: seq<Redirect<Span>>, i: nat, rs: seq<Redirect<string>>)
    requires CString(s) && WordFiles(rs) && Has(s, i, PrintRedirs(rs)) && Stops(At(s, i + |PrintRedirs(rs)|))
    ensures ParseRedirs(s, rs0, i) == Ok(rs0 + RedirSpans(rs, i), i + |PrintRedirs(rs)|)
    decreases |rs|
  {
    hide ParseRedirs, IsWord, IsWhite, IsPlain;
    if rs == [] {
      NoRedirs(s, rs0, i);
      assert rs0 + RedirSpans(rs, i) == rs0;
    } else {
      RedirHead(s, i, rs);
      var f := rs[0].file;
      var k := i + 1 + |f|;
      hide Has, PrintRedirs, RedirSpans, Stops;
      OneRedir(s, rs0, i, rs[0].mode, f);
      var r := Redirect(rs[0].mode, Span(i + 1, k));
      RedirsRound(s, rs0 + [r], k, rs[1..]);
      Assoc(rs0, [r], RedirSpans(rs[1..], k));
    }
  }

  predicate AfterExec(c: char) { c == NUL || EndsArgs(c) }

  lemma ArgsDone(s: string, argv: seq<Span>, rs: seq<Redirect<Span>>, j: nat)
    requires CString(s) && j <= |s| && AfterExec(At(s, j))
    ensures ParseArgs(s, argv, rs, j) == Ok(Wrap(Exec(argv), rs), j)
  {
    SkipWhiteStays(s, j);
  }

  lemma OneArg(s: string, argv: seq<Span>, rs: seq<Redirect<Span>>, p: nat, w: string)
    requires CString(s) && IsWord(w) && Has(s, p, w) && !IsPlain(At(s, p + |w|)) && |argv| + 1 < MAXARGS
    ensures var r := ParseRedirs(s, rs, SkipWhite(s, p + |w|));
            ParseArgs(s, argv, rs, p) ==
            if r.Err? then Err(r.msg) else ParseArgs(s, argv + [Span(p, p + |w|)], r.value, r.next)
  {
    hide TokenAt, SkipWhite, ParseRedirs, Has, IsWord, IsPlain, EndsArgs, Wrap;
    TokenWord(s, p, w);
    PlainChar(At(s, p));
  }

  /** The first of several printed words, and where the others start. */
  lemma WordsHead(s: string, i: nat, ws: seq<string>)
    requires ws != [] && Has(s, i, PrintWords(ws)) && IsWord(ws[0])
    ensures var k := i + 1 + |ws[0]|;
            && At(s, i) == ' ' && Has(s, i + 1, ws[0]) && SkipWhite(s, i) == i + 1 && IsPlain(At(s, i + 1))
            && Has(s, k, PrintWords(ws[1..])) && k + |PrintWords(ws[1..])| == i + |PrintWords(ws)|
            && (if ws[1..] != [] then At(s, k) == ' ' else PrintWords(ws[1..]) == "" && WordSpans(ws[1..], k) == [])
            && WordSpans(ws, i) == [Span(i + 1, k)] + WordSpans(ws[1..], k)
  {
    HasSplit(s, i, " " + ws[0], PrintWords(ws[1..]));
    HasSplit(s, i, " ", ws[0]);
    HasChar(s, i, " ", 0);
    HasChar(s, i + 1, ws[0], 0);
    var k := i + 1 + |ws[0]|;
    if ws[1..] != [] {
      HasChar(s, k, PrintWords(ws[1..]), 0);
    }
  }

  /** After the words come redirections or the end of the command. */
  lemma RedirsStart(s: string, i: nat, rs: seq<Redirect<string>>)
    requires Has(s, i, PrintRedirs(rs)) && AfterExec(At(s, i + |PrintRedirs(rs)|))
    ensures i + |PrintRedirs(rs)| <= |s|
    ensures !IsPlain(At(s, i)) && !IsWhite(At(s, i)) && At(s, i) != '(' && Stops(At(s, i + |PrintRedirs(rs)|))
  {
    if rs != [] {
      HasChar(s, i, PrintRedirs(rs), 0);
    }
  }

  predicate Words(ws: seq<string>) { forall k :: 0 <= k < |ws| ==> IsWord(ws[k]) }

  /** Words and then redirections read back. */
  lemma {:induction false} ArgsRound(s: string, argv: seq<Span>, i: nat, ws: seq<string>, rs: seq<Redirect<string>>)
    requires CString(s) && ws != [] && Words(ws) && WordFiles(rs) && |argv| + |ws| < MAXARGS
    requires Has(s, i, PrintWords(ws)) && Has(s, i + |PrintWords(ws)|, PrintRedirs(rs))
    requires AfterExec(At(s, i + |PrintWords(ws)| + |PrintRedirs(rs)|))
    ensures SkipWhite(s, i) == i + 1 && IsPlain(At(s, i + 1))
    ensures ParseArgs(s, argv, [], i + 1)
         == Ok(Wrap(Exec(argv + WordSpans(ws, i)), RedirSpans(rs, i + |PrintWords(ws)|)),
               i + |PrintWords(ws)| + |PrintRedirs(rs)|)
    decreases |ws|
  {
    hide SkipWhite, ParseRedirs, ParseArgs, Has, IsWord, IsPlain, IsWhite, PrintWords, WordSpans, PrintRedirs,
         RedirSpans,
      Stops, AfterExec, Wrap;
    WordsHead(s, i, ws);
    var k := i + 1 + |ws[0]|;
    if ws[1..] == [] {
      LastArg(s, argv, i + 1, ws[0], rs);
      assert WordSpans(ws, i) == [Span(i + 1, k)];
    } else {
      NotPlainSpace();
      OneArg(s, argv, [], i + 1, ws[0]);
      ArgsRound(s, argv + [Span(i + 1, k)], k, ws[1..], rs);
      PlainChar(At(s, k + 1));
      NoRedirs(s, [], k + 1);
      Assoc(argv, [Span(i + 1, k)], WordSpans(ws[1..], k));
    }
  }

  /** The last word and the redirections after it. */
  lemma LastArg(s: string, argv: seq<Span>, p: nat, w: string, rs: seq<Redirect<string>>)
    requires CString(s) && IsWord(w) && WordFiles(rs) && |argv| + 1 < MAXARGS
    requires Has(s, p, w) && Has(s, p + |w|, PrintRedirs(rs)) && AfterExec(At(s, p + |w| + |PrintRedirs(rs)|))
    ensures ParseArgs(s, argv, [], p)
         == Ok(Wrap(Exec(argv + [Span(p, p + |w|)]), RedirSpans(rs, p + |w|)), p + |w| + |PrintRedirs(rs)|)
  {
    hide SkipWhite, ParseRedirs, ParseArgs, Has, IsWord, IsPlain, IsWhite, PrintRedirs, RedirSpans, Stops, AfterExec,
         Wrap;
    var j := p + |w|;
    RedirsStart(s, j, rs);
    OneArg(s, argv, [], p, w);
    SkipWhiteStays(s, j);
    RedirsRound(s, [], j, rs);
    assert [] + RedirSpans(rs, j) == RedirSpans(rs, j);
    ArgsDone(s, argv + [Span(p, j)], RedirSpans(rs, j), j + |PrintRedirs(rs)|);
  }

  lemma NotPlainSpace()
    ensures !IsPlain(' ')
  {
  }

  lemma PlainChar(c: char)
    requires IsPlain(c)
    ensures !IsWhite(c) && c != '<' && c != '>' && c != '(' && !EndsArgs(c)
  {
  }

  function RedirText(s: string, rs: seq<Redirect<Span>>): seq<Redirect<string>> {
    if rs == [] then [] else [Redirect(rs[0].mode, Sub(s, rs[0].file))] + RedirText(s, rs[1..])
  }

  lemma {:induction false} RedirTextAt(s: string, rs: seq<Redirect<Span>>)
    ensures |RedirText(s, rs)| == |rs|
    ensures forall k :: 0 <= k < |rs| ==> RedirText(s, rs)[k] == Redirect(rs[k].mode, Sub(s, rs[k].file))
  {
    if rs != [] {
      RedirTextAt(s, rs[1..]);
    }
  }

  lemma HeadTail<T>(a: seq<T>)
    requires a != []
    ensures a == [a[0]] + a[1..]
  {
  }

  lemma {:induction false} TextWrap(s: string, c: Cmd<Span>, rs: seq<Redirect<Span>>)
    ensures Text(s, Wrap(c, rs)) == Wrap(Text(s, c), RedirText(s, rs))
    decreases |rs|
  {
    if rs != [] {
      var n := |rs| - 1;
      TextWrap(s, c, rs[..n]);
      RedirTextAt(s, rs);
      RedirTextAt(s, rs[..n]);
      assert RedirText(s, rs)[..n] == RedirText(s, rs[..n]);
    }
  }

  lemma HasSub(s: string, i: nat, u: string)
    requires Has(s, i, u)
    ensures Sub(s, Span(i, i + |u|)) == u
  {
  }

  lemma SubsCons(s: string, w: Span, rest: seq<Span>)
    ensures Subs(s, [w] + rest) == [Sub(s, w)] + Subs(s, rest)
  {
    assert ([w] + rest)[1..] == rest;
  }

  lemma RedirTextCons(s: string, r: Redirect<Span>, rest: seq<Redirect<Span>>)
    ensures RedirText(s, [r] + rest) == [Redirect(r.mode, Sub(s, r.file))] + RedirText(s, rest)
  {
    assert ([r] + rest)[1..] == rest;
  }

  lemma WordSplit(s: string, i: nat, ws: seq<string>)
    requires ws != [] && Has(s, i, PrintWords(ws))
    ensures var k := i + 1 + |ws[0]|;
            && Sub(s, Span(i + 1, k)) == ws[0] && Has(s, k, PrintWords(ws[1..]))
            && WordSpans(ws, i) == [Span(i + 1, k)] + WordSpans(ws[1..], k)
  {
    HasSplit(s, i, " " + ws[0], PrintWords(ws[1..]));
    HasSplit(s, i, " ", ws[0]);
    HasSub(s, i + 1, ws[0]);
  }

  lemma {:induction false} WordsText(s: string, i: nat, ws: seq<string>)
    requires Has(s, i, PrintWords(ws))
    ensures Subs(s, WordSpans(ws, i)) == ws
    decreases |ws|
  {
    if ws != [] {
      hide Has, PrintWords, WordSpans, Sub, Subs;
      WordSplit(s, i, ws);
      var k := i + 1 + |ws[0]|;
      WordsText(s, k, ws[1..]);
      SubsCons(s, Span(i + 1, k), WordSpans(ws[1..], k));
      HeadTail(ws);
    }
  }

  lemma RedirSplit(s: string, i: nat, rs: seq<Redirect<string>>)
    requires rs != [] && Has(s, i, PrintRedirs(rs))
    ensures var k := i + 1 + |rs[0].file|;
            && Sub(s, Span(i + 1, k)) == rs[0].file && Has(s, k, PrintRedirs(rs[1..]))
            && RedirSpans(rs, i) == [Redirect(rs[0].mode, Span(i + 1, k))] + RedirSpans(rs[1..], k)
  {
    var f := rs[0].file;
    HasSplit(s, i, Sign(rs[0].mode) + f, PrintRedirs(rs[1..]));
    HasSplit(s, i, Sign(rs[0].mode), f);
    HasSub(s, i + 1, f);
  }

  lemma {:induction false} RedirsText(s: string, i: nat, rs: seq<Redirect<string>>)
    requires Has(s, i, PrintRedirs(rs))
    ensures RedirText(s, RedirSpans(rs, i)) == rs
    decreases |rs|
  {
    if rs != [] {
      hide Has, PrintRedirs, RedirSpans, Sub, RedirText;
      RedirSplit(s, i, rs);
      var k := i + 1 + |rs[0].file|;
      RedirsText(s, k, rs[1..]);
      RedirTextCons(s, Redirect(rs[0].mode, Span(i + 1, k)), RedirSpans(rs[1..], k));
      HeadTail(rs);
    }
  }

  /** The parser's result r is the tree t, and the cursor is at j. */
  predicate Reads(s: string, r: Result<Cmd<Span>>, t: Cmd<string>, j: nat) {
    r.Ok? && r.next == j && Text(s, r.value) == t
  }

  /** A simple command read back. */
  lemma SimpleRound(s: string, i: nat, ws: seq<string>, rs: seq<Redirect<string>>)
    requires CString(s) && Words(ws) && |ws| < MAXARGS && WordFiles(rs)
    requires Has(s, i, PrintWords(ws)) && Has(s, i + |PrintWords(ws)|, PrintRedirs(rs))
    requires AfterExec(At(s, i + |PrintWords(ws)| + |PrintRedirs(rs)|))
    ensures Reads(s, ParseExec(s, i), Wrap(Exec(ws), rs), i + |PrintWords(ws)| + |PrintRedirs(rs)|)
  {
    hide SkipWhite, ParseRedirs, ParseArgs, Has, IsWord, IsPlain, IsWhite, PrintRedirs, RedirSpans, Stops, AfterExec,
         Wrap, Text;
    var j := i + |PrintWords(ws)|;
    var e := j + |PrintRedirs(rs)|;
    RedirsStart(s, j, rs);
    WordsText(s, i, ws);
    RedirsText(s, j, rs);
    TextWrap(s, Exec(WordSpans(ws, i)), RedirSpans(rs, j));
    if ws == [] {
      SkipWhiteStays(s, i);
      RedirsRound(s, [], i, rs);
      assert [] + RedirSpans(rs, i) == RedirSpans(rs, i);
      ArgsDone(s, [], RedirSpans(rs, i), e);
    } else {
      hide PrintWords, WordSpans;
      ArgsRound(s, [], i, ws, rs);
      PlainChar(At(s, i + 1));
      NoRedirs(s, [], i + 1);
      assert [] + WordSpans(ws, i) == WordSpans(ws, i);
    }
    TextExec(s, WordSpans(ws, i));
  }

  lemma TextExec(s: string, argv: seq<Span>)
    ensures Text(s, Exec(argv)) == Exec(Subs(s, argv))
  {
  }

  predicate AfterPipe(c: char) { c == NUL || c == ')' || c == '&' || c == ';' }

  predicate AfterLine(c: char) { c == NUL || c == ')' }

  /** A printed symbol: the next token starts after it. */
  lemma SymbolNext(s: string, i: nat, c: char)
    requires CString(s) && Has(s, i, [c]) && IsSymbol(c) && c != '>'
    ensures At(s, i) == c && SkipWhite(s, i) == i && TokenAt(s, i).next == SkipWhite(s, i + 1) && i + 1 <= |s|
  {
    HasChar(s, i, [c], 0);
    TokenSymbol(s, i);
  }

  /** A command in parentheses, with redirections. */
  lemma BlockRound(s: string, i: nat, b: Cmd<string>, rs: seq<Redirect<string>>)
    requires CString(s) && WellFormed(b) && WordFiles(rs) && Has(s, i, "(" + (PrintLine(b) + ")"))
    requires var j := i + |PrintLine(b)| + 2; Has(s, j, PrintRedirs(rs)) && AfterExec(At(s, j + |PrintRedirs(rs)|))
    requires b.List? || b.Back? || b.Pipe?
    ensures Reads(s, ParseExec(s, i), Wrap(b, rs), i + |PrintLine(b)| + 2 + |PrintRedirs(rs)|)
    decreases Size(b), if b.List? then 2 else 5
  {
    hide SkipWhite, TokenAt, ParseRedirs, ParseLine, ParseExec, Has, PrintLine, PrintRedirs, RedirSpans, Stops,
         AfterExec, Wrap,
      Text, WellFormed, IsWhite, IsPlain, IsSymbol;
    HasSplit(s, i, "(", PrintLine(b) + ")");
    HasSplit(s, i + 1, PrintLine(b), ")");
    var e := i + 1 + |PrintLine(b)|;
    SymbolChars();
    SymbolNext(s, i, '(');
    SymbolNext(s, e, ')');
    LineRound(s, i + 1, b);
    BlockRedirs(s, e + 1, rs);
    BlockUnfold(s, i, e, RedirSpans(rs, e + 1), e + 1 + |PrintRedirs(rs)|);
    TextWrap(s, ParseLine(s, i + 1).value, RedirSpans(rs, e + 1));
  }

  lemma BlockRedirs(s: string, j: nat, rs: seq<Redirect<string>>)
    requires CString(s) && WordFiles(rs) && Has(s, j, PrintRedirs(rs)) && AfterExec(At(s, j + |PrintRedirs(rs)|))
    ensures ParseRedirs(s, [], j) == Ok(RedirSpans(rs, j), j + |PrintRedirs(rs)|)
    ensures RedirText(s, RedirSpans(rs, j)) == rs
  {
    hide ParseRedirs, Has, PrintRedirs, RedirSpans, Stops, AfterExec, RedirText;
    RedirsStart(s, j, rs);
    RedirsRound(s, [], j, rs);
    assert [] + RedirSpans(rs, j) == RedirSpans(rs, j);
    RedirsText(s, j, rs);
  }

  /** parseblock(), given what its parts read. */
  lemma BlockUnfold(s: string, i: nat, e: nat, rs: seq<Redirect<Span>>, j: nat)
    requires CString(s) && i + 1 <= |s| && At(s, i) == '(' && SkipWhite(s, i) == i
    requires TokenAt(s, i).next == SkipWhite(s, i + 1)
    requires ParseLine(s, i + 1).Ok? && ParseLine(s, i + 1).next == e && e + 1 <= |s|
    requires At(s, e) == ')' && SkipWhite(s, e) == e && TokenAt(s, e).next == SkipWhite(s, e + 1)
    requires ParseRedirs(s, [], e + 1) == Ok(rs, j)
    ensures ParseExec(s, i) == Ok(Wrap(ParseLine(s, i + 1).value, rs), j)
  {
    hide SkipWhite, TokenAt, ParseRedirs, ParseLine, ParsePipe, ParseArgs, Wrap;
    assert ParseExec(s, i) == ParseBlock(s, i);
    hide ParseExec;
    SkipFirst(s, i + 1);
    SkipFirst(s, e + 1);
  }

  lemma SymbolChars()
    ensures IsSymbol('(') && IsSymbol(')') && IsSymbol('|') && IsSymbol('&') && IsSymbol(';')
    ensures !IsWhite('(') && !IsWhite(')') && !IsWhite('|') && !IsWhite('&') && !IsWhite(';') && !IsWhite(NUL)
  {
  }

  lemma ExecRound(s: string, i: nat, t: Cmd<string>)
    requires CString(s) && WellFormed(t) && Has(s, i, PrintExec(t)) && AfterExec(At(s, i + |PrintExec(t)|))
    ensures Reads(s, ParseExec(s, i), t, i + |PrintExec(t)|)
    decreases Size(t), if t.Exec? || t.Redir? then 1 else 6
  {
    hide Has, PrintRedirs, AfterExec, Wrap, Text, Reads, ParseExec, PrintLine, PrintWords, PrintExec, Redirs,
         WellFormed,
      Words, WordFiles;
    var b, rs := Base(t), Redirs(t);
    WrapBase(t);
    ExecParts(s, i, t);
    if b.Exec? {
      SimpleRound(s, i, b.argv, rs);
    } else {
      BlockRound(s, i, b, rs);
    }
  }

  lemma ExecParts(s: string, i: nat, t: Cmd<string>)
    requires WellFormed(t) && Has(s, i, PrintExec(t))
    ensures var b, rs := Base(t), Redirs(t);
            && WellFormed(b) && WordFiles(rs)
            && if b.Exec? then
                 && Words(b.argv) && |b.argv| < MAXARGS && |PrintExec(t)| == |PrintWords(b.argv)| + |PrintRedirs(rs)|
                 && Has(s, i, PrintWords(b.argv)) && Has(s, i + |PrintWords(b.argv)|, PrintRedirs(rs))
               else
                 && |PrintExec(t)| == |PrintLine(b)| + 2 + |PrintRedirs(rs)|
                 && Has(s, i, "(" + (PrintLine(b) + ")")) && Has(s, i + |PrintLine(b)| + 2, PrintRedirs(rs))
  {
    var b, rs := Base(t), Redirs(t);
    WellFormedBase(t);
    hide Has, PrintRedirs, PrintLine, PrintWords, Redirs;
    if b.Exec? {
      HasSplit(s, i, PrintWords(b.argv), PrintRedirs(rs));
    } else {
      HasSplit(s, i, "(" + (PrintLine(b) + ")"), PrintRedirs(rs));
    }
  }

  lemma PipeRound(s: string, i: nat, t: Cmd<string>)
    requires CString(s) && WellFormed(t) && Has(s, i, PrintPipe(t)) && AfterPipe(At(s, i + |PrintPipe(t)|))
    ensures Reads(s, ParsePipe(s, i), t, i + |PrintPipe(t)|)
    decreases Size(t), if t.List? || t.Back? then 7 else 2
  {
    hide SkipWhite, TokenAt, ParseExec, ParsePipe, Has, PrintExec, WellFormed, IsWhite, IsSymbol;
    SymbolChars();
    if t.Pipe? {
      WellFormedParts(t);
      HasSplit(s, i, PrintExec(t.left), "|" + PrintPipe(t.right));
      var k := i + |PrintExec(t.left)|;
      HasSplit(s, k, "|", PrintPipe(t.right));
      SymbolNext(s, k, '|');
      ExecRound(s, i, t.left);
      PipeRound(s, k + 1, t.right);
      PipeUnfold(s, i, k);
    } else {
      ExecRound(s, i, t);
      SkipWhiteStays(s, i + |PrintPipe(t)|);
      PipeUnfold(s, i, i + |PrintPipe(t)|);
    }
  }

  /** parsepipe(), given where its first command ends. */
  lemma PipeUnfold(s: string, i: nat, k: nat)
    requires CString(s) && i <= |s| && k <= |s| && ParseExec(s, i).Ok? && ParseExec(s, i).next == k
             && SkipWhite(s, k) == k
    ensures At(s, k) != '|' ==> ParsePipe(s, i) == Ok(ParseExec(s, i).value, k)
    ensures At(s, k) == '|' && TokenAt(s, k).next == SkipWhite(s, k + 1) && ParsePipe(s, k + 1).Ok? ==>
              ParsePipe(s, i) == Ok(Pipe(ParseExec(s, i).value, ParsePipe(s, k + 1).value), ParsePipe(s, k + 1).next)
  {
    hide SkipWhite, TokenAt, ParseExec;
    if At(s, k) == '|' {
      SkipFirst(s, k + 1);
    }
  }

  lemma WellFormedParts(t: Cmd<string>)
    requires WellFormed(t)
    ensures t.Pipe? || t.List? ==> WellFormed(t.left) && WellFormed(t.right)
    ensures t.Back? ==> WellFormed(t.cmd)
  {
  }

  /** A pipeline with its ampersands: what is left is to go on reading ampersands from c. */
  lemma BackRound(s: string, i: nat, t: Cmd<string>) returns (c: Cmd<Span>)
    requires CString(s) && WellFormed(t) && Has(s, i, PrintBack(t)) && AfterPipe(At(s, i + |PrintBack(t)|))
    ensures i + |PrintBack(t)| <= |s| && Text(s, c) == t
    ensures var p := ParsePipe(s, i);
            p.Ok? && ParseBacks(s, p.value, p.next) == ParseBacks(s, c, i + |PrintBack(t)|)
    decreases Size(t), 3
  {
    hide SkipWhite, TokenAt, ParsePipe, ParseExec, PrintLine, PrintPipe, WellFormed, IsWhite, IsSymbol, IsPlain;
    SymbolChars();
    if t.Back? {
      WellFormedParts(t);
      HasSplit(s, i, PrintBack(t.cmd), "&");
      var k := i + |PrintBack(t.cmd)|;
      SymbolNext(s, k, '&');
      var c1 := BackRound(s, i, t.cmd);
      c := Back(c1);
      BacksSkip(s, c, k + 1);
    } else if t.List? {
      hide Has;
      assert PrintBack(t) == "(" + (PrintLine(t) + ")") && |PrintBack(t)| == |PrintLine(t)| + 2;
      var j := i + |PrintBack(t)|;
      EmptyRedirs(s, j);
      BlockRound(s, i, t, []);
      SkipWhiteStays(s, j);
      PipeUnfold(s, i, j);
      c := ParsePipe(s, i).value;
    } else {
      hide Has;
      PipeRound(s, i, t);
      c := ParsePipe(s, i).value;
    }
  }

  lemma EmptyRedirs(s: string, j: nat)
    requires j <= |s|
    ensures Has(s, j, PrintRedirs([])) && PrintRedirs([]) == "" && forall b: Cmd<string> :: Wrap(b, []) == b
  {
  }

  lemma BacksSkip(s: string, c: Cmd<Span>, i: nat)
    requires CString(s) && i <= |s|
    ensures ParseBacks(s, c, SkipWhite(s, i)) == ParseBacks(s, c, i)
  {
    SkipTwice(s, i);
  }

  lemma LineRound(s: string, i: nat, t: Cmd<string>)
    requires CString(s) && WellFormed(t) && Has(s, i, PrintLine(t)) && AfterLine(At(s, i + |PrintLine(t)|))
    ensures Reads(s, ParseLine(s, i), t, i + |PrintLine(t)|)
    decreases Size(t), if t.List? then 0 else 4
  {
    hide SkipWhite, TokenAt, ParsePipe, ParseBacks, ParseLine, Has, PrintBack, WellFormed, IsWhite, IsSymbol;
    SymbolChars();
    if t.List? {
      WellFormedParts(t);
      HasSplit(s, i, PrintBack(t.left), ";" + PrintLine(t.right));
      var k := i + |PrintBack(t.left)|;
      HasSplit(s, k, ";", PrintLine(t.right));
      SymbolNext(s, k, ';');
      var c := BackRound(s, i, t.left);
      LineRound(s, k + 1, t.right);
      LineUnfold(s, i, c, k);
    } else {
      var c := BackRound(s, i, t);
      SkipWhiteStays(s, i + |PrintLine(t)|);
      LineUnfold(s, i, c, i + |PrintLine(t)|);
    }
  }

  /** parseline(), once its ampersands are read. */
  lemma LineUnfold(s: string, i: nat, c: Cmd<Span>, k: nat)
    requires CString(s) && i <= |s| && k <= |s| && ParsePipe(s, i).Ok?
    requires ParseBacks(s, ParsePipe(s, i).value, ParsePipe(s, i).next) == ParseBacks(s, c, k)
    requires SkipWhite(s, k) == k && At(s, k) != '&'
    ensures At(s, k) != ';' ==> ParseLine(s, i) == Ok(c, k)
    ensures At(s, k) == ';' && TokenAt(s, k).next == SkipWhite(s, k + 1) && ParseLine(s, k + 1).Ok? ==>
              ParseLine(s, i) == Ok(List(c, ParseLine(s, k + 1).value), ParseLine(s, k + 1).next)
  {
    assert ParseBacks(s, c, k) == Ok(c, k);
    hide SkipWhite, TokenAt, ParsePipe, ParseBacks;
    if At(s, k) == ';' {
      SkipFirst(s, k + 1);
    }
  }

  lemma TokenWordText(s: string, w: Span)
    requires IsToken(s, w)
    ensures IsWord(Sub(s, w))
  {
    forall k | 0 <= k < |Sub(s, w)|
      ensures IsPlain(Sub(s, w)[k])
    {
      assert Sub(s, w)[k] == s[w.q + k];
    }
  }

  lemma {:induction false} TextWellFormed(s: string, c: Cmd<Span>)
    requires TreeTokens(s, c)
    ensures WellFormed(Text(s, c))
  {
    match c {
      case Exec(argv) =>
        SubsAt(s, argv);
        forall k | 0 <= k < |argv|
          ensures IsWord(Subs(s, argv)[k])
        {
          TokenWordText(s, argv[k]);
        }
      case Redir(c1, _, file) => TextWellFormed(s, c1); TokenWordText(s, file);
      case Pipe(l, r) => TextWellFormed(s, l); TextWellFormed(s, r);
      case List(l, r) => TextWellFormed(s, l); TextWellFormed(s, r);
      case Back(c1) => TextWellFormed(s, c1);
    }
  }

  /** Whatever the line, the tree it parses to is well-formed, and printing that tree and parsing again
      gives the same tree. */
  lemma ParsedReprints(s: string)
    requires CString(s) && ParseCmd(s).Ok?
    ensures var t := Text(s, ParseCmd(s).value);
            && WellFormed(t) && CString(PrintLine(t)) && ParseCmd(PrintLine(t)).Ok?
            && Text(PrintLine(t), ParseCmd(PrintLine(t)).value) == t
  {
    LineTokens(s, 0);
    hide ParseLine, Text, WellFormed, PrintLine;
    TextWellFormed(s, ParseCmd(s).value);
    RoundTrip(Text(s, ParseCmd(s).value));
  }

  /** A tree comes back from its printed form exactly if it is well-formed. */
  lemma RoundTripIff(t: Cmd<string>)
    ensures WellFormed(t) <==>
            && CString(PrintLine(t)) && ParseCmd(PrintLine(t)).Ok?
            && Text(PrintLine(t), ParseCmd(PrintLine(t)).value) == t
  {
    hide ParseLine, Text, PrintLine;
    if WellFormed(t) {
      RoundTrip(t);
    } else if CString(PrintLine(t)) && ParseCmd(PrintLine(t)).Ok? {
      ParsedReprints(PrintLine(t));
    }
  }

  /** Printing a tree and parsing the line gives back the tree. */
  lemma RoundTrip(t: Cmd<string>)
    requires WellFormed(t)
    ensures CString(PrintLine(t))
    ensures ParseCmd(PrintLine(t)).Ok? && Text(PrintLine(t), ParseCmd(PrintLine(t)).value) == t
  {
    var s := PrintLine(t);
    PrintLineC(t);
    hide PrintLine, ParseLine, Text;
    LineRound(s, 0, t);
  }

  // ---- the parser as it runs: a cursor over the line ----

  lemma RedirsSkip(s: string, rs: seq<Redirect<Span>>, i: nat)
    requires CString(s) && i <= |s|
    ensures ParseRedirs(s, rs, SkipWhite(s, i)) == ParseRedirs(s, rs, i)
  {
    SkipTwice(s, i);
  }

  lemma ArgsSkip(s: string, argv: seq<Span>, rs: seq<Redirect<Span>>, i: nat)
    requires CString(s) && i <= |s|
    ensures ParseArgs(s, argv, rs, SkipWhite(s, i)) == ParseArgs(s, argv, rs, i)
  {
    SkipTwice(s, i);
  }

  class Parser {
    const s: string
    var ps: nat

    ghost predicate Valid()
      reads this
    {
      CString(s) && ps <= |s|
    }

    constructor (s: string)
      requires CString(s)
      ensures Valid() && this.s == s && ps == 0
    {
      this.s, ps := s, 0;
    }

    /** while(s < es && strchr(whitespace, *s)) s++; */
    method Skip()
      requires Valid()
      modifies this
      ensures Valid() && ps == SkipWhite(s, old(ps))
    {
      while ps < |s| && IsWhite(s[ps])
        invariant ps <= |s| && SkipWhite(s, ps) == SkipWhite(s, old(ps))
      {
        ps := ps + 1;
      }
    }

    method Gettoken() returns (tok: char, q: nat, eq: nat)
      requires Valid()
      modifies this
      ensures Valid() && Token(tok, q, eq, ps) == TokenAt(s, old(ps))
    {
      Skip();
      q := ps;
      tok := At(s, ps);
      if tok == NUL {
      } else if tok == '|' || tok == '(' || tok == ')' || tok == ';' || tok == '&' || tok == '<' {
        ps := ps + 1;
      } else if tok == '>' {
        ps := ps + 1;
        if At(s, ps) == '>' {
          tok := '+';
          ps := ps + 1;
        }
      } else {
        tok := 'a';
        while ps < |s| && !IsWhite(s[ps]) && !IsSymbol(s[ps])
          invariant q <= ps <= |s| && WordEnd(s, ps) == WordEnd(s, q)
        {
          ps := ps + 1;
        }
      }
      eq := ps;
      Skip();
    }

    method Peek(toks: string) returns (r: bool)
      requires Valid()
      modifies this
      ensures Valid() && ps == SkipWhite(s, old(ps)) && (r <==> At(s, ps) != NUL && At(s, ps) in toks)
    {
      Skip();
      r := At(s, ps) != NUL && At(s, ps) in toks;
    }

    method Redirects(rs0: seq<Redirect<Span>>) returns (r: Result<seq<Redirect<Span>>>)
      requires Valid()
      modifies this
      ensures Valid() && r == ParseRedirs(s, rs0, old(ps)) && (r.Ok? ==> ps == r.next)
    {
      hide SkipWhite, TokenAt;
      var rs := rs0;
      RedirsSkip(s, rs, ps);
      var more := Peek("<>");
      while more
        invariant Valid() && SkipWhite(s, ps) == ps && ParseRedirs(s, rs, ps) == ParseRedirs(s, rs0, old(ps))
        invariant more <==> At(s, ps) == '<' || At(s, ps) == '>'
        decreases |s| - ps
      {
        var tok, _, _ := Gettoken();
        var kind, q, eq := Gettoken();
        if kind != 'a' {
          return Err("missing file for redirection");
        }
        rs := rs + [Redirect(if tok == '<' then In else Out, Span(q, eq))];
        RedirsSkip(s, rs, ps);
        SkipTwice(s, ps);
        more := Peek("<>");
      }
      r := Ok(rs, ps);
    }

    method Simple() returns (r: Result<Cmd<Span>>)
      requires Valid() && SkipWhite(s, ps) == ps && At(s, ps) != '('
      modifies this
      ensures Valid() && r == ParseExec(s, old(ps)) && (r.Ok? ==> ps == r.next)
    {
      hide SkipWhite, TokenAt, ParseRedirs, Wrap;
      var argv: seq<Span> := [];
      var res := Redirects([]);
      if res.Err? {
        return Err(res.msg);
      }
      var rs := res.value;
      ArgsSkip(s, argv, rs, ps);
      SkipTwice(s, ps);
      var stop := Peek("|)&;");
      while !stop
        invariant Valid() && SkipWhite(s, ps) == ps && ParseArgs(s, argv, rs, ps) == ParseExec(s, old(ps))
        invariant stop <==> EndsArgs(At(s, ps))
        decreases |s| - ps
      {
        var tok, q, eq := Gettoken();
        if tok == NUL {
          return Ok(Wrap(Exec(argv), rs), ps);
        }
        if tok != 'a' {
          return Err("syntax");
        }
        if |argv| + 1 >= MAXARGS {
          return Err("too many args");
        }
        res := Redirects(rs);
        if res.Err? {
          return Err(res.msg);
        }
        argv, rs := argv + [Span(q, eq)], res.value;
        ArgsSkip(s, argv, rs, ps);
        SkipTwice(s, ps);
        stop := Peek("|)&;");
      }
      r := Ok(Wrap(Exec(argv), rs), ps);
    }

    method ExecCmd() returns (r: Result<Cmd<Span>>)
      requires Valid()
      modifies this
      ensures Valid() && r == ParseExec(s, old(ps)) && (r.Ok? ==> ps == r.next)
      decreases |s| - ps, 1
    {
      SkipFirst(s, ps);
      SkipTwice(s, ps);
      var open := Peek("(");
      if open {
        r := Block();
      } else {
        r := Simple();
      }
    }

    method Block() returns (r: Result<Cmd<Span>>)
      requires Valid()
      modifies this
      ensures Valid() && r == ParseBlock(s, old(ps)) && (r.Ok? ==> ps == r.next)
      decreases |s| - ps, 0
    {
      hide SkipWhite, TokenAt, ParseRedirs, ParseLine, Wrap;
      var open := Peek("(");
      if !open {
        return Err("parseblock");
      }
      SkipTwice(s, old(ps));
      var _, _, _ := Gettoken();
      r := Line();
      if r.Err? {
        return;
      }
      ghost var j := ps;
      var close := Peek(")");
      if !close {
        return Err("syntax - missing )");
      }
      SkipTwice(s, j);
      var _, _, _ := Gettoken();
      var rs := Redirects([]);
      if rs.Err? {
        return Err(rs.msg);
      }
      r := Ok(Wrap(r.value, rs.value), ps);
    }

    method Pipeline() returns (r: Result<Cmd<Span>>)
      requires Valid()
      modifies this
      ensures Valid() && r == ParsePipe(s, old(ps)) && (r.Ok? ==> ps == r.next)
      decreases |s| - ps, 2
    {
      hide SkipWhite, TokenAt, ParseExec;
      r := ExecCmd();
      if r.Err? {
        return;
      }
      var bar := Peek("|");
      if bar {
        var _, _, _ := Gettoken();
        var right := Pipeline();
        if right.Err? {
          return right;
        }
        r := Ok(Pipe(r.value, right.value), ps);
      } else {
        r := Ok(r.value, ps);
      }
    }

    method Line() returns (r: Result<Cmd<Span>>)
      requires Valid()
      modifies this
      ensures Valid() && r == ParseLine(s, old(ps)) && (r.Ok? ==> ps == r.next)
      decreases |s| - ps, 3
    {
      hide SkipWhite, TokenAt, ParsePipe;
      r := Pipeline();
      if r.Err? {
        return;
      }
      var cmd := Ampersands(r.value);
      var semi := Peek(";");
      if semi {
        var _, _, _ := Gettoken();
        var right := Line();
        if right.Err? {
          return right;
        }
        r := Ok(List(cmd, right.value), ps);
      } else {
        r := Ok(cmd, ps);
      }
    }

    /** while(peek(ps, es, "&")) */
    method Ampersands(c: Cmd<Span>) returns (cmd: Cmd<Span>)
      requires Valid()
      modifies this
      ensures Valid() && Ok(cmd, ps) == ParseBacks(s, c, old(ps))
    {
      hide SkipWhite, TokenAt;
      cmd := c;
      BacksSkip(s, cmd, ps);
      SkipTwice(s, ps);
      var more := Peek("&");
      while more
        invariant Valid() && SkipWhite(s, ps) == ps && ParseBacks(s, cmd, ps) == ParseBacks(s, c, old(ps))
        invariant more <==> At(s, ps) == '&'
        decreases |s| - ps
      {
        var _, _, _ := Gettoken();
        cmd := Back(cmd);
        BacksSkip(s, cmd, ps);
        SkipTwice(s, ps);
        more := Peek("&");
      }
    }
  }

  /** parsecmd() on a line in its buffer: a syntax error leaves the buffer alone; otherwise every word
      of the tree, read as a C string, is its token. */
  method Parsecmd(buf: array<char>, s: string) returns (r: Result<Cmd<Span>>)
    requires CString(s) && buf[..] == s + [NUL]
    modifies buf
    ensures r == ParseCmd(s)
    ensures r.Err? ==> buf[..] == old(buf[..])
    ensures r.Ok? ==> TreeTokens(s, r.value) && CText(buf[..], r.value) == Text(s, r.value)
  {
    var p := new Parser(s);
    r := p.Line();
    if r.Err? {
      return;
    }
    hide ParseLine, SkipWhite, TreeTokens, CText, Text, Ends;
    LineTokens(s, 0);
    var _ := p.Peek("");
    if p.ps != |s| {
      return Err("syntax");
    }
    NulTerminate(buf, r.value, s, {});
    EndsNoPlain(s, r.value);
    CutText(s, buf[..], {} + Ends(r.value), r.value);
  }
}
