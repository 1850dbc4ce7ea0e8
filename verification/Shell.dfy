/** The shell's parser as it runs, over a cursor that moves through the line, and the NULs that
    it writes into the line. */
module Shell {
  import opened Common
  import opened ShellSpec
  import G = ShellGrammar

  // ---- The words of a parsed line ----

  /** All spans of the tree are words, at most nine of them to a command. */
  predicate WordsOk(t: string, cmd: Cmd<Span>) {
    match cmd
    case Exec(args) => |args| < MAXARGS && forall k :: 0 <= k < |args| ==> IsWord(t, args[k])
    case Redir(c, file, _) => WordsOk(t, c) && IsWord(t, file)
    case Pipe(left, right) => WordsOk(t, left) && WordsOk(t, right)
    case List(left, right) => WordsOk(t, left) && WordsOk(t, right)
    case Back(c) => WordsOk(t, c)
  }

  predicate FilesOk(t: string, redirs: seq<Redirect<Span>>) {
    forall k :: 0 <= k < |redirs| ==> IsWord(t, redirs[k].file)
  }

  lemma {:induction false} WrapWords(t: string, cmd: Cmd<Span>, redirs: seq<Redirect<Span>>)
    requires WordsOk(t, cmd) && FilesOk(t, redirs)
    ensures WordsOk(t, Wrap(cmd, redirs))
    decreases |redirs|
  {
    if redirs != [] { WrapWords(t, cmd, redirs[..|redirs| - 1]); }
  }

  lemma {:induction false} RedirsWords(t: string, i: nat, redirs: seq<Redirect<Span>>)
    requires CText(t) && i <= |t| && FilesOk(t, redirs)
    ensures ParseRedirs(t, i, redirs).Some? ==> FilesOk(t, ParseRedirs(t, i, redirs).value.0)
    decreases |t| - i
  {
    hide GetToken, IsWord, Skip;
    var p := Skip(t, i);
    if Sees(t, p, "<>") {
      var tok := GetToken(t, p);
      var word := GetToken(t, tok.next);
      if word.kind == 'a' {
        var mode := if tok.kind == '<' then Input else if tok.kind == '>' then Output else Append;
        RedirsWords(t, word.next, redirs + [Redirect(word.span, mode)]);
      }
    }
  }

  lemma {:induction false} ArgsWords(t: string, i: nat, args: seq<Span>, redirs: seq<Redirect<Span>>)
    requires CText(t) && i <= |t| && WordsOk(t, Exec(args)) && FilesOk(t, redirs)
    ensures ParseArgs(t, i, args, redirs).Some? ==> WordsOk(t, ParseArgs(t, i, args, redirs).value.0)
    decreases |t| - i
  {
    hide GetToken, IsWord, Skip, ParseRedirs;
    WrapWords(t, Exec(args), redirs);
    var p := Skip(t, i);
    if !Sees(t, p, "|)&;") {
      var tok := GetToken(t, p);
      if tok.kind == 'a' && |args| + 1 < MAXARGS {
        RedirsWords(t, tok.next, redirs);
        var rs := ParseRedirs(t, tok.next, redirs);
        if rs.Some? {
          assert WordsOk(t, Exec(args + [tok.span]));
          ArgsWords(t, rs.value.1, args + [tok.span], rs.value.0);
        }
      }
    }
  }

  lemma {:induction false} ExecWords(t: string, i: nat)
    requires CText(t) && i <= |t|
    ensures ParseExec(t, i).Some? ==> WordsOk(t, ParseExec(t, i).value.0)
    decreases |t| - i, 1
  {
    hide GetToken, Skip, ParseRedirs, ParseArgs, Sees;
    var p := Skip(t, i);
    if Sees(t, p, "(") {
      BlockWords(t, p);
    } else {
      RedirsWords(t, p, []);
      var rs := ParseRedirs(t, p, []);
      if rs.Some? { ArgsWords(t, rs.value.1, [], rs.value.0); }
    }
  }

  lemma {:induction false} BlockWords(t: string, i: nat)
    requires CText(t) && i <= |t| && Sees(t, i, "(")
    ensures ParseBlock(t, i).Some? ==> WordsOk(t, ParseBlock(t, i).value.0)
    decreases |t| - i, 0
  {
    hide GetToken, Skip, ParseRedirs, ParseLine, Sees, Wrap;
    SeesToken(t, i, "(");
    var next := GetToken(t, i).next;
    LineWords(t, next);
    var line := ParseLine(t, next);
    if line.Some? {
      var p := Skip(t, line.value.1);
      if Sees(t, p, ")") {
        RedirsWords(t, GetToken(t, p).next, []);
        var rs := ParseRedirs(t, GetToken(t, p).next, []);
        if rs.Some? { WrapWords(t, line.value.0, rs.value.0); }
      }
    }
  }

  lemma {:induction false} PipeWords(t: string, i: nat)
    requires CText(t) && i <= |t|
    ensures ParsePipe(t, i).Some? ==> WordsOk(t, ParsePipe(t, i).value.0)
    decreases |t| - i, 2
  {
    hide GetToken, Skip, ParseExec, Sees;
    ExecWords(t, i);
    var left := ParseExec(t, i);
    if left.Some? {
      var p := Skip(t, left.value.1);
      if Sees(t, p, "|") {
        SeesToken(t, p, "|");
        PipeWords(t, GetToken(t, p).next);
      }
    }
  }

  lemma {:induction false} BacksWords(t: string, i: nat, cmd: Cmd<Span>)
    requires CText(t) && i <= |t| && WordsOk(t, cmd)
    ensures WordsOk(t, ParseBacks(t, i, cmd).0)
    decreases |t| - i
  {
    hide GetToken, Skip, Sees;
    var p := Skip(t, i);
    if Sees(t, p, "&") {
      SeesToken(t, p, "&");
      BacksWords(t, GetToken(t, p).next, Back(cmd));
    }
  }

  lemma {:induction false} LineWords(t: string, i: nat)
    requires CText(t) && i <= |t|
    ensures ParseLine(t, i).Some? ==> WordsOk(t, ParseLine(t, i).value.0)
    decreases |t| - i, 3
  {
    hide GetToken, Skip, ParsePipe, ParseBacks, Sees;
    PipeWords(t, i);
    var pipe := ParsePipe(t, i);
    if pipe.Some? {
      BacksWords(t, pipe.value.1, pipe.value.0);
      var (cmd, j) := ParseBacks(t, pipe.value.1, pipe.value.0);
      var p := Skip(t, j);
      if Sees(t, p, ";") {
        SeesToken(t, p, ";");
        LineWords(t, GetToken(t, p).next);
      }
    }
  }

  lemma SeesToken(t: string, i: nat, toks: string)
    requires CText(t) && Sees(t, i, toks)
    ensures i < GetToken(t, i).next <= |t|
  {
  }

  /** The words of a tree. */
  function WordsOf(cmd: Cmd<Span>): set<Span> {
    match cmd
    case Exec(args) => set w | w in args
    case Redir(c, file, _) => WordsOf(c) + {file}
    case Pipe(left, right) => WordsOf(left) + WordsOf(right)
    case List(left, right) => WordsOf(left) + WordsOf(right)
    case Back(c) => WordsOf(c)
  }

  predicate TokenWord(ts: seq<G.Lex>, w: Span) {
    G.Word(w) in ts
  }

  predicate IsFile(redirs: seq<Redirect<Span>>, w: Span) {
    exists k :: 0 <= k < |redirs| && redirs[k].file == w
  }

  lemma {:induction false} WrapAdds(cmd: Cmd<Span>, redirs: seq<Redirect<Span>>, w: Span)
    ensures w in WordsOf(Wrap(cmd, redirs)) <==> w in WordsOf(cmd) || IsFile(redirs, w)
    decreases |redirs|
  {
    if redirs != [] { WrapAdds(cmd, redirs[..|redirs| - 1], w); }
  }

  lemma OneLex(x: G.Lex, rest: seq<G.Lex>, w: Span)
    ensures TokenWord([x] + rest, w) <==> x == G.Word(w) || TokenWord(rest, w)
  {
  }

  lemma OneFile(r: Redirect<Span>, rest: seq<Redirect<Span>>, w: Span)
    ensures IsFile([r] + rest, w) <==> r.file == w || IsFile(rest, w)
  {
    if k :| 0 <= k < |rest| && rest[k].file == w { assert ([r] + rest)[k + 1].file == w; }
    if k :| 0 < k < |[r] + rest| && ([r] + rest)[k].file == w { assert rest[k - 1].file == w; }
    assert ([r] + rest)[0] == r;
  }

  lemma OneRedir(r: Redirect<Span>, rest: seq<G.Lex>, w: Span)
    ensures TokenWord([G.Sym(G.ModeSign(r.mode))] + ([G.Word(r.file)] + rest), w) <==> w == r.file || TokenWord(rest, w)
  {
    OneLex(G.Word(r.file), rest, w);
    OneLex(G.Sym(G.ModeSign(r.mode)), [G.Word(r.file)] + rest, w);
    hide TokenWord;
  }

  lemma {:induction false} RedirWords(redirs: seq<Redirect<Span>>, rest: seq<G.Lex>, w: Span)
    ensures TokenWord(G.RedirsThen(redirs, rest), w) <==> IsFile(redirs, w) || TokenWord(rest, w)
  {
    if redirs != [] {
      RedirWords(redirs[1..], rest, w);
      OneRedir(redirs[0], G.RedirsThen(redirs[1..], rest), w);
      OneFile(redirs[0], redirs[1..], w);
      assert redirs == [redirs[0]] + redirs[1..];
      hide TokenWord, IsFile;
    }
  }

  lemma {:induction false} ElemWords(elems: seq<G.Elem>, rest: seq<G.Lex>, w: Span)
    ensures TokenWord(G.ElemsThen(elems, rest), w) <==>
              w in G.ArgsIn(elems) || IsFile(G.RedirsIn(elems), w) || TokenWord(rest, w)
  {
    if elems != [] {
      var later := elems[1..];
      ElemWords(later, rest, w);
      hide TokenWord, IsFile;
      if elems[0].Into? {
        OneRedir(elems[0].redir, G.ElemsThen(later, rest), w);
        OneFile(elems[0].redir, G.RedirsIn(later), w);
        assert G.ArgsIn(elems) == G.ArgsIn(later);
      } else {
        OneLex(G.Word(elems[0].word), G.ElemsThen(later, rest), w);
        assert G.RedirsIn(elems) == G.RedirsIn(later);
      }
    } else {
      assert !IsFile([], w);
    }
  }

  lemma {:induction false} TreeWords(syn: G.Syn, rest: seq<G.Lex>, w: Span)
    ensures TokenWord(G.Yield(syn, rest), w) <==> w in WordsOf(G.Meaning(syn)) || TokenWord(rest, w)
    decreases syn
  {
    hide TokenWord, IsFile, Wrap, G.RedirsThen, G.ElemsThen, G.ArgsIn, G.RedirsIn;
    match syn
    case Simple(elems) =>
      ElemWords(elems, rest, w);
      WrapAdds(Exec(G.ArgsIn(elems)), G.RedirsIn(elems), w);
    case Paren(line, redirs) =>
      var inner := G.RedirsThen(redirs, rest);
      RedirWords(redirs, rest, w);
      OneLex(G.Sym(')'), inner, w);
      TreeWords(line, [G.Sym(')')] + inner, w);
      OneLex(G.Sym('('), G.Yield(line, [G.Sym(')')] + inner), w);
      WrapAdds(G.Meaning(line), redirs, w);
    case Piped(left, right) =>
      TreeWords(right, rest, w);
      OneLex(G.Sym('|'), G.Yield(right, rest), w);
      TreeWords(left, [G.Sym('|')] + G.Yield(right, rest), w);
    case Backed(cmd) =>
      OneLex(G.Sym('&'), rest, w);
      TreeWords(cmd, [G.Sym('&')] + rest, w);
    case Listed(left, right) =>
      TreeWords(right, rest, w);
      OneLex(G.Sym(';'), G.Yield(right, rest), w);
      TreeWords(left, [G.Sym(';')] + G.Yield(right, rest), w);
  }

  /** The words of an accepted line are the words of its tree. */
  lemma EveryWordUsed(t: string, w: Span)
    requires CText(t) && ParseCmd(t).Some?
    ensures w in WordsOf(ParseCmd(t).value) <==> TokenWord(G.Lexed(t, 0), w)
  {
    assert !TokenWord([], w);
    hide ParseCmd, CText, G.Lexed, G.Yield, G.Meaning, G.Wellformed, WordsOf, TokenWord;
    G.ParserIsGrammar(t, ParseCmd(t).value);
    var syn :| G.Wellformed(syn) && G.Yield(syn, []) == G.Lexed(t, 0) && G.Meaning(syn) == ParseCmd(t).value;
    TreeWords(syn, [], w);
  }

  // ---- The parser ----

  /** Another word for the innermost simple command. */
  function AddArg(cmd: Cmd<Span>, w: Span): Cmd<Span> {
    match cmd
    case Exec(args) => Exec(args + [w])
    case Redir(c, file, mode) => Redir(AddArg(c, w), file, mode)
    case _ => cmd
  }

  lemma {:induction false} AddArgWrapped(args: seq<Span>, redirs: seq<Redirect<Span>>, w: Span)
    ensures AddArg(Wrap(Exec(args), redirs), w) == Wrap(Exec(args + [w]), redirs)
    decreases |redirs|
  {
    if redirs != [] { AddArgWrapped(args, redirs[..|redirs| - 1], w); }
  }

  lemma WrapMore(cmd: Cmd<Span>, redirs: seq<Redirect<Span>>, r: Redirect<Span>)
    ensures Wrap(cmd, redirs + [r]) == Redir(Wrap(cmd, redirs), r.file, r.mode)
  {
    assert (redirs + [r])[..|redirs|] == redirs;
  }

  lemma RedirsSkip(t: string, i: nat, rs: seq<Redirect<Span>>)
    requires CText(t) && i <= |t|
    ensures ParseRedirs(t, Skip(t, i), rs) == ParseRedirs(t, i, rs) && Skip(t, Skip(t, i)) == Skip(t, i)
  {
    hide GetToken, Sees;
  }

  lemma RedirsStep(t: string, p: nat, rs: seq<Redirect<Span>>)
    requires CText(t) && p <= |t| && Skip(t, p) == p
    ensures !Sees(t, p, "<>") ==> ParseRedirs(t, p, rs) == Some((rs, p))
    ensures Sees(t, p, "<>") ==>
              var tok := GetToken(t, p);
              var word := GetToken(t, tok.next);
              p < word.next && ParseRedirs(t, p, rs) ==
                if word.kind != 'a' then None
                else
                  var mode := if tok.kind == '<' then Input else if tok.kind == '>' then Output else Append;
                  ParseRedirs(t, word.next, rs + [Redirect(word.span, mode)])
  {
    hide GetToken, Skip;
  }

  /** The method's result and cursor are what the grammar says, or both panic. */
  ghost predicate Agrees(r: Option<Cmd<Span>>, pos: nat, spec: Parsed) {
    if r.Some? then spec == Some((r.value, pos)) else spec.None?
  }

  class Parser {
    const text: string
    var pos: nat

    ghost predicate Valid()
      reads this
    {
      CText(text) && pos <= |text|
    }

    constructor (text: string)
      requires CText(text)
      ensures Valid() && this.text == text && pos == 0
    {
      this.text, pos := text, 0;
    }

    method SkipBlanks()
      requires Valid()
      modifies this
      ensures Valid() && pos == Skip(text, old(pos))
    {
      while pos < |text| && IsBlank(text[pos])
        invariant Valid() && Skip(text, pos) == Skip(text, old(pos))
      {
        pos := pos + 1;
      }
    }

    method Token() returns (tok: ShellSpec.Token)
      requires Valid()
      modifies this
      ensures Valid() && tok == GetToken(text, old(pos)) && pos == tok.next
    {
      SkipBlanks();
      var start := pos;
      var c := At(text, pos);
      var kind := c;
      if c == NUL {
      } else if c == '|' || c == '(' || c == ')' || c == ';' || c == '&' || c == '<' {
        pos := pos + 1;
      } else if c == '>' {
        pos := pos + 1;
        if At(text, pos) == '>' {
          kind := '+';
          pos := pos + 1;
        }
      } else {
        kind := 'a';
        while pos < |text| && !IsBlank(text[pos]) && !IsSymbol(text[pos])
          invariant Valid() && WordEnd(text, pos) == WordEnd(text, start)
        {
          pos := pos + 1;
        }
      }
      var end := pos;
      SkipBlanks();
      tok := ShellSpec.Token(kind, Span(start, end), pos);
    }

    method Peek(toks: string) returns (seen: bool)
      requires Valid()
      modifies this
      ensures Valid() && pos == Skip(text, old(pos)) && seen == Sees(text, pos, toks)
    {
      SkipBlanks();
      seen := pos < |text| && text[pos] in toks;
    }

    /** Redirections wrap the command so far, which is `base` under `redirs`. */
    method Redirs(cmd: Cmd<Span>, ghost base: Cmd<Span>, ghost redirs: seq<Redirect<Span>>)
      returns (r: Option<Cmd<Span>>)
      requires Valid() && cmd == Wrap(base, redirs)
      modifies this
      ensures Valid() && old(pos) <= pos
      ensures var spec := ParseRedirs(text, old(pos), redirs);
              if r.None? then spec.None? else spec.Some? && r.value == Wrap(base, spec.value.0) && pos == spec.value.1
    {
      hide GetToken, Skip, Sees, Wrap, ParseRedirs;
      var ret := cmd;
      ghost var rs := redirs;
      var more := Peek("<>");
      RedirsSkip(text, old(pos), rs);
      while more
        invariant Valid() && old(pos) <= pos && ret == Wrap(base, rs) && more == Sees(text, pos, "<>")
        invariant pos == Skip(text, pos)
        invariant ParseRedirs(text, pos, rs) == ParseRedirs(text, old(pos), redirs)
        decreases |text| - pos, more
      {
        RedirsStep(text, pos, rs);
        var tok := Token();
        var word := Token();
        if word.kind != 'a' {
          return None;
        }
        var mode := if tok.kind == '<' then Input else if tok.kind == '>' then Output else Append;
        WrapMore(base, rs, Redirect(word.span, mode));
        ret := Redir(ret, word.span, mode);
        rs := rs + [Redirect(word.span, mode)];
        RedirsSkip(text, pos, rs);
        more := Peek("<>");
      }
      RedirsStep(text, pos, rs);
      r := Some(ret);
    }

    /** Words and redirections up to | ) & ; or the end. */
    method Args(start: Cmd<Span>, ghost redirs: seq<Redirect<Span>>) returns (r: Option<Cmd<Span>>)
      requires Valid() && start == Wrap(Exec([]), redirs)
      modifies this
      ensures Valid() && old(pos) <= pos && Agrees(r, pos, ParseArgs(text, old(pos), [], redirs))
    {
      hide GetToken, Skip, Sees, Wrap, ParseRedirs;
      var ret, argc := start, 0;
      ghost var args: seq<Span>, rs := [], redirs;
      var stop := Peek("|)&;");
      while !stop
        invariant Valid() && old(pos) <= pos && argc == |args| && ret == Wrap(Exec(args), rs)
        invariant stop == Sees(text, pos, "|)&;") && pos == Skip(text, pos)
        invariant ParseArgs(text, pos, args, rs) == ParseArgs(text, old(pos), [], redirs)
        decreases |text| - pos
      {
        var tok := Token();
        if tok.kind == NUL {
          return Some(ret);
        }
        if tok.kind != 'a' {
          return None;
        }
        AddArgWrapped(args, rs, tok.span);
        ret, argc, args := AddArg(ret, tok.span), argc + 1, args + [tok.span];
        if argc >= MAXARGS {
          return None;
        }
        ghost var spec := ParseRedirs(text, pos, rs);
        var wrapped := Redirs(ret, Exec(args), rs);
        if wrapped.None? {
          return None;
        }
        ret, rs := wrapped.value, spec.value.0;
        stop := Peek("|)&;");
      }
      r := Some(ret);
    }

    method Simple() returns (r: Option<Cmd<Span>>)
      requires Valid()
      modifies this
      ensures Valid() && old(pos) <= pos && Agrees(r, pos, ParseExec(text, old(pos)))
      decreases |text| - pos, 1
    {
      hide GetToken, Skip, Sees, ParseRedirs, ParseArgs, ParseBlock;
      var block := Peek("(");
      if block {
        r := Block();
        return;
      }
      var empty: Cmd<Span> := Exec([]);
      assert Wrap(empty, []) == empty;
      hide Wrap;
      ghost var spec := ParseRedirs(text, pos, []);
      r := Redirs(empty, empty, []);
      if r.Some? {
        r := Args(r.value, spec.value.0);
      }
    }

    method Block() returns (r: Option<Cmd<Span>>)
      requires Valid() && Sees(text, pos, "(")
      modifies this
      ensures Valid() && old(pos) <= pos && Agrees(r, pos, ParseBlock(text, old(pos)))
      decreases |text| - pos, 0
    {
      hide GetToken, Skip, ParseRedirs, ParseLine;
      SeesToken(text, pos, "(");
      hide Sees;
      var _ := Token();
      var line := Line();
      if line.None? {
        return None;
      }
      var close := Peek(")");
      if !close {
        return None;
      }
      var _ := Token();
      assert Wrap(line.value, []) == line.value;
      hide Wrap;
      r := Redirs(line.value, line.value, []);
    }

    method Piped() returns (r: Option<Cmd<Span>>)
      requires Valid()
      modifies this
      ensures Valid() && old(pos) <= pos && Agrees(r, pos, ParsePipe(text, old(pos)))
      decreases |text| - pos, 2
    {
      hide GetToken, Skip, Sees, ParseExec;
      r := Simple();
      if r.None? {
        return;
      }
      var bar := Peek("|");
      if bar {
        SeesToken(text, pos, "|");
        var _ := Token();
        var right := Piped();
        r := if right.None? then None else Some(Pipe(r.value, right.value));
      }
    }

    method Line() returns (r: Option<Cmd<Span>>)
      requires Valid()
      modifies this
      ensures Valid() && old(pos) <= pos && Agrees(r, pos, ParseLine(text, old(pos)))
      decreases |text| - pos, 3
    {
      hide GetToken, Skip, Sees, ParsePipe, ParseBacks;
      var piped := Piped();
      if piped.None? {
        return None;
      }
      var cmd := Backs(piped.value);
      var semi := Peek(";");
      if semi {
        SeesToken(text, pos, ";");
        var _ := Token();
        var rest := Line();
        return if rest.None? then None else Some(List(cmd, rest.value));
      }
      r := Some(cmd);
    }

    method Backs(start: Cmd<Span>) returns (cmd: Cmd<Span>)
      requires Valid()
      modifies this
      ensures Valid() && old(pos) <= pos && (cmd, pos) == ParseBacks(text, old(pos), start)
    {
      hide GetToken, Skip, Sees;
      cmd := start;
      var back := Peek("&");
      while back
        invariant Valid() && old(pos) <= pos && back == Sees(text, pos, "&") && pos == Skip(text, pos)
        invariant ParseBacks(text, pos, cmd) == ParseBacks(text, old(pos), start)
        decreases |text| - pos, back
      {
        SeesToken(text, pos, "&");
        var _ := Token();
        cmd := Back(cmd);
        back := Peek("&");
      }
    }

    /** The whole line; None if the shell panics. */
    method Command() returns (r: Option<Cmd<Span>>)
      requires Valid() && pos == 0
      modifies this
      ensures Valid() && r == ParseCmd(text) && (r.Some? ==> WordsOk(text, r.value))
      ensures forall cmd :: r == Some(cmd) <==> G.Means(G.Lexed(text, 0), cmd)
    {
      LineWords(text, 0);
      forall cmd ensures ParseCmd(text) == Some(cmd) <==> G.Means(G.Lexed(text, 0), cmd) {
        G.ParserIsGrammar(text, cmd);
      }
      hide ParseLine, WordsOk, G.Means, G.Lexed;
      r := Line();
      if r.Some? {
        var _ := Peek("");
        if pos != |text| {
          r := None;
        }
      }
    }
  }

  // ---- NUL termination ----

  /** Where nulterminate writes. */
  function Ends(cmd: Cmd<Span>): set<nat> {
    match cmd
    case Exec(args) => set w | w in args :: w.end
    case Redir(c, file, _) => Ends(c) + {file.end}
    case Pipe(left, right) => Ends(left) + Ends(right)
    case List(left, right) => Ends(left) + Ends(right)
    case Back(c) => Ends(c)
  }

  lemma {:induction false} EndsOfWords(t: string, cmd: Cmd<Span>)
    requires WordsOk(t, cmd)
    ensures forall w :: w in WordsOf(cmd) ==> IsWord(t, w) && w.end in Ends(cmd)
    ensures forall e :: e in Ends(cmd) ==> e <= |t| && (e < |t| ==> !IsWordChar(t[e]))
    decreases cmd
  {
    match cmd
    case Exec(args) =>
    case Redir(c, file, _) => EndsOfWords(t, c);
    case Pipe(left, right) => EndsOfWords(t, left); EndsOfWords(t, right);
    case List(left, right) => EndsOfWords(t, left); EndsOfWords(t, right);
    case Back(c) => EndsOfWords(t, c);
  }

  method NulTerminate(cmd: Cmd<Span>, buf: array<char>)
    requires forall e :: e in Ends(cmd) ==> e < buf.Length
    modifies buf
    ensures forall x :: 0 <= x < buf.Length ==> buf[x] == if x in Ends(cmd) then NUL else old(buf[x])
    decreases cmd
  {
    match cmd
    case Exec(args) =>
      for i := 0 to |args|
        invariant forall x :: 0 <= x < buf.Length ==>
                    buf[x] == if (exists k :: 0 <= k < i && args[k].end == x) then NUL else old(buf[x])
      {
        assert args[i].end in Ends(cmd);
        buf[args[i].end] := NUL;
      }
    case Redir(c, file, _) =>
      assert Ends(cmd) == Ends(c) + {file.end};
      NulTerminate(c, buf);
      buf[file.end] := NUL;
    case Pipe(left, right) =>
      assert Ends(cmd) == Ends(left) + Ends(right);
      NulTerminate(left, buf);
      NulTerminate(right, buf);
    case List(left, right) =>
      assert Ends(cmd) == Ends(left) + Ends(right);
      NulTerminate(left, buf);
      NulTerminate(right, buf);
    case Back(c) =>
      assert Ends(cmd) == Ends(c);
      NulTerminate(c, buf);
  }

  /** The C string at i is s. */
  predicate CStringAt(buf: seq<char>, i: nat, s: string) {
    && i + |s| < |buf| && buf[i..i + |s|] == s && buf[i + |s|] == NUL
    && forall k :: 0 <= k < |s| ==> s[k] != NUL
  }

  /** Parsing a line and cutting it up makes every word of the tree a C string of its own: no NUL
      falls into another word. */
  method ParseAndCut(buf: array<char>) returns (r: Option<Cmd<Span>>)
    requires buf.Length > 0 && buf[buf.Length - 1] == NUL && CText(buf[..buf.Length - 1])
    modifies buf
    ensures r == ParseCmd(old(buf[..buf.Length - 1]))
    ensures r.Some? ==> forall w :: w in WordsOf(r.value) ==>
              w.start <= w.end < buf.Length && CStringAt(buf[..], w.start, old(buf[w.start..w.end]))
  {
    hide ParseCmd, WordsOk, IsWord, CText, Ends, WordsOf;
    var n := buf.Length - 1;
    var t := buf[..n];
    var parser := new Parser(t);
    r := parser.Command();
    if r.Some? {
      EndsOfWords(t, r.value);
      NulTerminate(r.value, buf);
      forall w | w in WordsOf(r.value)
        ensures w.start <= w.end < buf.Length && CStringAt(buf[..], w.start, old(buf[w.start..w.end]))
      {
        WordRange(t, w);
        CutWord(t, r.value, buf[..], w);
        assert old(buf[w.start..w.end]) == t[w.start..w.end];
      }
    }
  }

  lemma WordRange(t: string, w: Span)
    requires IsWord(t, w)
    ensures w.start <= w.end <= |t|
  {
  }

  lemma CutWord(t: string, cmd: Cmd<Span>, buf: seq<char>, w: Span)
    requires |buf| == |t| + 1 && w in WordsOf(cmd) && IsWord(t, w) && w.end in Ends(cmd)
    requires forall e :: e in Ends(cmd) ==> e <= |t| && (e < |t| ==> !IsWordChar(t[e]))
    requires forall x :: 0 <= x < |buf| ==> buf[x] == if x in Ends(cmd) then NUL else (t + [NUL])[x]
    ensures CStringAt(buf, w.start, t[w.start..w.end])
  {
    assert forall x :: w.start <= x < w.end ==> IsWordChar(t[x]) && x !in Ends(cmd);
    assert buf[w.start..w.end] == t[w.start..w.end];
  }
}
