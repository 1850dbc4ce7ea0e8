/** The language of the shell, as trees over tokens, and the parser's relation to it: it accepts a
    line exactly if the tokens of the line are those of a tree, and gives what the tree means. */
module ShellGrammar {
  import opened Common
  import opened ShellSpec

  // ---- The tokens of a text ----

  datatype Lex = Word(span: Span) | Sym(kind: char)

  function Lexed(t: string, i: nat): seq<Lex>
    requires CText(t) && i <= |t|
    decreases |t| - i
  {
    var tok := GetToken(t, i);
    if tok.kind == NUL then [] else [if tok.kind == 'a' then Word(tok.span) else Sym(tok.kind)] + Lexed(t, tok.next)
  }

  /** The first token is this symbol. */
  predicate Starts(ts: seq<Lex>, c: char) {
    ts != [] && ts[0] == Sym(c)
  }

  predicate StartsRedir(ts: seq<Lex>) {
    Starts(ts, '<') || Starts(ts, '>') || Starts(ts, '+')
  }

  lemma SkipTwice(t: string, i: nat)
    requires i <= |t|
    ensures Skip(t, Skip(t, i)) == Skip(t, i)
  {
  }

  lemma SkipFirst(t: string, i: nat)
    requires CText(t) && i <= |t|
    ensures GetToken(t, Skip(t, i)) == GetToken(t, i) && Lexed(t, Skip(t, i)) == Lexed(t, i)
  {
    SkipTwice(t, i);
  }

  /** What peek sees is the next token. */
  lemma SeesToken(t: string, i: nat)
    requires CText(t) && i <= |t| && Skip(t, i) == i
    ensures Sees(t, i, "(") <==> Starts(Lexed(t, i), '(')
    ensures Sees(t, i, ")") <==> Starts(Lexed(t, i), ')')
    ensures Sees(t, i, "|") <==> Starts(Lexed(t, i), '|')
    ensures Sees(t, i, "&") <==> Starts(Lexed(t, i), '&')
    ensures Sees(t, i, ";") <==> Starts(Lexed(t, i), ';')
    ensures Sees(t, i, "<>") <==> StartsRedir(Lexed(t, i))
    ensures Sees(t, i, "|)&;") <==>
              || Starts(Lexed(t, i), '|') || Starts(Lexed(t, i), ')')
              || Starts(Lexed(t, i), '&') || Starts(Lexed(t, i), ';')
    ensures Lexed(t, i) == [] <==> i == |t|
  {
  }

  lemma OneToken(t: string, i: nat)
    requires CText(t) && i <= |t| && Lexed(t, i) != []
    ensures var tok := GetToken(t, i);
            && i < tok.next <= |t| && Lexed(t, i)[1..] == Lexed(t, tok.next)
            && Lexed(t, i)[0] == (if tok.kind == 'a' then Word(tok.span) else Sym(tok.kind))
            && Lexed(t, i) == [Lexed(t, i)[0]] + Lexed(t, tok.next)
  {
  }

  lemma NoToken(t: string, i: nat)
    requires CText(t) && i <= |t|
    ensures Lexed(t, i) == [] <==> GetToken(t, i).kind == NUL
    ensures Lexed(t, i) != [] && Lexed(t, i)[0].Word? <==> GetToken(t, i).kind == 'a'
  {
  }

  // ---- Nothing of the text is lost ----

  function Spelled(t: string, ts: seq<Lex>): string {
    if ts == [] then ""
    else
      (match ts[0]
       case Word(w) => if w.start <= w.end <= |t| then t[w.start..w.end] else ""
       case Sym(c) => if c == '+' then ">>" else [c]) + Spelled(t, ts[1..])
  }

  function NoBlanks(s: string): string {
    if s == "" then "" else (if IsBlank(s[0]) then "" else [s[0]]) + NoBlanks(s[1..])
  }

  lemma {:induction false} SkipNoBlanks(t: string, i: nat)
    requires i <= |t|
    ensures NoBlanks(t[i..]) == NoBlanks(t[Skip(t, i)..])
    decreases |t| - i
  {
    if i < |t| && IsBlank(t[i]) {
      assert t[i..][1..] == t[i + 1..];
      SkipNoBlanks(t, i + 1);
    }
  }

  lemma {:induction false} SolidNoBlanks(t: string, i: nat, j: nat)
    requires i <= j <= |t| && forall k :: i <= k < j ==> !IsBlank(t[k])
    ensures NoBlanks(t[i..]) == t[i..j] + NoBlanks(t[j..])
    decreases j - i
  {
    if i < j {
      assert t[i..][1..] == t[i + 1..];
      SolidNoBlanks(t, i + 1, j);
      assert t[i..j] == [t[i]] + t[i + 1..j];
    } else {
      assert t[i..j] == "";
    }
  }

  /** The span of a token is its text, with no blank in it. */
  lemma TokenText(t: string, i: nat)
    requires CText(t) && i <= |t| && GetToken(t, i).kind != NUL
    ensures var tok := GetToken(t, i);
            && tok.span.start == Skip(t, i) && tok.next == Skip(t, tok.span.end)
            && (forall k :: tok.span.start <= k < tok.span.end ==> !IsBlank(t[k]))
            && (tok.kind != 'a' ==> t[tok.span.start..tok.span.end] == (if tok.kind == '+' then ">>" else [tok.kind]))
  {
    var s := Skip(t, i);
    if t[s] == '>' && At(t, s + 1) == '>' {
      assert t[s..s + 2] == [t[s], t[s + 1]];
    } else if IsSymbol(t[s]) {
      assert t[s..s + 1] == [t[s]];
    }
  }

  /** The tokens spell the text, blanks apart: no character is dropped, added or moved. */
  lemma {:induction false} TokensSpellText(t: string, i: nat)
    requires CText(t) && i <= |t|
    ensures Spelled(t, Lexed(t, i)) == NoBlanks(t[i..])
    decreases |t| - i
  {
    SkipNoBlanks(t, i);
    var tok := GetToken(t, i);
    if tok.kind == NUL {
      assert t[Skip(t, i)..] == "";
    } else {
      TokenText(t, i);
      OneToken(t, i);
      SolidNoBlanks(t, tok.span.start, tok.span.end);
      SkipNoBlanks(t, tok.span.end);
      TokensSpellText(t, tok.next);
    }
  }

  // ---- The language ----

  /** A word or a redirection of a simple command, in the order of the text. */
  datatype Elem = Arg(word: Span) | Into(redir: Redirect<Span>)

  datatype Syn =
    | Simple(elems: seq<Elem>)
    | Paren(line: Syn, redirs: seq<Redirect<Span>>)
    | Piped(left: Syn, right: Syn)
    | Backed(cmd: Syn)
    | Listed(left: Syn, right: Syn)

  function ArgsIn(elems: seq<Elem>): seq<Span> {
    if elems == [] then [] else (if elems[0].Arg? then [elems[0].word] else []) + ArgsIn(elems[1..])
  }

  function RedirsIn(elems: seq<Elem>): seq<Redirect<Span>> {
    if elems == [] then [] else (if elems[0].Into? then [elems[0].redir] else []) + RedirsIn(elems[1..])
  }

  /** How tightly a tree binds: commands, then pipelines, then &, then lists. */
  function LevelOf(syn: Syn): nat {
    match syn
    case Simple(_) => 3
    case Paren(_, _) => 3
    case Piped(_, _) => 2
    case Backed(_) => 1
    case Listed(_, _) => 0
  }

  /** Pipelines and lists nest to the right, & to the left; a command has at most nine words. */
  predicate Wellformed(syn: Syn) {
    match syn
    case Simple(elems) => |ArgsIn(elems)| < MAXARGS
    case Paren(line, _) => Wellformed(line)
    case Piped(left, right) => Wellformed(left) && Wellformed(right) && LevelOf(left) == 3 && LevelOf(right) >= 2
    case Backed(cmd) => Wellformed(cmd) && LevelOf(cmd) >= 1
    case Listed(left, right) => Wellformed(left) && Wellformed(right) && LevelOf(left) >= 1
  }

  function ModeSign(mode: Mode): char {
    if mode.Input? then '<' else if mode.Output? then '>' else '+'
  }

  /** The tokens of redirections, and then others. */
  function RedirsThen(rs: seq<Redirect<Span>>, rest: seq<Lex>): seq<Lex> {
    if rs == [] then rest else [Sym(ModeSign(rs[0].mode))] + ([Word(rs[0].file)] + RedirsThen(rs[1..], rest))
  }

  function ElemsThen(elems: seq<Elem>, rest: seq<Lex>): seq<Lex> {
    if elems == [] then rest
    else if elems[0].Arg? then [Word(elems[0].word)] + ElemsThen(elems[1..], rest)
    else [Sym(ModeSign(elems[0].redir.mode))] + ([Word(elems[0].redir.file)] + ElemsThen(elems[1..], rest))
  }

  /** The tokens of a tree, and then others. */
  function Yield(syn: Syn, rest: seq<Lex>): seq<Lex> {
    match syn
    case Simple(elems) => ElemsThen(elems, rest)
    case Paren(line, redirs) => [Sym('(')] + Yield(line, [Sym(')')] + RedirsThen(redirs, rest))
    case Piped(left, right) => Yield(left, [Sym('|')] + Yield(right, rest))
    case Backed(cmd) => Yield(cmd, [Sym('&')] + rest)
    case Listed(left, right) => Yield(left, [Sym(';')] + Yield(right, rest))
  }

  /** The command that a tree stands for: redirections wrap, the first innermost. */
  function Meaning(syn: Syn): Cmd<Span> {
    match syn
    case Simple(elems) => Wrap(Exec(ArgsIn(elems)), RedirsIn(elems))
    case Paren(line, redirs) => Wrap(Meaning(line), redirs)
    case Piped(left, right) => Pipe(Meaning(left), Meaning(right))
    case Backed(cmd) => Back(Meaning(cmd))
    case Listed(left, right) => List(Meaning(left), Meaning(right))
  }

  /** The tokens are those of a tree that means cmd. */
  ghost predicate Means(ts: seq<Lex>, cmd: Cmd<Span>) {
    exists syn :: Wellformed(syn) && Yield(syn, []) == ts && Meaning(syn) == cmd
  }

  // ---- The parser, one token at a time ----

  function After(t: string, i: nat): (j: nat)
    requires CText(t) && i <= |t|
    ensures i <= j <= |t| && (Lexed(t, i) != [] ==> i < j && Lexed(t, j) == Lexed(t, i)[1..])
  {
    GetToken(t, i).next
  }

  function ModeOf(kind: char): Mode {
    if kind == '<' then Input else if kind == '>' then Output else Append
  }

  lemma RedirsStep(t: string, i: nat, rs: seq<Redirect<Span>>)
    requires CText(t) && i <= |t|
    ensures var ts, r := Lexed(t, i), ParseRedirs(t, i, rs);
            && (!StartsRedir(ts) ==> r.Some? && r.value.0 == rs && Lexed(t, r.value.1) == ts)
            && (StartsRedir(ts) && (|ts| < 2 || !ts[1].Word?) ==> r.None?)
            && (StartsRedir(ts) && |ts| >= 2 && ts[1].Word? ==>
                  r == ParseRedirs(t, After(t, After(t, i)), rs + [Redirect(ts[1].span, ModeOf(ts[0].kind))]))
  {
    hide Skip, GetToken, Lexed, Sees, CText;
    var p := Skip(t, i);
    SkipFirst(t, i);
    SkipTwice(t, i);
    SeesToken(t, p);
    if StartsRedir(Lexed(t, i)) {
      OneToken(t, i);
      NoToken(t, After(t, i));
      if Lexed(t, After(t, i)) != [] { OneToken(t, After(t, i)); }
    }
  }

  predicate EndsArgs(ts: seq<Lex>) {
    ts == [] || Starts(ts, '|') || Starts(ts, ')') || Starts(ts, '&') || Starts(ts, ';')
  }

  lemma ArgsStep(t: string, i: nat, args: seq<Span>, redirs: seq<Redirect<Span>>)
    requires CText(t) && i <= |t|
    ensures var ts, r := Lexed(t, i), ParseArgs(t, i, args, redirs);
            && (EndsArgs(ts) ==> r.Some? && r.value.0 == Wrap(Exec(args), redirs) && Lexed(t, r.value.1) == ts)
            && (!EndsArgs(ts) && (!ts[0].Word? || |args| + 1 >= MAXARGS) ==> r.None?)
            && (!EndsArgs(ts) && ts[0].Word? && |args| + 1 < MAXARGS ==>
                  var rs := ParseRedirs(t, After(t, i), redirs);
                  r == if rs.None? then None else ParseArgs(t, rs.value.1, args + [ts[0].span], rs.value.0))
  {
    SkipFirst(t, i);
    SeesToken(t, Skip(t, i));
    NoToken(t, i);
    NoToken(t, |t|);
    SeesToken(t, |t|);
  }

  lemma ExecStep(t: string, i: nat)
    requires CText(t) && i <= |t|
    ensures var ts, p, r := Lexed(t, i), Skip(t, i), ParseExec(t, i);
            && Lexed(t, p) == ts
            && (Starts(ts, '(') ==> Sees(t, p, "(") && r == ParseBlock(t, p))
            && (!Starts(ts, '(') ==>
                  var rs := ParseRedirs(t, p, []);
                  r == if rs.None? then None else ParseArgs(t, rs.value.1, [], rs.value.0))
  {
    SkipFirst(t, i);
    SeesToken(t, Skip(t, i));
  }

  lemma BlockStep(t: string, i: nat)
    requires CText(t) && i <= |t| && Sees(t, i, "(")
    ensures var line, r := ParseLine(t, After(t, i)), ParseBlock(t, i);
            && Starts(Lexed(t, i), '(') && (line.None? ==> r.None?)
            && (line.Some? ==>
                  var rs := ParseRedirs(t, After(t, line.value.1), []);
                  r == if !Starts(Lexed(t, line.value.1), ')') || rs.None? then None
                       else Some((Wrap(line.value.0, rs.value.0), rs.value.1)))
  {
    SeesToken(t, i);
    var line := ParseLine(t, After(t, i));
    if line.Some? {
      SkipFirst(t, line.value.1);
      SeesToken(t, Skip(t, line.value.1));
    }
  }

  lemma PipeStep(t: string, i: nat)
    requires CText(t) && i <= |t|
    ensures var left, r := ParseExec(t, i), ParsePipe(t, i);
            && (left.None? ==> r.None?)
            && (left.Some? ==>
                  var ts, right := Lexed(t, left.value.1), ParsePipe(t, After(t, left.value.1));
                  && (!Starts(ts, '|') ==> r.Some? && r.value.0 == left.value.0 && Lexed(t, r.value.1) == ts)
                  && (Starts(ts, '|') ==>
                        r == if right.None? then None else Some((Pipe(left.value.0, right.value.0), right.value.1))))
  {
    var left := ParseExec(t, i);
    if left.Some? {
      SkipFirst(t, left.value.1);
      SeesToken(t, Skip(t, left.value.1));
    }
  }

  lemma BacksStep(t: string, i: nat, cmd: Cmd<Span>)
    requires CText(t) && i <= |t|
    ensures var ts, r := Lexed(t, i), ParseBacks(t, i, cmd);
            && (Starts(ts, '&') ==> r == ParseBacks(t, After(t, i), Back(cmd)))
            && (!Starts(ts, '&') ==> r.0 == cmd && Lexed(t, r.1) == ts)
  {
    SkipFirst(t, i);
    SeesToken(t, Skip(t, i));
  }

  lemma LineStep(t: string, i: nat)
    requires CText(t) && i <= |t|
    ensures var pipe, r := ParsePipe(t, i), ParseLine(t, i);
            && (pipe.None? ==> r.None?)
            && (pipe.Some? ==>
                  var (cmd, j) := ParseBacks(t, pipe.value.1, pipe.value.0);
                  var ts, rest := Lexed(t, j), ParseLine(t, After(t, j));
                  && (!Starts(ts, ';') ==> r.Some? && r.value.0 == cmd && Lexed(t, r.value.1) == ts)
                  && (Starts(ts, ';') ==>
                        r == if rest.None? then None else Some((List(cmd, rest.value.0), rest.value.1))))
  {
    var pipe := ParsePipe(t, i);
    if pipe.Some? {
      var j := ParseBacks(t, pipe.value.1, pipe.value.0).1;
      SkipFirst(t, j);
      SeesToken(t, Skip(t, j));
    }
  }

  lemma CmdStep(t: string)
    requires CText(t)
    ensures var line := ParseLine(t, 0);
            ParseCmd(t) == if line.Some? && Lexed(t, line.value.1) == [] then Some(line.value.0) else None
  {
    var line := ParseLine(t, 0);
    if line.Some? {
      SkipFirst(t, line.value.1);
      SeesToken(t, Skip(t, line.value.1));
    }
  }

  // ---- What the parser accepts is in the language ----

  /** From i to j the text is a command of this level. */
  ghost predicate Derives(t: string, i: nat, cmd: Cmd<Span>, j: nat, level: nat)
    requires CText(t) && i <= |t| && j <= |t|
  {
    exists syn ::
      Wellformed(syn) && LevelOf(syn) >= level && Meaning(syn) == cmd && Lexed(t, i) == Yield(syn, Lexed(t, j))
  }

  lemma {:induction false} RedirsSound(t: string, i: nat, rs: seq<Redirect<Span>>)
    requires CText(t) && i <= |t| && ParseRedirs(t, i, rs).Some?
    ensures var (all, j) := ParseRedirs(t, i, rs).value;
            |rs| <= |all| && all == rs + all[|rs|..] && Lexed(t, i) == RedirsThen(all[|rs|..], Lexed(t, j))
    decreases |t| - i
  {
    hide ParseRedirs, Lexed, GetToken, CText;
    RedirsStep(t, i, rs);
    var ts := Lexed(t, i);
    if !StartsRedir(ts) {
      assert rs[|rs|..] == [];
    } else {
      var r := Redirect(ts[1].span, ModeOf(ts[0].kind));
      var k := After(t, After(t, i));
      var (all, j) := ParseRedirs(t, k, rs + [r]).value;
      RedirsSound(t, k, rs + [r]);
      OneMoreRedir(rs, r, all);
      hide RedirsThen;
      RedirsThenCons(r, all[|rs| + 1..], Lexed(t, j));
      TwoTokens(ts);
    }
  }

  lemma OneMoreRedir(rs: seq<Redirect<Span>>, r: Redirect<Span>, all: seq<Redirect<Span>>)
    requires |rs| < |all| && all == rs + [r] + all[|rs| + 1..]
    ensures all == rs + all[|rs|..] && all[|rs|..] == [r] + all[|rs| + 1..]
  {
  }

  lemma TwoTokens(ts: seq<Lex>)
    requires |ts| >= 2
    ensures ts == [ts[0]] + ([ts[1]] + ts[1..][1..])
  {
  }

  lemma RedirsThenCons(r: Redirect<Span>, rs: seq<Redirect<Span>>, rest: seq<Lex>)
    ensures RedirsThen([r] + rs, rest) == [Sym(ModeSign(r.mode))] + ([Word(r.file)] + RedirsThen(rs, rest))
  {
    assert ([r] + rs)[0] == r && ([r] + rs)[1..] == rs;
  }

  /** Redirections in front of a simple command. */
  function Prefixed(rs: seq<Redirect<Span>>, elems: seq<Elem>): seq<Elem> {
    if rs == [] then elems else [Into(rs[0])] + Prefixed(rs[1..], elems)
  }

  lemma IntoThen(r: Redirect<Span>, elems: seq<Elem>, rest: seq<Lex>)
    ensures ArgsIn([Into(r)] + elems) == ArgsIn(elems) && RedirsIn([Into(r)] + elems) == [r] + RedirsIn(elems)
    ensures ElemsThen([Into(r)] + elems, rest) == [Sym(ModeSign(r.mode))] + ([Word(r.file)] + ElemsThen(elems, rest))
  {
    assert ([Into(r)] + elems)[0] == Into(r) && ([Into(r)] + elems)[1..] == elems;
  }

  lemma ArgThen(w: Span, elems: seq<Elem>, rest: seq<Lex>)
    ensures ArgsIn([Arg(w)] + elems) == [w] + ArgsIn(elems) && RedirsIn([Arg(w)] + elems) == RedirsIn(elems)
    ensures ElemsThen([Arg(w)] + elems, rest) == [Word(w)] + ElemsThen(elems, rest)
  {
    assert ([Arg(w)] + elems)[0] == Arg(w) && ([Arg(w)] + elems)[1..] == elems;
  }

  lemma {:induction false} PrefixedIs(rs: seq<Redirect<Span>>, elems: seq<Elem>, rest: seq<Lex>)
    ensures ArgsIn(Prefixed(rs, elems)) == ArgsIn(elems) && RedirsIn(Prefixed(rs, elems)) == rs + RedirsIn(elems)
    ensures ElemsThen(Prefixed(rs, elems), rest) == RedirsThen(rs, ElemsThen(elems, rest))
  {
    if rs == [] {
      assert rs + RedirsIn(elems) == RedirsIn(elems);
    } else {
      hide ArgsIn, RedirsIn, ElemsThen;
      PrefixedIs(rs[1..], elems, rest);
      IntoThen(rs[0], Prefixed(rs[1..], elems), rest);
      assert [rs[0]] + (rs[1..] + RedirsIn(elems)) == rs + RedirsIn(elems);
    }
  }

  ghost predicate Gathers(t: string, i: nat, args: seq<Span>, redirs: seq<Redirect<Span>>, cmd: Cmd<Span>, j: nat)
    requires CText(t) && i <= |t| && j <= |t|
  {
    exists elems ::
      && cmd == Wrap(Exec(args + ArgsIn(elems)), redirs + RedirsIn(elems))
      && |args| + |ArgsIn(elems)| < MAXARGS && Lexed(t, i) == ElemsThen(elems, Lexed(t, j))
  }

  lemma GathersNone(t: string, i: nat, args: seq<Span>, redirs: seq<Redirect<Span>>, j: nat)
    requires CText(t) && i <= |t| && j <= |t| && Lexed(t, i) == Lexed(t, j) && |args| < MAXARGS
    ensures Gathers(t, i, args, redirs, Wrap(Exec(args), redirs), j)
  {
    hide Lexed, CText, Wrap;
    var elems: seq<Elem> := [];
    assert args + ArgsIn(elems) == args && redirs + RedirsIn(elems) == redirs;
    assert ElemsThen(elems, Lexed(t, j)) == Lexed(t, j);
  }

  lemma Regroup<T>(a: seq<T>, b: seq<T>, c: seq<T>)
    ensures a + b + c == a + (b + c)
  {
  }

  /** A word, the redirections after it, and the rest of the command. */
  lemma GathersMore(t: string, i: nat, args: seq<Span>, redirs: seq<Redirect<Span>>, w: Span, more: seq<Redirect<Span>>,
                    k: nat, cmd: Cmd<Span>, j: nat)
    requires CText(t) && i <= |t| && k <= |t| && j <= |t| && Lexed(t, i) == [Word(w)] + RedirsThen(more, Lexed(t, k))
    requires Gathers(t, k, args + [w], redirs + more, cmd, j)
    ensures Gathers(t, i, args, redirs, cmd, j)
  {
    hide Lexed, CText, Wrap, ArgsIn, RedirsIn, ElemsThen, RedirsThen, Prefixed;
    var rest :| && cmd == Wrap(Exec(args + [w] + ArgsIn(rest)), redirs + more + RedirsIn(rest))
                && |args + [w]| + |ArgsIn(rest)| < MAXARGS && Lexed(t, k) == ElemsThen(rest, Lexed(t, j));
    var elems := [Arg(w)] + Prefixed(more, rest);
    PrefixedIs(more, rest, Lexed(t, j));
    ArgThen(w, Prefixed(more, rest), Lexed(t, j));
    Regroup(args, [w], ArgsIn(rest));
    Regroup(redirs, more, RedirsIn(rest));
    assert ArgsIn(elems) == [w] + ArgsIn(rest) && RedirsIn(elems) == more + RedirsIn(rest);
  }

  lemma {:induction false} ArgsSound(t: string, i: nat, args: seq<Span>, redirs: seq<Redirect<Span>>)
    requires CText(t) && i <= |t| && |args| < MAXARGS && ParseArgs(t, i, args, redirs).Some?
    ensures var (cmd, j) := ParseArgs(t, i, args, redirs).value; Gathers(t, i, args, redirs, cmd, j)
    decreases |t| - i
  {
    hide ParseArgs, ParseRedirs, Lexed, GetToken, CText, Gathers, RedirsThen, Wrap;
    ArgsStep(t, i, args, redirs);
    var ts := Lexed(t, i);
    var (cmd, j) := ParseArgs(t, i, args, redirs).value;
    if EndsArgs(ts) {
      GathersNone(t, i, args, redirs, j);
    } else {
      RedirsSound(t, After(t, i), redirs);
      var (all, k) := ParseRedirs(t, After(t, i), redirs).value;
      ArgsSound(t, k, args + [ts[0].span], all);
      assert ts == [Word(ts[0].span)] + Lexed(t, After(t, i));
      GathersMore(t, i, args, redirs, ts[0].span, all[|redirs|..], k, cmd, j);
    }
  }

  lemma SimpleDerives(t: string, i: nat, rs: seq<Redirect<Span>>, k: nat, cmd: Cmd<Span>, j: nat)
    requires CText(t) && i <= |t| && k <= |t| && j <= |t| && Lexed(t, i) == RedirsThen(rs, Lexed(t, k))
    requires Gathers(t, k, [], rs, cmd, j)
    ensures Derives(t, i, cmd, j, 3)
  {
    hide Lexed, CText, Wrap, ArgsIn, RedirsIn, ElemsThen, RedirsThen, Prefixed;
    var rest :| && cmd == Wrap(Exec([] + ArgsIn(rest)), rs + RedirsIn(rest)) && |ArgsIn(rest)| < MAXARGS
                && Lexed(t, k) == ElemsThen(rest, Lexed(t, j));
    var syn := Simple(Prefixed(rs, rest));
    PrefixedIs(rs, rest, Lexed(t, j));
    assert [] + ArgsIn(rest) == ArgsIn(rest);
    assert Wellformed(syn) && LevelOf(syn) == 3 && Meaning(syn) == cmd && Lexed(t, i) == Yield(syn, Lexed(t, j));
  }

  lemma ParenDerives(t: string, i: nat, a: nat, line: Cmd<Span>, b: nat, rs: seq<Redirect<Span>>, j: nat)
    requires CText(t) && i <= |t| && a <= |t| && b <= |t| && j <= |t|
    requires Lexed(t, i) == [Sym('(')] + Lexed(t, a) && Derives(t, a, line, b, 0)
    requires Lexed(t, b) == [Sym(')')] + RedirsThen(rs, Lexed(t, j))
    ensures Derives(t, i, Wrap(line, rs), j, 3)
  {
    hide Lexed, CText, Wrap, RedirsThen;
    var inner :| Wellformed(inner) && Meaning(inner) == line && Lexed(t, a) == Yield(inner, Lexed(t, b));
    var syn := Paren(inner, rs);
    assert Wellformed(syn) && LevelOf(syn) == 3 && Meaning(syn) == Wrap(line, rs);
    assert Lexed(t, i) == Yield(syn, Lexed(t, j));
  }

  lemma PipeDerives(t: string, i: nat, left: Cmd<Span>, j: nat, k: nat, right: Cmd<Span>, m: nat)
    requires CText(t) && i <= |t| && j <= |t| && k <= |t| && m <= |t|
    requires Derives(t, i, left, j, 3) && Lexed(t, j) == [Sym('|')] + Lexed(t, k) && Derives(t, k, right, m, 2)
    ensures Derives(t, i, Pipe(left, right), m, 2)
  {
    hide Lexed, CText;
    var l :| Wellformed(l) && LevelOf(l) >= 3 && Meaning(l) == left && Lexed(t, i) == Yield(l, Lexed(t, j));
    var r :| Wellformed(r) && LevelOf(r) >= 2 && Meaning(r) == right && Lexed(t, k) == Yield(r, Lexed(t, m));
    var syn := Piped(l, r);
    assert Wellformed(syn) && LevelOf(syn) == 2 && Meaning(syn) == Pipe(left, right);
    assert Lexed(t, i) == Yield(syn, Lexed(t, m));
  }

  lemma BackDerives(t: string, i: nat, cmd: Cmd<Span>, j: nat, k: nat)
    requires CText(t) && i <= |t| && j <= |t| && k <= |t|
    requires Derives(t, i, cmd, j, 1) && Lexed(t, j) == [Sym('&')] + Lexed(t, k)
    ensures Derives(t, i, Back(cmd), k, 1)
  {
    hide Lexed, CText;
    var c :| Wellformed(c) && LevelOf(c) >= 1 && Meaning(c) == cmd && Lexed(t, i) == Yield(c, Lexed(t, j));
    var syn := Backed(c);
    assert Wellformed(syn) && LevelOf(syn) == 1 && Meaning(syn) == Back(cmd);
    assert Lexed(t, i) == Yield(syn, Lexed(t, k));
  }

  lemma ListDerives(t: string, i: nat, left: Cmd<Span>, j: nat, k: nat, right: Cmd<Span>, m: nat)
    requires CText(t) && i <= |t| && j <= |t| && k <= |t| && m <= |t|
    requires Derives(t, i, left, j, 1) && Lexed(t, j) == [Sym(';')] + Lexed(t, k) && Derives(t, k, right, m, 0)
    ensures Derives(t, i, List(left, right), m, 0)
  {
    hide Lexed, CText;
    var l :| Wellformed(l) && LevelOf(l) >= 1 && Meaning(l) == left && Lexed(t, i) == Yield(l, Lexed(t, j));
    var r :| Wellformed(r) && Meaning(r) == right && Lexed(t, k) == Yield(r, Lexed(t, m));
    var syn := Listed(l, r);
    assert Wellformed(syn) && LevelOf(syn) == 0 && Meaning(syn) == List(left, right);
    assert Lexed(t, i) == Yield(syn, Lexed(t, m));
  }

  lemma Loosely(t: string, i: nat, cmd: Cmd<Span>, j: nat, k: nat, level: nat, looser: nat)
    requires CText(t) && i <= |t| && j <= |t| && k <= |t| && Lexed(t, j) == Lexed(t, k)
    requires looser <= level && Derives(t, i, cmd, j, level)
    ensures Derives(t, i, cmd, k, looser)
  {
    hide Lexed, CText, Yield, Meaning, Wellformed, LevelOf;
  }

  lemma {:induction false} ExecSound(t: string, i: nat)
    requires CText(t) && i <= |t| && ParseExec(t, i).Some?
    ensures var (cmd, j) := ParseExec(t, i).value; Derives(t, i, cmd, j, 3)
    decreases |t| - i, 1
  {
    hide ParseArgs, ParseRedirs, ParseBlock, ParseExec, Lexed, GetToken, CText, Gathers, Derives, Skip;
    ExecStep(t, i);
    var p := Skip(t, i);
    var (cmd, j) := ParseExec(t, i).value;
    if Starts(Lexed(t, i), '(') {
      BlockSound(t, p);
      SameStart(t, p, i, cmd, j, 3);
    } else {
      RedirsSound(t, p, []);
      var (rs, k) := ParseRedirs(t, p, []).value;
      assert rs[0..] == rs;
      ArgsSound(t, k, [], rs);
      SimpleDerives(t, i, rs, k, cmd, j);
    }
  }

  lemma SameStart(t: string, p: nat, i: nat, cmd: Cmd<Span>, j: nat, level: nat)
    requires CText(t) && i <= |t| && p <= |t| && j <= |t| && Lexed(t, p) == Lexed(t, i) && Derives(t, p, cmd, j, level)
    ensures Derives(t, i, cmd, j, level)
  {
    hide Lexed, CText, Yield, Meaning, Wellformed, LevelOf;
  }

  lemma {:induction false} BlockSound(t: string, i: nat)
    requires CText(t) && i <= |t| && Sees(t, i, "(") && ParseBlock(t, i).Some?
    ensures var (cmd, j) := ParseBlock(t, i).value; Derives(t, i, cmd, j, 3)
    decreases |t| - i, 0
  {
    hide ParseLine, ParseRedirs, ParseBlock, Lexed, GetToken, CText, Derives, Sees, After, Wrap, RedirsThen;
    BlockStep(t, i);
    var (line, b) := ParseLine(t, After(t, i)).value;
    LineSound(t, After(t, i));
    var c := After(t, b);
    RedirsSound(t, c, []);
    var (rs, j) := ParseRedirs(t, c, []).value;
    assert rs[0..] == rs;
    ParenDerives(t, i, After(t, i), line, b, rs, j);
  }

  lemma {:induction false} PipeSound(t: string, i: nat)
    requires CText(t) && i <= |t| && ParsePipe(t, i).Some?
    ensures var (cmd, j) := ParsePipe(t, i).value; Derives(t, i, cmd, j, 2)
    decreases |t| - i, 2
  {
    hide ParseExec, ParsePipe, Lexed, GetToken, CText, Derives, After;
    PipeStep(t, i);
    var (cmd, m) := ParsePipe(t, i).value;
    var (left, j) := ParseExec(t, i).value;
    ExecSound(t, i);
    if Starts(Lexed(t, j), '|') {
      PipeSound(t, After(t, j));
      PipeDerives(t, i, left, j, After(t, j), ParsePipe(t, After(t, j)).value.0, m);
    } else {
      Loosely(t, i, cmd, j, m, 3, 2);
    }
  }

  lemma {:induction false} BacksSound(t: string, i: nat, cmd: Cmd<Span>, j: nat)
    requires CText(t) && i <= |t| && j <= |t| && Derives(t, i, cmd, j, 1)
    ensures var (all, k) := ParseBacks(t, j, cmd); Derives(t, i, all, k, 1)
    decreases |t| - j
  {
    hide ParseBacks, Lexed, GetToken, CText, Derives, After;
    BacksStep(t, j, cmd);
    if Starts(Lexed(t, j), '&') {
      BackDerives(t, i, cmd, j, After(t, j));
      BacksSound(t, i, Back(cmd), After(t, j));
    } else {
      Loosely(t, i, cmd, j, ParseBacks(t, j, cmd).1, 1, 1);
    }
  }

  lemma {:induction false} LineSound(t: string, i: nat)
    requires CText(t) && i <= |t| && ParseLine(t, i).Some?
    ensures var (cmd, j) := ParseLine(t, i).value; Derives(t, i, cmd, j, 0)
    decreases |t| - i, 3
  {
    hide ParsePipe, ParseBacks, ParseLine, Lexed, GetToken, CText, Derives, After;
    LineStep(t, i);
    var (all, m) := ParseLine(t, i).value;
    var (first, a) := ParsePipe(t, i).value;
    PipeSound(t, i);
    Loosely(t, i, first, a, a, 2, 1);
    BacksSound(t, i, first, a);
    var (cmd, j) := ParseBacks(t, a, first);
    if Starts(Lexed(t, j), ';') {
      LineSound(t, After(t, j));
      ListDerives(t, i, cmd, j, After(t, j), ParseLine(t, After(t, j)).value.0, m);
    } else {
      Loosely(t, i, cmd, j, m, 1, 0);
    }
  }

  // ---- What is in the language is accepted ----

  /** The parser read cmd and left the tokens in rest. */
  predicate Gives(t: string, r: Parsed, cmd: Cmd<Span>, rest: seq<Lex>)
    requires CText(t)
  {
    r.Some? && r.value.1 <= |t| && r.value.0 == cmd && Lexed(t, r.value.1) == rest
  }

  lemma ModeRound(mode: Mode)
    ensures ModeOf(ModeSign(mode)) == mode
  {
  }

  lemma {:induction false} RedirsComplete(t: string, i: nat, acc: seq<Redirect<Span>>, rs: seq<Redirect<Span>>,
                                          rest: seq<Lex>)
    requires CText(t) && i <= |t| && Lexed(t, i) == RedirsThen(rs, rest) && !StartsRedir(rest)
    ensures var r := ParseRedirs(t, i, acc);
            r.Some? && r.value.1 <= |t| && r.value.0 == acc + rs && Lexed(t, r.value.1) == rest
    decreases |rs|
  {
    hide ParseRedirs, Lexed, GetToken, CText;
    RedirsStep(t, i, acc);
    if rs == [] {
      assert acc + rs == acc;
    } else {
      var ts := Lexed(t, i);
      var k := After(t, After(t, i));
      FirstRedir(rs, rest);
      hide RedirsThen;
      ModeRound(rs[0].mode);
      assert Redirect(ts[1].span, ModeOf(ts[0].kind)) == rs[0];
      assert Lexed(t, k) == ts[1..][1..];
      RedirsComplete(t, k, acc + [rs[0]], rs[1..], rest);
      assert acc + [rs[0]] + rs[1..] == acc + rs;
    }
  }

  lemma FirstRedir(rs: seq<Redirect<Span>>, rest: seq<Lex>)
    requires rs != []
    ensures var ts := RedirsThen(rs, rest);
            && |ts| >= 2 && ts[0] == Sym(ModeSign(rs[0].mode)) && ts[1] == Word(rs[0].file)
            && ts[1..][1..] == RedirsThen(rs[1..], rest) && StartsRedir(ts)
  {
    var tail := [Word(rs[0].file)] + RedirsThen(rs[1..], rest);
    assert tail[1..] == RedirsThen(rs[1..], rest);
    assert RedirsThen(rs, rest) == [Sym(ModeSign(rs[0].mode))] + tail;
    hide RedirsThen;
    assert ([Sym(ModeSign(rs[0].mode))] + tail)[1..] == tail;
  }

  /** The redirections that a simple command, or what is left of it, begins with. */
  function Lead(elems: seq<Elem>): seq<Redirect<Span>> {
    if elems == [] || elems[0].Arg? then [] else [elems[0].redir] + Lead(elems[1..])
  }

  function AfterLead(elems: seq<Elem>): (rest: seq<Elem>)
    ensures |rest| <= |elems| && (rest == [] || rest[0].Arg?)
  {
    if elems == [] || elems[0].Arg? then elems else AfterLead(elems[1..])
  }

  lemma {:induction false} LeadSplits(elems: seq<Elem>)
    ensures elems == Prefixed(Lead(elems), AfterLead(elems))
  {
    if !(elems == [] || elems[0].Arg?) {
      LeadSplits(elems[1..]);
      assert ([elems[0].redir] + Lead(elems[1..]))[1..] == Lead(elems[1..]);
      assert elems == [Into(elems[0].redir)] + elems[1..];
    }
  }

  lemma StartsWord(elems: seq<Elem>, rest: seq<Lex>)
    requires (elems == [] || elems[0].Arg?) && EndsArgs(rest)
    ensures var ts := ElemsThen(elems, rest);
            && !StartsRedir(ts) && (elems == [] ==> ts == rest)
            && (elems != [] ==> ts != [] && ts[0] == Word(elems[0].word) && ts[1..] == ElemsThen(elems[1..], rest))
  {
  }

  lemma {:induction false} ArgsComplete(t: string, i: nat, args: seq<Span>, redirs: seq<Redirect<Span>>,
                                        elems: seq<Elem>, rest: seq<Lex>)
    requires CText(t) && i <= |t| && (elems == [] || elems[0].Arg?) && |args| + |ArgsIn(elems)| < MAXARGS
    requires Lexed(t, i) == ElemsThen(elems, rest) && EndsArgs(rest)
    ensures Gives(t, ParseArgs(t, i, args, redirs), Wrap(Exec(args + ArgsIn(elems)), redirs + RedirsIn(elems)), rest)
    decreases |elems|
  {
    hide ParseArgs, ParseRedirs, Lexed, GetToken, CText, Wrap;
    ArgsStep(t, i, args, redirs);
    StartsWord(elems, rest);
    if elems == [] {
      assert args + ArgsIn(elems) == args && redirs + RedirsIn(elems) == redirs;
    } else {
      var w, more, tail := elems[0].word, Lead(elems[1..]), AfterLead(elems[1..]);
      LeadSplits(elems[1..]);
      PrefixedIs(more, tail, rest);
      assert ArgsIn(elems) == [w] + ArgsIn(tail) && RedirsIn(elems) == more + RedirsIn(tail);
      hide ArgsIn, RedirsIn, Lead, AfterLead, Prefixed;
      StartsWord(tail, rest);
      hide ElemsThen, RedirsThen;
      RedirsComplete(t, After(t, i), redirs, more, ElemsThen(tail, rest));
      var k := ParseRedirs(t, After(t, i), redirs).value.1;
      ArgsComplete(t, k, args + [w], redirs + more, tail, rest);
      Regroup(args, [w], ArgsIn(tail));
      Regroup(redirs, more, RedirsIn(tail));
    }
  }

  lemma SimpleStart(elems: seq<Elem>, rest: seq<Lex>)
    requires EndsArgs(rest)
    ensures !Starts(ElemsThen(elems, rest), '(')
  {
  }

  lemma SimpleComplete(t: string, i: nat, elems: seq<Elem>, rest: seq<Lex>)
    requires CText(t) && i <= |t| && |ArgsIn(elems)| < MAXARGS
    requires Lexed(t, i) == ElemsThen(elems, rest) && EndsArgs(rest)
    ensures Gives(t, ParseExec(t, i), Wrap(Exec(ArgsIn(elems)), RedirsIn(elems)), rest)
  {
    hide ParseArgs, ParseRedirs, ParseBlock, ParseExec, Lexed, GetToken, CText, Wrap, Skip, ArgsIn, RedirsIn, ElemsThen,
         RedirsThen;
    ExecStep(t, i);
    SimpleStart(elems, rest);
    LeadSplits(elems);
    var p, more, tail := Skip(t, i), Lead(elems), AfterLead(elems);
    PrefixedIs(more, tail, rest);
    hide Lead, AfterLead, Prefixed;
    StartsWord(tail, rest);
    RedirsComplete(t, p, [], more, ElemsThen(tail, rest));
    assert [] + more == more && [] + ArgsIn(tail) == ArgsIn(tail);
    ArgsComplete(t, ParseRedirs(t, p, []).value.1, [], more, tail, rest);
  }

  /** What may come after a tree that the parser reads at this level. */
  predicate Follows(rest: seq<Lex>, level: nat) {
    || rest == [] || Starts(rest, ')')
    || (level >= 1 && Starts(rest, ';')) || (level >= 2 && Starts(rest, '&')) || (level >= 3 && Starts(rest, '|'))
  }

  lemma {:induction false} ExecComplete(t: string, i: nat, syn: Syn, rest: seq<Lex>)
    requires CText(t) && i <= |t| && Wellformed(syn) && LevelOf(syn) == 3 && Lexed(t, i) == Yield(syn, rest)
    requires Follows(rest, 3)
    ensures Gives(t, ParseExec(t, i), Meaning(syn), rest)
    decreases syn, 0
  {
    hide ParseExec, Lexed, GetToken, CText, Wrap, Gives, Skip;
    if syn.Simple? {
      SimpleComplete(t, i, syn.elems, rest);
    } else {
      ParenComplete(t, i, syn.line, syn.redirs, rest);
    }
  }

  lemma {:induction false} ParenComplete(t: string, i: nat, line: Syn, redirs: seq<Redirect<Span>>, rest: seq<Lex>)
    requires CText(t) && i <= |t| && Wellformed(line) && Lexed(t, i) == Yield(Paren(line, redirs), rest)
    requires Follows(rest, 3)
    ensures Gives(t, ParseExec(t, i), Wrap(Meaning(line), redirs), rest)
    decreases line, 4
  {
    hide ParseExec, ParseBlock, ParseLine, ParseRedirs, Lexed, GetToken, CText, Wrap, Skip, Meaning, Wellformed,
         RedirsThen, Sees, LevelOf;
    var inner := [Sym(')')] + RedirsThen(redirs, rest);
    assert Lexed(t, i) == [Sym('(')] + Yield(line, inner);
    hide Yield;
    ExecStep(t, i);
    var p := Skip(t, i);
    BlockStep(t, p);
    assert ([Sym('(')] + Yield(line, inner))[1..] == Yield(line, inner);
    LineComplete(t, After(t, p), line, inner);
    var b := ParseLine(t, After(t, p)).value.1;
    assert inner[1..] == RedirsThen(redirs, rest);
    RedirsComplete(t, After(t, b), [], redirs, rest);
    assert [] + redirs == redirs;
  }

  lemma {:induction false} PipeComplete(t: string, i: nat, syn: Syn, rest: seq<Lex>)
    requires CText(t) && i <= |t| && Wellformed(syn) && LevelOf(syn) >= 2 && Lexed(t, i) == Yield(syn, rest)
    requires Follows(rest, 2)
    ensures Gives(t, ParsePipe(t, i), Meaning(syn), rest)
    decreases syn, 1
  {
    hide ParsePipe, ParseExec, Lexed, GetToken, CText;
    PipeStep(t, i);
    if syn.Piped? {
      var after := [Sym('|')] + Yield(syn.right, rest);
      ExecComplete(t, i, syn.left, after);
      var j := ParseExec(t, i).value.1;
      assert after[1..] == Yield(syn.right, rest);
      PipeComplete(t, After(t, j), syn.right, rest);
    } else {
      ExecComplete(t, i, syn, rest);
    }
  }

  /** The parser has read a pipeline and some of its marks, up to k. */
  ghost predicate BacksFrom(t: string, i: nat, cmd: Cmd<Span>, rest: seq<Lex>)
    requires CText(t) && i <= |t|
  {
    && ParsePipe(t, i).Some? && ParsePipe(t, i).value.1 <= |t|
    && exists k :: && 0 <= k <= |t| && Lexed(t, k) == rest
                   && ParseBacks(t, ParsePipe(t, i).value.1, ParsePipe(t, i).value.0) == ParseBacks(t, k, cmd)
  }

  lemma {:induction false} BacksComplete(t: string, i: nat, syn: Syn, rest: seq<Lex>)
    requires CText(t) && i <= |t| && Wellformed(syn) && LevelOf(syn) >= 1 && Lexed(t, i) == Yield(syn, rest)
    requires Follows(rest, 2)
    ensures BacksFrom(t, i, Meaning(syn), rest)
    decreases syn, 2
  {
    hide ParsePipe, ParseBacks, Lexed, GetToken, CText;
    if syn.Backed? {
      var after := [Sym('&')] + rest;
      BacksComplete(t, i, syn.cmd, after);
      var pipe := ParsePipe(t, i).value;
      var k: nat :| k <= |t| && Lexed(t, k) == after
                    && ParseBacks(t, pipe.1, pipe.0) == ParseBacks(t, k, Meaning(syn.cmd));
      BacksStep(t, k, Meaning(syn.cmd));
      assert after[1..] == rest;
    } else {
      PipeComplete(t, i, syn, rest);
    }
  }

  lemma {:induction false} LineComplete(t: string, i: nat, syn: Syn, rest: seq<Lex>)
    requires CText(t) && i <= |t| && Wellformed(syn) && Lexed(t, i) == Yield(syn, rest) && Follows(rest, 0)
    ensures Gives(t, ParseLine(t, i), Meaning(syn), rest)
    decreases syn, 3
  {
    hide ParsePipe, ParseBacks, ParseLine, Lexed, GetToken, CText;
    LineStep(t, i);
    var first := if syn.Listed? then syn.left else syn;
    var after := if syn.Listed? then [Sym(';')] + Yield(syn.right, rest) else rest;
    BacksComplete(t, i, first, after);
    var pipe := ParsePipe(t, i).value;
    var k: nat :| k <= |t| && Lexed(t, k) == after
                  && ParseBacks(t, pipe.1, pipe.0) == ParseBacks(t, k, Meaning(first));
    BacksStep(t, k, Meaning(first));
    if syn.Listed? {
      var j := ParseBacks(t, k, Meaning(first)).1;
      assert after[1..] == Yield(syn.right, rest);
      LineComplete(t, After(t, j), syn.right, rest);
    }
  }

  // ---- The parser and the language ----

  /** The shell accepts a line exactly if its tokens are those of a tree, and gives the command
      that the tree means: nothing is left over, and a line has one meaning. */
  lemma ParserIsGrammar(t: string, cmd: Cmd<Span>)
    requires CText(t)
    ensures ParseCmd(t) == Some(cmd) <==> Means(Lexed(t, 0), cmd)
  {
    hide ParseCmd, ParseLine, Lexed, CText, Yield, Meaning, Wellformed;
    CmdStep(t);
    if ParseCmd(t) == Some(cmd) {
      LineSound(t, 0);
      var j := ParseLine(t, 0).value.1;
      var syn :| Wellformed(syn) && Meaning(syn) == cmd && Lexed(t, 0) == Yield(syn, Lexed(t, j));
    }
    if Means(Lexed(t, 0), cmd) {
      var syn :| Wellformed(syn) && Yield(syn, []) == Lexed(t, 0) && Meaning(syn) == cmd;
      LineComplete(t, 0, syn, []);
    }
  }
}
