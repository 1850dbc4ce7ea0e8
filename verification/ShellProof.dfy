/** The parser undoes a printer that writes parentheses only where the binding of |, & and ;
    needs them. */
module ShellProof {
  import opened Common
  import opened ShellSpec

  // ---- Text of spans ----

  function TextOf(t: string, w: Span): string {
    if w.start <= w.end <= |t| then t[w.start..w.end] else ""
  }

  function TextsOf(t: string, ws: seq<Span>): (r: seq<string>)
    ensures |r| == |ws| && forall i :: 0 <= i < |ws| ==> r[i] == TextOf(t, ws[i])
  {
    if ws == [] then [] else TextsOf(t, ws[..|ws| - 1]) + [TextOf(t, ws[|ws| - 1])]
  }

  /** The tree with each span replaced by its text. */
  function Resolve(t: string, cmd: Cmd<Span>): Cmd<string> {
    match cmd
    case Exec(args) => Exec(TextsOf(t, args))
    case Redir(c, file, mode) => Redir(Resolve(t, c), TextOf(t, file), mode)
    case Pipe(left, right) => Pipe(Resolve(t, left), Resolve(t, right))
    case List(left, right) => List(Resolve(t, left), Resolve(t, right))
    case Back(c) => Back(Resolve(t, c))
  }

  // ---- Printing ----

  predicate Word(w: string) {
    w != "" && forall i :: 0 <= i < |w| ==> IsWordChar(w[i])
  }

  /** What the shell can hold: proper words, at most nine to a command. */
  predicate Printable(cmd: Cmd<string>) {
    match cmd
    case Exec(args) => |args| < MAXARGS && forall i :: 0 <= i < |args| ==> Word(args[i])
    case Redir(c, file, _) => Printable(c) && Word(file)
    case Pipe(left, right) => Printable(left) && Printable(right)
    case List(left, right) => Printable(left) && Printable(right)
    case Back(c) => Printable(c)
  }

  function ShowWords(args: seq<string>): string {
    if args == [] then "" else args[0] + " " + ShowWords(args[1..])
  }

  function Arrow(mode: Mode): string {
    match mode case Input => "<" case Output => ">" case Append => ">>"
  }

  /** What gettoken calls it. */
  function ArrowKind(mode: Mode): char {
    match mode case Input => '<' case Output => '>' case Append => '+'
  }

  /** How a command binds: a list loosest, then &, then a pipeline; a simple command with its
      redirections stands anywhere. */
  function LevelOf(cmd: Cmd<string>): nat {
    match cmd case List(_, _) => 0 case Back(_) => 1 case Pipe(_, _) => 2 case _ => 3
  }

  /** The text of a command where one is expected that binds at least as tightly as `level`. On
      the right of | and ; the same operator may follow; on the left it may not. */
  function Show(cmd: Cmd<string>, level: nat): string
    decreases cmd, level
  {
    if LevelOf(cmd) < level then "(" + Show(cmd, 0) + ")"
    else
      match cmd
      case Exec(args) => ShowWords(args)
      case Redir(c, file, mode) => Show(c, 3) + ShowRedir(Redirect(file, mode))
      case Pipe(left, right) => Show(left, 3) + "|" + Show(right, 2)
      case List(left, right) => Show(left, 1) + ";" + Show(right, 0)
      case Back(c) => Show(c, 1) + "&"
  }

  function ShowRedir(r: Redirect<string>): string {
    Arrow(r.mode) + (r.file + " ")
  }

  function ShowRedirs(rs: seq<Redirect<string>>): string {
    if rs == [] then "" else ShowRedir(rs[0]) + ShowRedirs(rs[1..])
  }

  // ---- Places in the text ----

  /** The string s stands in t at i. */
  predicate Stands(t: string, i: nat, s: string) {
    i + |s| <= |t| && t[i..i + |s|] == s
  }

  lemma StandsSplit(t: string, i: nat, a: string, b: string)
    ensures Stands(t, i, a + b) <==> Stands(t, i, a) && Stands(t, i + |a|, b)
  {
    if Stands(t, i, a + b) {
      assert t[i..i + |a|] == t[i..i + |a + b|][..|a|];
      assert t[i + |a|..i + |a| + |b|] == t[i..i + |a + b|][|a|..];
    }
    if Stands(t, i, a) && Stands(t, i + |a|, b) {
      assert t[i..i + |a + b|] == t[i..i + |a|] + t[i + |a|..i + |a| + |b|];
    }
  }

  lemma StandsChar(t: string, i: nat, s: string, k: nat)
    requires Stands(t, i, s) && k < |s|
    ensures i + k < |t| && t[i + k] == s[k]
  {
    assert t[i..i + |s|][k] == t[i + k];
  }

  /** What may come after a command printed for `level`: the end of the text or a closing
      parenthesis, and a mark that binds more loosely. */
  predicate Ends(t: string, i: nat, level: nat) {
    && i <= |t|
    && (i < |t| ==> t[i] == ')' || (level >= 1 && (t[i] == ';' || t[i] == '&')) || (level >= 3 && t[i] == '|'))
  }

  predicate NoBlank(t: string, i: nat) {
    i <= |t| && (i < |t| ==> !IsBlank(t[i]))
  }

  lemma SkipStays(t: string, i: nat)
    requires i <= |t| && (i < |t| ==> !IsBlank(t[i]))
    ensures Skip(t, i) == i
  {
  }

  /** What peek sees, character by character. */
  lemma SeesIs(t: string, i: nat)
    ensures Sees(t, i, "(") <==> At(t, i) == '('
    ensures Sees(t, i, ")") <==> At(t, i) == ')'
    ensures Sees(t, i, "|") <==> At(t, i) == '|'
    ensures Sees(t, i, "&") <==> At(t, i) == '&'
    ensures Sees(t, i, ";") <==> At(t, i) == ';'
    ensures Sees(t, i, "<>") <==> At(t, i) == '<' || At(t, i) == '>'
    ensures Sees(t, i, "|)&;") <==> At(t, i) == '|' || At(t, i) == ')' || At(t, i) == '&' || At(t, i) == ';'
  {
  }

  // ---- Tokens ----

  lemma OneChar(t: string, i: nat)
    requires CText(t) && i < |t| && IsSymbol(t[i]) && t[i] != '>' && (i + 1 < |t| ==> !IsBlank(t[i + 1]))
    ensures GetToken(t, i) == Token(t[i], Span(i, i + 1), i + 1)
  {
    SkipStays(t, i);
    SkipStays(t, i + 1);
  }

  lemma {:induction false} WordEndIs(t: string, i: nat, j: nat)
    requires i <= j <= |t| && (forall k :: i <= k < j ==> IsWordChar(t[k]))
             && (j < |t| ==> IsBlank(t[j]) || IsSymbol(t[j]))
    ensures WordEnd(t, i) == j
    decreases j - i
  {
    if i < j { WordEndIs(t, i + 1, j); }
  }

  /** A word followed by a blank, and then by something that is not. */
  lemma WordToken(t: string, i: nat, w: string)
    requires CText(t) && Word(w) && Stands(t, i, w + " ")
    requires i + |w| + 1 < |t| ==> !IsBlank(t[i + |w| + 1])
    ensures GetToken(t, i) == Token('a', Span(i, i + |w|), i + |w| + 1) && TextOf(t, Span(i, i + |w|)) == w
  {
    StandsSplit(t, i, w, " ");
    forall k | i <= k < i + |w| ensures IsWordChar(t[k]) { StandsChar(t, i, w, k - i); }
    StandsChar(t, i + |w|, " ", 0);
    SkipStays(t, i);
    WordEndIs(t, i, i + |w|);
    SkipStays(t, i + |w| + 1);
    assert Skip(t, i + |w|) == i + |w| + 1;
  }

  // ---- Redirections ----

  predicate NoBlankOrArrow(t: string, i: nat) {
    NoBlank(t, i) && At(t, i) != '<' && At(t, i) != '>'
  }

  lemma NoRedirs(t: string, i: nat, redirs: seq<Redirect<Span>>)
    requires CText(t) && NoBlankOrArrow(t, i)
    ensures ParseRedirs(t, i, redirs) == Some((redirs, i))
  {
    SkipStays(t, i);
    SeesIs(t, i);
    hide GetToken, Skip, Sees;
  }

  function RedirTexts(t: string, rs: seq<Redirect<Span>>): (r: seq<Redirect<string>>)
    ensures |r| == |rs|
  {
    if rs == [] then []
    else RedirTexts(t, rs[..|rs| - 1]) + [Redirect(TextOf(t, rs[|rs| - 1].file), rs[|rs| - 1].mode)]
  }

  lemma RedirTextsAppend(t: string, rs: seq<Redirect<Span>>, r: Redirect<Span>)
    ensures RedirTexts(t, rs + [r]) == RedirTexts(t, rs) + [Redirect(TextOf(t, r.file), r.mode)]
  {
    assert (rs + [r])[..|rs|] == rs;
  }

  lemma {:induction false} ResolveWrap(t: string, cmd: Cmd<Span>, rs: seq<Redirect<Span>>)
    ensures Resolve(t, Wrap(cmd, rs)) == Wrap(Resolve(t, cmd), RedirTexts(t, rs))
  {
    hide TextOf;
    if rs != [] {
      var n := |rs| - 1;
      ResolveWrap(t, cmd, rs[..n]);
      assert RedirTexts(t, rs)[..n] == RedirTexts(t, rs[..n]);
    }
  }

  lemma ArrowToken(t: string, i: nat, mode: Mode)
    requires CText(t) && Stands(t, i, Arrow(mode)) && i + |Arrow(mode)| < |t| && IsWordChar(t[i + |Arrow(mode)|])
    ensures var r := GetToken(t, i);
            r.next == i + |Arrow(mode)| && r.kind == ArrowKind(mode)
  {
    StandsChar(t, i, Arrow(mode), 0);
    if mode.Append? { StandsChar(t, i, Arrow(mode), 1); }
    SkipStays(t, i);
    SkipStays(t, i + |Arrow(mode)|);
  }

  lemma OneRedir(t: string, i: nat, mode: Mode, k: nat, w: Span, next: nat, acc: seq<Redirect<Span>>)
    requires CText(t) && i < |t| && (t[i] == '<' || t[i] == '>') && k <= |t| && next <= |t|
    requires GetToken(t, i).next == k && GetToken(t, i).kind == ArrowKind(mode)
    requires GetToken(t, k) == Token('a', w, next)
    ensures ParseRedirs(t, i, acc) == ParseRedirs(t, next, acc + [Redirect(w, mode)])
  {
    SkipStays(t, i);
    SeesIs(t, i);
    hide Sees, GetToken, Skip;
  }

  /** One printed redirection. */
  lemma RedirShown(t: string, i: nat, r: Redirect<string>, acc: seq<Redirect<Span>>)
    requires CText(t) && Word(r.file) && Stands(t, i, ShowRedir(r)) && NoBlank(t, i + |ShowRedir(r)|)
    ensures var a := i + |Arrow(r.mode)|;
            var w := Span(a, a + |r.file|);
            && i < |t| && i + |ShowRedir(r)| == a + |r.file| + 1 && TextOf(t, w) == r.file
            && ParseRedirs(t, i, acc) == ParseRedirs(t, i + |ShowRedir(r)|, acc + [Redirect(w, r.mode)])
  {
    hide GetToken, TextOf, ParseRedirs, Stands, Skip;
    var a := i + |Arrow(r.mode)|;
    StandsSplit(t, i, Arrow(r.mode), r.file + " ");
    StandsChar(t, i, Arrow(r.mode), 0);
    StandsChar(t, a, r.file + " ", 0);
    ArrowToken(t, i, r.mode);
    WordToken(t, a, r.file);
    OneRedir(t, i, r.mode, a, Span(a, a + |r.file|), a + |r.file| + 1, acc);
  }

  predicate Files(rs: seq<Redirect<string>>) {
    forall k :: 0 <= k < |rs| ==> Word(rs[k].file)
  }

  lemma ShowRedirsCons(rs: seq<Redirect<string>>)
    requires rs != []
    ensures ShowRedirs(rs) == ShowRedir(rs[0]) + ShowRedirs(rs[1..]) && ShowRedirs(rs) != ""
            && ShowRedirs(rs)[0] in "<>"
  {
  }

  lemma RedirsStart(t: string, i: nat, rs: seq<Redirect<string>>)
    requires Stands(t, i, ShowRedirs(rs)) && NoBlank(t, i + |ShowRedirs(rs)|)
    ensures NoBlank(t, i)
  {
    if rs != [] {
      ShowRedirsCons(rs);
      StandsChar(t, i, ShowRedirs(rs), 0);
    }
  }

  /** All redirections that were printed are read, in order. */
  lemma {:induction false} RedirsShown(t: string, i: nat, rs: seq<Redirect<string>>, acc: seq<Redirect<Span>>)
    requires CText(t) && Files(rs) && Stands(t, i, ShowRedirs(rs)) && NoBlankOrArrow(t, i + |ShowRedirs(rs)|)
    ensures var r := ParseRedirs(t, i, acc);
            r.Some? && r.value.1 == i + |ShowRedirs(rs)| && RedirTexts(t, r.value.0) == RedirTexts(t, acc) + rs
    decreases |rs|
  {
    hide ParseRedirs, RedirTexts, Stands, Skip, TextOf, ShowRedir;
    if rs == [] {
      NoRedirs(t, i, acc);
      assert RedirTexts(t, acc) + rs == RedirTexts(t, acc);
    } else {
      var r, rest := rs[0], rs[1..];
      ShowRedirsCons(rs);
      hide ShowRedirs;
      StandsSplit(t, i, ShowRedir(r), ShowRedirs(rest));
      var k := i + |ShowRedir(r)|;
      RedirsStart(t, k, rest);
      RedirShown(t, i, r, acc);
      var a := i + |Arrow(r.mode)|;
      var w := Redirect(Span(a, a + |r.file|), r.mode);
      RedirTextsAppend(t, acc, w);
      RedirsShown(t, k, rest, acc + [w]);
      assert RedirTexts(t, acc) + [r] + rest == RedirTexts(t, acc) + rs;
    }
  }

  // ---- Simple commands ----

  predicate Words(args: seq<string>) {
    forall k :: 0 <= k < |args| ==> Word(args[k])
  }

  lemma NoWords()
    ensures ShowWords([]) == ""
  {
  }

  lemma ShowWordsCons(args: seq<string>)
    requires args != []
    ensures ShowWords(args) == (args[0] + " ") + ShowWords(args[1..])
  {
  }

  lemma TextsOfAppend(t: string, ws: seq<Span>, w: Span)
    ensures TextsOf(t, ws + [w]) == TextsOf(t, ws) + [TextOf(t, w)]
  {
    assert (ws + [w])[..|ws|] == ws;
  }

  /** Where words stand, a word begins. */
  lemma WordStart(t: string, i: nat, args: seq<string>)
    requires args != [] && Words(args) && Stands(t, i, ShowWords(args))
    ensures i < |t| && IsWordChar(t[i])
  {
    assert Word(args[0]);
    ShowWordsCons(args);
    StandsChar(t, i, ShowWords(args), 0);
  }

  /** A word, and the redirections that were read behind it. */
  lemma ParseOneArg(t: string, i: nat, done: seq<Span>, w: string, rs: seq<Redirect<Span>>, j: nat)
    requires CText(t) && Stands(t, i, w + " ") && Word(w) && NoBlank(t, i + |w| + 1) && |done| + 1 < MAXARGS
    requires ParseRedirs(t, i + |w| + 1, []) == Some((rs, j))
    ensures i <= |t| && ParseArgs(t, i, done, []) == ParseArgs(t, j, done + [Span(i, i + |w|)], rs)
    ensures TextOf(t, Span(i, i + |w|)) == w
  {
    StandsChar(t, i, w + " ", 0);
    SkipStays(t, i);
    WordToken(t, i, w);
    SeesIs(t, i);
    hide GetToken, Skip, ParseRedirs, Sees, TextOf;
  }

  lemma ParseNoArg(t: string, i: nat, done: seq<Span>, rs: seq<Redirect<Span>>)
    requires CText(t) && Ends(t, i, 3)
    ensures ParseArgs(t, i, done, rs) == Some((Wrap(Exec(done), rs), i))
  {
    SkipStays(t, i);
    SeesIs(t, i);
    hide Sees, Skip, Wrap;
  }

  /** The last word and the redirections behind it. */
  lemma LastArg(t: string, i: nat, done: seq<Span>, w: string, rs: seq<Redirect<string>>)
    requires CText(t) && Word(w) && Files(rs) && |done| + 1 < MAXARGS
    requires Stands(t, i, w + " ") && Stands(t, i + |w| + 1, ShowRedirs(rs))
             && Ends(t, i + |w| + 1 + |ShowRedirs(rs)|, 3)
    ensures var r := ParseArgs(t, i, done, []);
            && r.Some? && r.value.1 == i + |w| + 1 + |ShowRedirs(rs)|
            && Resolve(t, r.value.0) == Wrap(Exec(TextsOf(t, done) + [w]), rs)
  {
    hide ParseArgs, ParseRedirs, TextsOf, TextOf, Stands, ShowRedirs, RedirTexts, Wrap;
    var k := i + |w| + 1;
    RedirsStart(t, k, rs);
    RedirsShown(t, k, rs, []);
    var (spans, j) := ParseRedirs(t, k, []).value;
    ParseOneArg(t, i, done, w, spans, j);
    ParseNoArg(t, j, done + [Span(i, i + |w|)], spans);
    TextsOfAppend(t, done, Span(i, i + |w|));
    ResolveWrap(t, Exec(done + [Span(i, i + |w|)]), spans);
    assert RedirTexts(t, []) == [];
    assert [] + rs == rs;
  }

  lemma {:induction false} ParseArgsShown(t: string, i: nat, done: seq<Span>, args: seq<string>,
                                          rs: seq<Redirect<string>>)
    requires CText(t) && args != [] && Words(args) && Files(rs) && |done| + |args| < MAXARGS
    requires Stands(t, i, ShowWords(args)) && Stands(t, i + |ShowWords(args)|, ShowRedirs(rs))
    requires Ends(t, i + |ShowWords(args)| + |ShowRedirs(rs)|, 3)
    ensures var r := ParseArgs(t, i, done, []);
            && r.Some? && r.value.1 == i + |ShowWords(args)| + |ShowRedirs(rs)|
            && Resolve(t, r.value.0) == Wrap(Exec(TextsOf(t, done) + args), rs)
    decreases |args|
  {
    hide ParseArgs, TextsOf, TextOf, Stands, ShowWords, ShowRedirs, Wrap, Resolve, Ends;
    var w, rest := args[0], args[1..];
    assert Word(w);
    ShowWordsCons(args);
    StandsSplit(t, i, w + " ", ShowWords(rest));
    if rest == [] {
      NoWords();
      assert args == [w];
      LastArg(t, i, done, w, rs);
    } else {
      var k := i + |w| + 1;
      WordStart(t, k, rest);
      NoRedirs(t, k, []);
      ParseOneArg(t, i, done, w, [], k);
      TextsOfAppend(t, done, Span(i, i + |w|));
      ParseArgsShown(t, k, done + [Span(i, i + |w|)], rest, rs);
      assert TextsOf(t, done) + [w] + rest == TextsOf(t, done) + args;
    }
  }

  lemma NoBlock(t: string, i: nat, rs: seq<Redirect<Span>>, j: nat)
    requires CText(t) && NoBlank(t, i) && At(t, i) != '(' && ParseRedirs(t, i, []) == Some((rs, j))
    ensures ParseExec(t, i) == ParseArgs(t, j, [], rs)
  {
    SkipStays(t, i);
    SeesIs(t, i);
    hide ParseArgs, ParseRedirs, Sees, Skip, ParseBlock;
  }

  /** A simple command, its words first. */
  lemma SimpleShown(t: string, i: nat, args: seq<string>, rs: seq<Redirect<string>>)
    requires CText(t) && Words(args) && Files(rs) && |args| < MAXARGS
    requires Stands(t, i, ShowWords(args)) && Stands(t, i + |ShowWords(args)|, ShowRedirs(rs))
    requires Ends(t, i + |ShowWords(args)| + |ShowRedirs(rs)|, 3)
    ensures ReadsSimple(t, i, Wrap(Exec(args), rs), i + |ShowWords(args)| + |ShowRedirs(rs)|)
  {
    hide ParseArgs, ParseRedirs, ParseExec, Skip, Stands, ShowRedirs, ShowWords, Wrap, RedirTexts;
    if args == [] {
      NoWords();
      RedirsStart(t, i, rs);
      RedirsShown(t, i, rs, []);
      var (spans, j) := ParseRedirs(t, i, []).value;
      NotParen(t, i, rs);
      NoBlock(t, i, spans, j);
      ParseNoArg(t, j, [], spans);
      ResolveWrap(t, Exec([]), spans);
      assert RedirTexts(t, []) == [] && [] + rs == rs && TextsOf(t, []) == [];
    } else {
      WordStart(t, i, args);
      NoRedirs(t, i, []);
      NoBlock(t, i, [], i);
      ParseArgsShown(t, i, [], args, rs);
      assert TextsOf(t, []) + args == args;
    }
  }

  lemma NotParen(t: string, i: nat, rs: seq<Redirect<string>>)
    requires Stands(t, i, ShowRedirs(rs)) && Ends(t, i + |ShowRedirs(rs)|, 3)
    ensures At(t, i) != '('
  {
    if rs != [] {
      ShowRedirsCons(rs);
      StandsChar(t, i, ShowRedirs(rs), 0);
    }
  }

  // ---- What it means to read a command ----

  ghost predicate ReadsSimple(t: string, i: nat, c: Cmd<string>, j: nat) {
    && CText(t) && i <= j <= |t|
    && var r := ParseExec(t, i);
       r.Some? && r.value.1 == j && Resolve(t, r.value.0) == c
  }

  ghost predicate ReadsPipe(t: string, i: nat, c: Cmd<string>, j: nat) {
    && CText(t) && i <= j <= |t|
    && var r := ParsePipe(t, i);
       r.Some? && r.value.1 == j && Resolve(t, r.value.0) == c
  }

  /** After the pipeline at i, parseline has come to j with the command cmd. */
  ghost predicate BackedAs(t: string, i: nat, cmd: Cmd<Span>, j: nat)
    requires CText(t) && i <= |t| && j <= |t|
  {
    var r := ParsePipe(t, i);
    r.Some? && ParseBacks(t, r.value.1, r.value.0) == ParseBacks(t, j, cmd)
  }

  ghost predicate ReadsBacked(t: string, i: nat, c: Cmd<string>, j: nat) {
    CText(t) && i <= j <= |t| && exists cmd :: BackedAs(t, i, cmd, j) && Resolve(t, cmd) == c
  }

  ghost predicate ReadsLine(t: string, i: nat, c: Cmd<string>, j: nat) {
    && CText(t) && i <= j <= |t|
    && var r := ParseLine(t, i);
       r.Some? && r.value.1 == j && Resolve(t, r.value.0) == c
  }

  /** The part of the parser for `level`, started at i, reads c and stops at j. */
  ghost predicate Reads(t: string, i: nat, c: Cmd<string>, level: nat, j: nat) {
    if level == 0 then ReadsLine(t, i, c, j)
    else if level == 1 then ReadsBacked(t, i, c, j)
    else if level == 2 then ReadsPipe(t, i, c, j)
    else ReadsSimple(t, i, c, j)
  }

  // ---- From tighter to looser ----

  lemma PipeEnds(t: string, i: nat, c: Cmd<string>, j: nat)
    requires ReadsSimple(t, i, c, j) && Ends(t, j, 2)
    ensures ReadsPipe(t, i, c, j)
  {
    hide ParseExec, Skip, Resolve;
    SkipStays(t, j);
    SeesIs(t, j);
    hide Sees, GetToken;
  }

  lemma NothingBacked(t: string, i: nat, c: Cmd<string>, j: nat)
    requires ReadsPipe(t, i, c, j)
    ensures ReadsBacked(t, i, c, j)
  {
    hide ParsePipe, ParseBacks, Resolve;
    assert BackedAs(t, i, ParsePipe(t, i).value.0, j);
  }

  lemma LineEnds(t: string, i: nat, c: Cmd<string>, j: nat)
    requires ReadsBacked(t, i, c, j) && Ends(t, j, 0)
    ensures ReadsLine(t, i, c, j)
  {
    var cmd :| BackedAs(t, i, cmd, j) && Resolve(t, cmd) == c;
    hide ParsePipe, Skip, Resolve;
    SkipStays(t, j);
    SeesIs(t, j);
    hide Sees, GetToken;
    assert ParseBacks(t, j, cmd) == (cmd, j);
    hide ParseBacks;
    assert ParseLine(t, i) == Some((cmd, j));
  }

  /** A command read by a tighter part of the parser is read by a looser one. */
  lemma Loosened(t: string, i: nat, c: Cmd<string>, from: nat, level: nat, j: nat)
    requires Reads(t, i, c, from, j) && level <= from <= 3 && Ends(t, j, level)
    ensures Reads(t, i, c, level, j)
    decreases from
  {
    hide ReadsLine, ReadsBacked, ReadsPipe, ReadsSimple;
    if level < from {
      if from == 3 {
        PipeEnds(t, i, c, j);
      } else if from == 2 {
        NothingBacked(t, i, c, j);
      } else {
        LineEnds(t, i, c, j);
      }
      Loosened(t, i, c, from - 1, level, j);
    }
  }

  // ---- The operators ----

  lemma PipeGoesOn(t: string, i: nat, left: Cmd<string>, j: nat, right: Cmd<string>, k: nat)
    requires ReadsSimple(t, i, left, j) && j < |t| && t[j] == '|' && NoBlank(t, j + 1) && ReadsPipe(t, j + 1, right, k)
    ensures ReadsPipe(t, i, Pipe(left, right), k)
  {
    hide ParseExec, Skip;
    SkipStays(t, j);
    SeesIs(t, j);
    OneChar(t, j);
    hide Sees, GetToken;
  }

  lemma BackGoesOn(t: string, i: nat, c: Cmd<string>, j: nat)
    requires ReadsBacked(t, i, c, j) && j < |t| && t[j] == '&' && NoBlank(t, j + 1)
    ensures ReadsBacked(t, i, Back(c), j + 1)
  {
    var cmd :| BackedAs(t, i, cmd, j) && Resolve(t, cmd) == c;
    SkipStays(t, j);
    SeesIs(t, j);
    OneChar(t, j);
    hide ParsePipe, Skip, Sees, GetToken;
    assert ParseBacks(t, j, cmd) == ParseBacks(t, j + 1, Back(cmd));
    hide ParseBacks;
    assert BackedAs(t, i, Back(cmd), j + 1);
  }

  lemma LineGoesOn(t: string, i: nat, left: Cmd<string>, j: nat, right: Cmd<string>, k: nat)
    requires ReadsBacked(t, i, left, j) && j < |t| && t[j] == ';' && NoBlank(t, j + 1) && ReadsLine(t, j + 1, right, k)
    ensures ReadsLine(t, i, List(left, right), k)
  {
    hide ParseLine, ParsePipe, ParseBacks, GetToken, Skip;
    var cmd :| BackedAs(t, i, cmd, j) && Resolve(t, cmd) == left;
    NoMoreBacks(t, j, cmd);
    ListStep(t, i, cmd, j);
    OneChar(t, j);
  }

  lemma NoMoreBacks(t: string, j: nat, cmd: Cmd<Span>)
    requires CText(t) && j < |t| && t[j] == ';'
    ensures ParseBacks(t, j, cmd) == (cmd, j)
  {
    hide GetToken;
    SkipStays(t, j);
    SeesIs(t, j);
  }

  /** What parseline does at a semicolon. */
  lemma ListStep(t: string, i: nat, cmd: Cmd<Span>, j: nat)
    requires CText(t) && i <= |t| && j < |t| && t[j] == ';' && ParsePipe(t, i).Some?
    requires ParseBacks(t, ParsePipe(t, i).value.1, ParsePipe(t, i).value.0) == (cmd, j)
    ensures var rest := ParseLine(t, GetToken(t, j).next);
            ParseLine(t, i) == if rest.None? then None else Some((List(cmd, rest.value.0), rest.value.1))
  {
    SkipStays(t, j);
    SeesIs(t, j);
    hide GetToken, Skip, Sees, ParsePipe, ParseBacks;
  }

  /** A command in parentheses, and the redirections behind it. */
  lemma BlockShown(t: string, i: nat, c: Cmd<string>, n: nat, rs: seq<Redirect<string>>)
    requires CText(t) && i + n + 2 <= |t| && t[i] == '(' && t[i + n + 1] == ')' && NoBlank(t, i + 1)
             && ReadsLine(t, i + 1, c, i + n + 1)
    requires Files(rs) && Stands(t, i + n + 2, ShowRedirs(rs)) && Ends(t, i + n + 2 + |ShowRedirs(rs)|, 3)
    ensures ReadsSimple(t, i, Wrap(c, rs), i + n + 2 + |ShowRedirs(rs)|)
  {
    hide GetToken, Skip, ParseLine, ParseRedirs, ParseArgs, Resolve, Wrap, ParsePipe, ShowRedirs, RedirTexts;
    var k := i + n + 2;
    RedirsStart(t, k, rs);
    RedirsShown(t, k, rs, []);
    assert RedirTexts(t, []) == [] && [] + rs == rs;
    SkipStays(t, i);
    OneChar(t, i);
    SkipStays(t, k - 1);
    OneChar(t, k - 1);
    SeesIs(t, i);
    SeesIs(t, k - 1);
    hide Sees;
    var (spans, j) := ParseRedirs(t, k, []).value;
    assert ParseBlock(t, i) == Some((Wrap(ParseLine(t, i + 1).value.0, spans), j));
    ResolveWrap(t, ParseLine(t, i + 1).value.0, spans);
  }

  // ---- Redirections around a command ----

  /** The command inside all redirections. */
  function Base(c: Cmd<string>): (b: Cmd<string>)
    ensures !b.Redir? && (c.Redir? ==> b < c) && (!c.Redir? ==> b == c)
  {
    if c.Redir? then Base(c.cmd) else c
  }

  /** The redirections around it, the innermost first. */
  function Tail(c: Cmd<string>): seq<Redirect<string>> {
    if c.Redir? then Tail(c.cmd) + [Redirect(c.file, c.mode)] else []
  }

  lemma {:induction false} ShowRedirsSnoc(rs: seq<Redirect<string>>, r: Redirect<string>)
    ensures ShowRedirs(rs + [r]) == ShowRedirs(rs) + ShowRedir(r)
    decreases |rs|
  {
    hide ShowRedir;
    if rs == [] {
      assert rs + [r] == [r] && [r][1..] == [] && ShowRedirs([r][1..]) == "";
    } else {
      assert (rs + [r])[1..] == rs[1..] + [r];
      ShowRedirsSnoc(rs[1..], r);
    }
  }

  lemma {:induction false} Unwrapped(c: Cmd<string>)
    requires Printable(c)
    ensures c == Wrap(Base(c), Tail(c)) && Show(c, 3) == Show(Base(c), 3) + ShowRedirs(Tail(c))
    ensures Printable(Base(c)) && Files(Tail(c))
    decreases c
  {
    if c.Redir? {
      hide ShowRedir, ShowRedirs;
      Unwrapped(c.cmd);
      var rs := Tail(c.cmd);
      assert Tail(c)[..|rs|] == rs;
      ShowRedirsSnoc(rs, Redirect(c.file, c.mode));
      assert Show(c, 3) == Show(Base(c), 3) + ShowRedirs(rs) + ShowRedir(Redirect(c.file, c.mode));
    } else {
      assert Wrap(c, []) == c;
    }
  }

  // ---- The round trip ----

  /** A printed command does not begin with a blank. */
  lemma {:induction false} FirstChar(c: Cmd<string>, level: nat)
    requires Printable(c)
    ensures Show(c, level) != "" ==> !IsBlank(Show(c, level)[0])
    decreases c
  {
    match c
    case Exec(args) => if args != [] { assert Word(args[0]); }
    case Redir(d, _, _) => FirstChar(d, 3);
    case Pipe(left, _) => FirstChar(left, 3);
    case List(left, _) => FirstChar(left, 1);
    case Back(d) => FirstChar(d, 1);
  }

  lemma StartOk(t: string, i: nat, c: Cmd<string>, level: nat)
    requires Printable(c) && Stands(t, i, Show(c, level)) && Ends(t, i + |Show(c, level)|, 3)
    ensures NoBlank(t, i)
  {
    FirstChar(c, level);
    hide Show;
    if Show(c, level) != "" { StandsChar(t, i, Show(c, level), 0); }
  }

  /** The parts of a command in parentheses. */
  lemma ParenParts(t: string, i: nat, s: string)
    requires Stands(t, i, "(" + s + ")")
    ensures i + |s| + 2 <= |t| && t[i] == '(' && t[i + |s| + 1] == ')' && Stands(t, i + 1, s) && Ends(t, i + 1 + |s|, 0)
  {
    StandsSplit(t, i, "(" + s, ")");
    StandsSplit(t, i, "(", s);
    StandsChar(t, i, "(", 0);
    StandsChar(t, i + 1 + |s|, ")", 0);
  }

  /** The parts of two commands with a mark between them. */
  lemma MarkParts(t: string, i: nat, a: string, mark: char, b: string)
    requires Stands(t, i, a + [mark] + b)
    ensures Stands(t, i, a) && i + |a| < |t| && t[i + |a|] == mark && Stands(t, i + |a| + 1, b)
  {
    StandsSplit(t, i, a + [mark], b);
    StandsSplit(t, i, a, [mark]);
    StandsChar(t, i + |a|, [mark], 0);
  }

  /** How far a command is from where its own part of the parser reads it. */
  function Distance(c: Cmd<string>, level: nat): nat {
    if level > LevelOf(c) then 4 else LevelOf(c) - level
  }

  /** Wherever a printed command stands, the part of the parser for that place reads it back
      and stops behind it. */
  lemma {:induction false} ShownParses(t: string, i: nat, c: Cmd<string>, level: nat)
    requires CText(t) && Printable(c) && level <= 3 && Stands(t, i, Show(c, level))
             && Ends(t, i + |Show(c, level)|, level)
    ensures Reads(t, i, c, level, i + |Show(c, level)|)
    decreases c, Distance(c, level)
  {
    hide Reads, Stands, Printable, CText, Ends;
    if level > LevelOf(c) {
      ParenShown(t, i, c, level);
    } else if level < LevelOf(c) {
      assert Show(c, level) == Show(c, level + 1);
      TighterEnds(t, i + |Show(c, level)|, level, level + 1);
      ShownParses(t, i, c, level + 1);
      Loosened(t, i, c, level + 1, level, i + |Show(c, level)|);
    } else {
      match c
      case Pipe(_, _) => PipeShown(t, i, c);
      case List(_, _) => ListShown(t, i, c);
      case Back(_) => BackShown(t, i, c);
      case _ => CommandShown(t, i, c);
    }
  }

  lemma TighterEnds(t: string, j: nat, level: nat, tighter: nat)
    requires Ends(t, j, level) && level <= tighter
    ensures Ends(t, j, tighter)
  {
  }

  lemma ParenShown(t: string, i: nat, c: Cmd<string>, level: nat)
    requires CText(t) && Printable(c) && LevelOf(c) < level <= 3 && Stands(t, i, Show(c, level))
             && Ends(t, i + |Show(c, level)|, level)
    ensures Reads(t, i, c, level, i + |Show(c, level)|)
    decreases c, 4, 0
  {
    hide Show, Stands, Printable, CText, ReadsLine, ReadsBacked, ReadsPipe, ReadsSimple, ShowRedirs, Wrap;
    var s := Show(c, 0);
    ParenText(c, level);
    ParenParts(t, i, s);
    ShownParses(t, i + 1, c, 0);
    StartOk(t, i + 1, c, 0);
    var j := i + |s| + 2;
    TighterEnds(t, j, level, 3);
    Nothing(t, j, c);
    BlockShown(t, i, c, |s|, []);
    Loosened(t, i, c, 3, level, j);
  }

  lemma Nothing(t: string, j: nat, c: Cmd<string>)
    requires j <= |t|
    ensures Stands(t, j, ShowRedirs([])) && |ShowRedirs([])| == 0 && Wrap(c, []) == c
  {
  }

  lemma ParenText(c: Cmd<string>, level: nat)
    requires LevelOf(c) < level
    ensures Show(c, level) == "(" + Show(c, 0) + ")"
  {
  }

  lemma PipeText(c: Cmd<string>)
    requires c.Pipe? && Printable(c)
    ensures Show(c, 2) == Show(c.left, 3) + ['|'] + Show(c.right, 2) && Printable(c.left) && Printable(c.right)
  {
  }

  lemma ListText(c: Cmd<string>)
    requires c.List? && Printable(c)
    ensures Show(c, 0) == Show(c.left, 1) + [';'] + Show(c.right, 0) && Printable(c.left) && Printable(c.right)
  {
  }

  lemma BackText(c: Cmd<string>)
    requires c.Back? && Printable(c)
    ensures Show(c, 1) == Show(c.cmd, 1) + ['&'] + "" && Printable(c.cmd)
  {
  }

  lemma PipeShown(t: string, i: nat, c: Cmd<string>)
    requires c.Pipe? && CText(t) && Printable(c) && Stands(t, i, Show(c, 2)) && Ends(t, i + |Show(c, 2)|, 2)
    ensures Reads(t, i, c, 2, i + |Show(c, 2)|)
    decreases c, 0, 0
  {
    hide Show, Stands, Printable, CText, ReadsLine, ReadsBacked, ReadsPipe, ReadsSimple;
    var a, b := Show(c.left, 3), Show(c.right, 2);
    PipeText(c);
    MarkParts(t, i, a, '|', b);
    var j := i + |a|;
    ShownParses(t, i, c.left, 3);
    ShownParses(t, j + 1, c.right, 2);
    StartOk(t, j + 1, c.right, 2);
    PipeGoesOn(t, i, c.left, j, c.right, j + 1 + |b|);
  }

  lemma ListShown(t: string, i: nat, c: Cmd<string>)
    requires c.List? && CText(t) && Printable(c) && Stands(t, i, Show(c, 0)) && Ends(t, i + |Show(c, 0)|, 0)
    ensures Reads(t, i, c, 0, i + |Show(c, 0)|)
    decreases c, 0, 0
  {
    hide Show, Stands, Printable, CText, ReadsLine, ReadsBacked, ReadsPipe, ReadsSimple;
    var a, b := Show(c.left, 1), Show(c.right, 0);
    ListText(c);
    MarkParts(t, i, a, ';', b);
    var j := i + |a|;
    ShownParses(t, i, c.left, 1);
    ShownParses(t, j + 1, c.right, 0);
    StartOk(t, j + 1, c.right, 0);
    LineGoesOn(t, i, c.left, j, c.right, j + 1 + |b|);
  }

  lemma BackShown(t: string, i: nat, c: Cmd<string>)
    requires c.Back? && CText(t) && Printable(c) && Stands(t, i, Show(c, 1)) && Ends(t, i + |Show(c, 1)|, 1)
    ensures Reads(t, i, c, 1, i + |Show(c, 1)|)
    decreases c, 0, 0
  {
    hide Show, Stands, Printable, CText, ReadsLine, ReadsBacked, ReadsPipe, ReadsSimple;
    var a := Show(c.cmd, 1);
    BackText(c);
    MarkParts(t, i, a, '&', "");
    var j := i + |a|;
    ShownParses(t, i, c.cmd, 1);
    BackGoesOn(t, i, c.cmd, j);
  }

  lemma CommandShown(t: string, i: nat, c: Cmd<string>)
    requires LevelOf(c) == 3 && CText(t) && Printable(c) && Stands(t, i, Show(c, 3)) && Ends(t, i + |Show(c, 3)|, 3)
    ensures Reads(t, i, c, 3, i + |Show(c, 3)|)
    decreases c, 0, 0
  {
    hide Show, Stands, Printable, CText, ReadsLine, ReadsBacked, ReadsPipe, ReadsSimple, ShowRedirs, Wrap, Tail;
    var b, rs := Base(c), Tail(c);
    Unwrapped(c);
    StandsSplit(t, i, Show(b, 3), ShowRedirs(rs));
    if b.Exec? {
      WordsText(b);
      SimpleShown(t, i, b.args, rs);
    } else {
      var s := Show(b, 0);
      ParenText(b, 3);
      ParenParts(t, i, s);
      ShownParses(t, i + 1, b, 0);
      StartOk(t, i + 1, b, 0);
      BlockShown(t, i, b, |s|, rs);
    }
  }

  lemma WordsText(c: Cmd<string>)
    requires c.Exec? && Printable(c)
    ensures Show(c, 3) == ShowWords(c.args) && Words(c.args) && |c.args| < MAXARGS
  {
  }

  /** The text of a printable command is a C string. */
  lemma {:induction false} ShowIsCText(c: Cmd<string>, level: nat)
    requires Printable(c)
    ensures CText(Show(c, level))
    decreases c, level
  {
    if LevelOf(c) < level {
      ShowIsCText(c, 0);
    } else {
      match c
      case Exec(args) => WordsAreCText(args);
      case Redir(d, _, _) => ShowIsCText(d, 3);
      case Pipe(left, right) => ShowIsCText(left, 3); ShowIsCText(right, 2);
      case List(left, right) => ShowIsCText(left, 1); ShowIsCText(right, 0);
      case Back(d) => ShowIsCText(d, 1);
    }
  }

  lemma {:induction false} WordsAreCText(args: seq<string>)
    requires forall i :: 0 <= i < |args| ==> Word(args[i])
    ensures CText(ShowWords(args))
    decreases |args|
  {
    if args != [] {
      assert Word(args[0]);
      WordsAreCText(args[1..]);
    }
  }

  /** Parsing the printed text of any command gives that command back. */
  lemma RoundTrip(c: Cmd<string>)
    requires Printable(c)
    ensures CText(Show(c, 0))
    ensures ParseCmd(Show(c, 0)).Some? && Resolve(Show(c, 0), ParseCmd(Show(c, 0)).value) == c
  {
    hide Show, Printable, CText, ParseLine, Resolve, Skip;
    var t := Show(c, 0);
    ShowIsCText(c, 0);
    assert t[0..0 + |t|] == t;
    ShownParses(t, 0, c, 0);
    SkipStays(t, |t|);
  }
}
