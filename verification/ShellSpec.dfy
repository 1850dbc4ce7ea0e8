/** The shell's grammar as functions on a text and a cursor. Words are spans of the text. */
module ShellSpec {
  import opened Common

  const MAXARGS := 10
  const NUL: char := '\0'

  datatype Span = Span(start: nat, end: nat)

  datatype Mode = Input | Output | Append

  /** The command tree, over spans while parsing and over strings as the user sees it. */
  datatype Cmd<W> =
    | Exec(args: seq<W>)
    | Redir(cmd: Cmd<W>, file: W, mode: Mode)
    | Pipe(left: Cmd<W>, right: Cmd<W>)
    | List(left: Cmd<W>, right: Cmd<W>)
    | Back(cmd: Cmd<W>)

  // ---- Characters and tokens ----

  predicate IsBlank(c: char) {
    c == ' ' || c == '\t' || c == '\r' || c == '\n' || c == '\U{0b}'
  }

  predicate IsSymbol(c: char) {
    c == '<' || c == '|' || c == '>' || c == '&' || c == ';' || c == '(' || c == ')'
  }

  predicate IsWordChar(c: char) {
    !IsBlank(c) && !IsSymbol(c) && c != NUL
  }

  /** The byte under the cursor; a C string ends with a NUL. */
  function At(t: string, i: nat): char {
    if i < |t| then t[i] else NUL
  }

  /** A C string has no other NUL. */
  predicate CText(t: string) {
    forall i :: 0 <= i < |t| ==> t[i] != NUL
  }

  function Skip(t: string, i: nat): (j: nat)
    requires i <= |t|
    ensures i <= j <= |t| && (j < |t| ==> !IsBlank(t[j])) && (forall k :: i <= k < j ==> IsBlank(t[k]))
    decreases |t| - i
  {
    if i < |t| && IsBlank(t[i]) then Skip(t, i + 1) else i
  }

  function WordEnd(t: string, i: nat): (j: nat)
    requires i <= |t|
    ensures i <= j <= |t| && (j < |t| ==> IsBlank(t[j]) || IsSymbol(t[j]))
    ensures forall k :: i <= k < j ==> !IsBlank(t[k]) && !IsSymbol(t[k])
    decreases |t| - i
  {
    if i < |t| && !IsBlank(t[i]) && !IsSymbol(t[i]) then WordEnd(t, i + 1) else i
  }

  /** A token: its kind, as gettoken returns it, its span, and the cursor after it. */
  datatype Token = Token(kind: char, span: Span, next: nat)

  function GetToken(t: string, i: nat): (r: Token)
    requires CText(t) && i <= |t|
    ensures i <= r.span.start <= r.span.end <= r.next <= |t|
    ensures r.kind == NUL ==> r.next == |t|
    ensures r.kind != NUL ==> r.span.start < r.span.end && i < r.next
    ensures r.kind == 'a' ==> IsWord(t, r.span)
  {
    var s := Skip(t, i);
    var c := At(t, s);
    var e := if c == NUL then s
             else if c == '>' then if At(t, s + 1) == '>' then s + 2 else s + 1
             else if IsSymbol(c) then s + 1
             else WordEnd(t, s);
    var kind := if c == NUL then NUL
                else if c == '>' && At(t, s + 1) == '>' then '+'
                else if IsSymbol(c) then c
                else 'a';
    Token(kind, Span(s, e), Skip(t, e))
  }

  /** A maximal run of word characters. */
  predicate IsWord(t: string, w: Span) {
    && w.start < w.end <= |t|
    && (forall k :: w.start <= k < w.end ==> IsWordChar(t[k]))
    && (w.end < |t| ==> !IsWordChar(t[w.end]))
  }

  /** peek moves the cursor past blanks and looks at the next byte. */
  predicate Sees(t: string, i: nat, toks: string) {
    i < |t| && t[i] in toks
  }

  // ---- The grammar ----

  datatype Redirect<W> = Redirect(file: W, mode: Mode)

  /** A panic of the shell is None. */
  type Parsed = Option<(Cmd<Span>, nat)>

  function Wrap<W>(cmd: Cmd<W>, redirs: seq<Redirect<W>>): Cmd<W> {
    if redirs == [] then cmd
    else var n := |redirs| - 1; Redir(Wrap(cmd, redirs[..n]), redirs[n].file, redirs[n].mode)
  }

  /** The cursor moved on and stayed in the text. */
  predicate Within(t: string, i: nat, r: Parsed) {
    r.Some? ==> i <= r.value.1 <= |t|
  }

  function ParseRedirs(t: string, i: nat, redirs: seq<Redirect<Span>>): (r: Option<(seq<Redirect<Span>>, nat)>)
    requires CText(t) && i <= |t|
    ensures r.Some? ==> i <= r.value.1 <= |t|
    decreases |t| - i
  {
    var p := Skip(t, i);
    if !Sees(t, p, "<>") then Some((redirs, p)) else
    var tok := GetToken(t, p);
    var word := GetToken(t, tok.next);
    if word.kind != 'a' then None else
    var mode := if tok.kind == '<' then Input else if tok.kind == '>' then Output else Append;
    ParseRedirs(t, word.next, redirs + [Redirect(word.span, mode)])
  }

  /** The words and redirections of a simple command; nothing else may come before | ) & ;. */
  function ParseArgs(t: string, i: nat, args: seq<Span>, redirs: seq<Redirect<Span>>): (r: Parsed)
    requires CText(t) && i <= |t|
    ensures Within(t, i, r)
    decreases |t| - i
  {
    var p := Skip(t, i);
    if Sees(t, p, "|)&;") then Some((Wrap(Exec(args), redirs), p)) else
    var tok := GetToken(t, p);
    if tok.kind == NUL then Some((Wrap(Exec(args), redirs), tok.next)) else
    if tok.kind != 'a' || |args| + 1 >= MAXARGS then None else
    var rs := ParseRedirs(t, tok.next, redirs);
    if rs.None? then None else ParseArgs(t, rs.value.1, args + [tok.span], rs.value.0)
  }

  function ParseExec(t: string, i: nat): (r: Parsed)
    requires CText(t) && i <= |t|
    ensures Within(t, i, r)
    decreases |t| - i, 1
  {
    var p := Skip(t, i);
    if Sees(t, p, "(") then ParseBlock(t, p) else
    var rs := ParseRedirs(t, p, []);
    if rs.None? then None else ParseArgs(t, rs.value.1, [], rs.value.0)
  }

  function ParseBlock(t: string, i: nat): (r: Parsed)
    requires CText(t) && i <= |t| && Sees(t, i, "(")
    ensures Within(t, i, r)
    decreases |t| - i, 0
  {
    var line := ParseLine(t, GetToken(t, i).next);
    if line.None? then None else
    var p := Skip(t, line.value.1);
    if !Sees(t, p, ")") then None else
    var rs := ParseRedirs(t, GetToken(t, p).next, []);
    if rs.None? then None else Some((Wrap(line.value.0, rs.value.0), rs.value.1))
  }

  function ParsePipe(t: string, i: nat): (r: Parsed)
    requires CText(t) && i <= |t|
    ensures Within(t, i, r)
    decreases |t| - i, 2
  {
    var left := ParseExec(t, i);
    if left.None? then None else
    var p := Skip(t, left.value.1);
    if !Sees(t, p, "|") then Some((left.value.0, p)) else
    var right := ParsePipe(t, GetToken(t, p).next);
    if right.None? then None else Some((Pipe(left.value.0, right.value.0), right.value.1))
  }

  /** Each & puts the command so far in the background. */
  function ParseBacks(t: string, i: nat, cmd: Cmd<Span>): (r: (Cmd<Span>, nat))
    requires CText(t) && i <= |t|
    ensures i <= r.1 <= |t|
    decreases |t| - i
  {
    var p := Skip(t, i);
    if Sees(t, p, "&") then ParseBacks(t, GetToken(t, p).next, Back(cmd)) else (cmd, p)
  }

  function ParseLine(t: string, i: nat): (r: Parsed)
    requires CText(t) && i <= |t|
    ensures Within(t, i, r)
    decreases |t| - i, 3
  {
    var pipe := ParsePipe(t, i);
    if pipe.None? then None else
    var (cmd, j) := ParseBacks(t, pipe.value.1, pipe.value.0);
    var p := Skip(t, j);
    if !Sees(t, p, ";") then Some((cmd, p)) else
    var rest := ParseLine(t, GetToken(t, p).next);
    if rest.None? then None else Some((List(cmd, rest.value.0), rest.value.1))
  }

  /** The whole line, with nothing left over. */
  function ParseCmd(t: string): (r: Option<Cmd<Span>>)
    requires CText(t)
  {
    var line := ParseLine(t, 0);
    if line.Some? && Skip(t, line.value.1) == |t| then Some(line.value.0) else None
  }
}
