/** The command-line lexer of the shell: arguments, operators, escapes, quotes and comments. */
module Lexer {

  import opened Wrappers

  datatype Redirection = NoRedirection | Pipe | RedirOutput | RedirInput | AppendOutput

  /** executablePath is None when it would be read from an empty argument vector. */
  datatype Exec = Exec(executablePath: Option<string>, args: seq<string>, redir: Redirection, background: bool)

  const NUL: char := '\0'
  const BLANK := Exec(Some(""), [""], NoRedirection, false)

  predicate IsValid(c: char) {
    || '0' <= c <= '9' || 'A' <= c <= 'Z' || 'a' <= c <= 'z'
    || c == '/' || c == '-' || c == '_' || c == '.' || c == ',' || c == '~'
  }

  predicate IsOperator(c: char) {
    c == ';' || c == '|' || c == '>' || c == '&'
  }

  // ---------- Specification: one pass over the rest of the line ----------

  /** The closed commands, the finished arguments of the open command, and its last argument. */
  datatype State = State(closed: seq<Exec>, args: seq<string>, word: string, ignoreSpace: bool)

  const START := State([], [], "", false)

  /** What quoted text stands for, and how much of s is used up, the closing quote included. */
  function Quoted(s: string, escape: bool): (r: (string, nat))
    ensures r.1 <= |s|
    ensures '\\' !in r.0
  {
    if s == "" then ("", 0)
    else if s[0] == '\'' && !escape then ("", 1)
    else if s[0] == '\\' then
      var (text, n) := Quoted(s[1..], !escape); (text, n + 1)
    else
      var (text, n) := Quoted(s[1..], false); ([s[0]] + text, n + 1)
  }

  /** How much of s a comment uses up, the closing # included. */
  function Comment(s: string): (n: nat)
    ensures n <= |s|
  {
    if s == "" then 0 else if s[0] == '#' then 1 else 1 + Comment(s[1..])
  }

  function WithoutEmpty(args: seq<string>, word: string): seq<string> {
    if word == "" then args else args + [word]
  }

  /** An operator ends the open command. */
  function Close(st: State, redir: Redirection, background: bool): State {
    State(st.closed + [Exec(Some(""), WithoutEmpty(st.args, st.word), redir, background)], [], "", true)
  }

  function Space(st: State): State {
    if st.ignoreSpace then st else State(st.closed, st.args + [st.word], "", true)
  }

  /** What the first character of s leads to, and how much of s it uses up. */
  function Next(s: string, st: State): (r: (State, nat))
    requires s != ""
    ensures 1 <= r.1 <= |s|
  {
    if IsValid(s[0]) then (st.(word := st.word + [s[0]], ignoreSpace := false), 1)
    else match s[0]
      case ' ' => (Space(st), 1)
      case ';' => (Close(st, NoRedirection, false), 1)
      case '|' => (Close(st, Pipe, false), 1)
      case '&' => (Close(st, NoRedirection, true), 1)
      case '>' =>
        if |s| > 1 && s[1] == '>' then (Close(st, AppendOutput, false), 2) else (Close(st, RedirOutput, false), 1)
      case '\\' =>
        if |s| == 1 then (st.(word := st.word + [NUL]), 1) else (st.(word := st.word + [s[1]]), 2)
      case '\'' =>
        var (text, n) := Quoted(s[1..], false); (st.(word := st.word + text), n + 1)
      case '#' => (st, Comment(s[1..]) + 1)
      case _ => (st, 1)
  }

  function Scan(s: string, st: State): State
    decreases |s|
  {
    if s == "" then st else var (st', n) := Next(s, st); Scan(s[n..], st')
  }

  function PathOf(args: seq<string>): Option<string> {
    if args == [] then None else Some(args[0])
  }

  function Named(e: Exec): Exec {
    e.(executablePath := PathOf(e.args))
  }

  function Finish(st: State): seq<Exec> {
    var args := WithoutEmpty(st.args, st.word);
    var cmds := if args == [] then st.closed else st.closed + [Exec(Some(""), args, NoRedirection, false)];
    seq(|cmds|, j requires 0 <= j < |cmds| => Named(cmds[j]))
  }

  function Commands(line: string): seq<Exec> {
    Finish(Scan(line, START))
  }

  // ---------- The lexer loop ----------

  function From(line: string, i: nat): string {
    if i < |line| then line[i..] else ""
  }

  lemma FromNext(line: string, i: nat)
    requires i < |line|
    ensures line[i..][1..] == line[i + 1..] == From(line, i + 1)
  {
  }

  lemma FromDrop(line: string, start: nat, i: nat)
    requires start <= i <= |line|
    ensures line[start..][i - start..] == From(line, i)
  {
  }

  /** The two indices of the loop address the last command and its last argument. */
  ghost predicate Indexed(cmds: seq<Exec>, currentCMD: int, currentArg: int) {
    && currentCMD == |cmds| - 1 >= 0
    && var e := cmds[currentCMD];
       && currentArg == |e.args| - 1 >= 0
       && e.executablePath == Some("") && e.redir == NoRedirection && !e.background
  }

  /** The specification state that the vector of commands stands for. */
  ghost function StateOf(cmds: seq<Exec>, ignoreSpace: bool): (st: State)
    requires |cmds| > 0 && |cmds[|cmds| - 1].args| > 0
    ensures st.ignoreSpace == ignoreSpace
  {
    var n := |cmds| - 1;
    var m := |cmds[n].args| - 1;
    State(cmds[..n], cmds[n].args[..m], cmds[n].args[m], ignoreSpace)
  }

  /** curCmd->args[currentArg] += text */
  function Append(cmds: seq<Exec>, currentCMD: int, currentArg: int, text: string): (r: seq<Exec>)
    requires 0 <= currentCMD < |cmds| && 0 <= currentArg < |cmds[currentCMD].args|
    ensures |r| == |cmds| && |r[currentCMD].args| == |cmds[currentCMD].args|
  {
    var e := cmds[currentCMD];
    cmds[currentCMD := e.(args := e.args[currentArg := e.args[currentArg] + text])]
  }

  lemma AppendState(cmds: seq<Exec>, currentCMD: int, currentArg: int, text: string, before: bool, after: bool)
    requires Indexed(cmds, currentCMD, currentArg)
    ensures var r := Append(cmds, currentCMD, currentArg, text);
            && Indexed(r, currentCMD, currentArg)
            && var st := StateOf(cmds, before);
               StateOf(r, after) == st.(word := st.word + text, ignoreSpace := after)
  {
    var r := Append(cmds, currentCMD, currentArg, text);
    assert r[..currentCMD] == cmds[..currentCMD];
    assert r[currentCMD].args[..currentArg] == cmds[currentCMD].args[..currentArg];
  }

  lemma AppendTwice(cmds: seq<Exec>, currentCMD: int, currentArg: int, text: string, more: string)
    requires 0 <= currentCMD < |cmds| && 0 <= currentArg < |cmds[currentCMD].args|
    ensures Append(cmds, currentCMD, currentArg, "") == cmds
    ensures Append(Append(cmds, currentCMD, currentArg, text), currentCMD, currentArg, more)
         == Append(cmds, currentCMD, currentArg, text + more)
  {
    var args := cmds[currentCMD].args;
    var word := args[currentArg];
    assert word + "" == word && args[currentArg := word] == args;
    assert args[currentArg := word + text][currentArg := word + text + more] == args[currentArg := word + text + more];
    assert word + text + more == word + (text + more);
  }

  /** Text between single quotes, from the opening quote at start. */
  method LexQuote(line: string, start: int, cmds: seq<Exec>, currentCMD: int, currentArg: int)
    returns (i: int, r: seq<Exec>)
    requires 0 <= start < |line| && line[start] == '\''
    requires 0 <= currentCMD < |cmds| && 0 <= currentArg < |cmds[currentCMD].args|
    ensures start < i
    ensures var (text, n) := Quoted(line[start + 1..], false);
            r == Append(cmds, currentCMD, currentArg, text) && line[start..][n + 1..] == From(line, i + 1)
  {
    hide Append;
    r := cmds;
    i := start + 1;
    var escape := false;
    ghost var text := "";
    AppendTwice(cmds, currentCMD, currentArg, "", "");
    while i < |line|
      invariant start < i <= |line|
      invariant |r| == |cmds| && |r[currentCMD].args| == |cmds[currentCMD].args|
      invariant r == Append(cmds, currentCMD, currentArg, text)
      invariant var q := Quoted(line[start + 1..], false);
                var p := Quoted(line[i..], escape);
                q.0 == text + p.0 && q.1 == i - start - 1 + p.1
    {
      var cur := line[i];
      assert line[i..][0] == cur && line[i..][1..] == line[i + 1..];
      if cur == '\'' && !escape {
        break;
      } else if cur == '\\' {
        escape := !escape;
      } else {
        escape := false;
        AppendTwice(cmds, currentCMD, currentArg, text, [cur]);
        r := Append(r, currentCMD, currentArg, [cur]);
        text := text + [cur];
      }
      i := i + 1;
    }
    assert text + "" == text;
  }

  /** A comment, from the opening # at start. */
  method SkipComment(line: string, start: int) returns (i: int)
    requires 0 <= start < |line| && line[start] == '#'
    ensures start < i
    ensures line[start..][Comment(line[start + 1..]) + 1..] == From(line, i + 1)
  {
    i := start + 1;
    while i < |line|
      invariant start < i <= |line|
      invariant Comment(line[start + 1..]) == i - start - 1 + Comment(line[i..])
    {
      assert line[i..][0] == line[i] && line[i..][1..] == line[i + 1..];
      if line[i] == '#' {
        break;
      }
      i := i + 1;
    }
  }

  /** What the operator at start records in the command it ends. */
  method SetRedirection(line: string, start: int, cmd: Exec, ghost st: State) returns (i: int, e: Exec)
    requires 0 <= start < |line| && IsOperator(line[start])
    requires cmd.redir == NoRedirection && !cmd.background
    ensures start <= i < |line|
    ensures e == cmd.(redir := e.redir, background := e.background)
    ensures Next(line[start..], st) == (Close(st, e.redir, e.background), i + 1 - start)
  {
    hide Close, Quoted, Comment, Space;
    var cur := line[start];
    e := cmd;
    i := start;
    if cur == ';' {
      e := e.(redir := NoRedirection);
    } else if cur == '|' {
      e := e.(redir := Pipe);
    } else if cur == '>' {
      if i != |line| - 1 && line[i + 1] == '>' {
        e := e.(redir := AppendOutput);
        i := i + 1;
      } else {
        e := e.(redir := RedirOutput);
      }
    } else if cur == '&' {
      e := e.(background := true);
    }
  }

  lemma CloseState(cmds: seq<Exec>, currentCMD: int, currentArg: int, ignoreSpace: bool, e: Exec)
    requires Indexed(cmds, currentCMD, currentArg)
    requires var open := cmds[currentCMD];
             e == Exec(Some(""), WithoutEmpty(open.args[..currentArg], open.args[currentArg]), e.redir, e.background)
    ensures var r := cmds[currentCMD := e] + [BLANK];
            && Indexed(r, currentCMD + 1, 0)
            && StateOf(r, true) == Close(StateOf(cmds, ignoreSpace), e.redir, e.background)
  {
    var r := cmds[currentCMD := e] + [BLANK];
    assert r[..currentCMD + 1] == cmds[..currentCMD] + [e];
  }

  /** An operator at start: ends the current command and opens a blank one. */
  method LexOperator(line: string, start: int, cmds: seq<Exec>, currentCMD: int, currentArg: int,
                     ghost ignoreSpace: bool)
    returns (i: int, r: seq<Exec>)
    requires 0 <= start < |line| && IsOperator(line[start])
    requires Indexed(cmds, currentCMD, currentArg)
    ensures start <= i && Indexed(r, currentCMD + 1, 0)
    ensures var (st, n) := Next(line[start..], StateOf(cmds, ignoreSpace));
            StateOf(r, true) == st && From(line, i + 1) == line[start..][n..]
  {
    hide From, Next, Close, StateOf;
    var e := cmds[currentCMD];
    assert e.args == e.args[..currentArg] + [e.args[currentArg]];
    if e.args[currentArg] == "" {
      e := e.(args := e.args[..|e.args| - 1]);
    }
    ghost var args := e.args;
    i, e := SetRedirection(line, start, e, StateOf(cmds, ignoreSpace));
    r := cmds[currentCMD := e] + [BLANK];
    CloseState(cmds, currentCMD, currentArg, ignoreSpace, e);
    FromDrop(line, start, i + 1);
  }

  /** A space that is not ignored opens an argument. */
  method LexSpace(cmds: seq<Exec>, currentCMD: int, currentArg: int, ignoreSpace: bool)
    returns (r: seq<Exec>, currentArg': int)
    requires Indexed(cmds, currentCMD, currentArg)
    ensures Indexed(r, currentCMD, currentArg') && StateOf(r, true) == Space(StateOf(cmds, ignoreSpace))
  {
    r, currentArg' := cmds, currentArg;
    if !ignoreSpace {
      var e := cmds[currentCMD];
      r := cmds[currentCMD := e.(args := e.args + [""])];
      currentArg' := currentArg + 1;
      assert e.args == e.args[..currentArg] + [e.args[currentArg]];
      assert r[..currentCMD] == cmds[..currentCMD];
    }
  }

  /** A backslash takes the next character whatever it is; at the end of the line that is the terminator. */
  method LexEscape(line: string, start: int, cmds: seq<Exec>, currentCMD: int, currentArg: int,
                   ghost ignoreSpace: bool)
    returns (i: int, r: seq<Exec>)
    requires 0 <= start < |line| && line[start] == '\\'
    requires Indexed(cmds, currentCMD, currentArg)
    ensures i == start + 1 && Indexed(r, currentCMD, currentArg)
    ensures var (st, n) := Next(line[start..], StateOf(cmds, ignoreSpace));
            StateOf(r, ignoreSpace) == st && From(line, i + 1) == line[start..][n..]
  {
    hide StateOf, Append, Indexed;
    i := start + 1;
    var next := if i == |line| then NUL else line[i];
    AppendState(cmds, currentCMD, currentArg, [next], ignoreSpace, ignoreSpace);
    r := Append(cmds, currentCMD, currentArg, [next]);
  }

  /** One turn of the loop. */
  method LexNext(line: string, start: int, cmds: seq<Exec>, currentCMD: int, currentArg: int, ignoreSpace: bool)
    returns (i: int, r: seq<Exec>, currentCMD': int, currentArg': int, ignoreSpace': bool)
    requires 0 <= start < |line| && Indexed(cmds, currentCMD, currentArg)
    ensures start < i && Indexed(r, currentCMD', currentArg')
    ensures var (st, n) := Next(line[start..], StateOf(cmds, ignoreSpace));
            StateOf(r, ignoreSpace') == st && From(line, i) == line[start..][n..]
  {
    hide StateOf, Append, Close, Space, Quoted, Comment, Indexed, IsValid, PathOf, From;
    i, r, currentCMD', currentArg', ignoreSpace' := start, cmds, currentCMD, currentArg, ignoreSpace;
    var cur := line[i];
    FromNext(line, start);
    if IsValid(cur) {
      ignoreSpace' := false;
      AppendState(cmds, currentCMD, currentArg, [cur], ignoreSpace, false);
      r := Append(cmds, currentCMD, currentArg, [cur]);
    } else if cur == ' ' {
      ignoreSpace' := true;
      r, currentArg' := LexSpace(cmds, currentCMD, currentArg, ignoreSpace);
    } else if IsOperator(cur) {
      i, r := LexOperator(line, i, cmds, currentCMD, currentArg, ignoreSpace);
      currentCMD', currentArg', ignoreSpace' := currentCMD + 1, 0, true;
    } else if cur == '\\' {
      i, r := LexEscape(line, i, cmds, currentCMD, currentArg, ignoreSpace);
    } else if cur == '\'' {
      AppendState(cmds, currentCMD, currentArg, Quoted(line[start + 1..], false).0, ignoreSpace, ignoreSpace);
      i, r := LexQuote(line, i, cmds, currentCMD, currentArg);
    } else if cur == '#' {
      i := SkipComment(line, i);
    }
    i := i + 1;
  }

  method CleanUp(found: seq<Exec>, currentCMD: int, currentArg: int, ghost ignoreSpace: bool) returns (cmds: seq<Exec>)
    requires Indexed(found, currentCMD, currentArg)
    ensures cmds == Finish(StateOf(found, ignoreSpace))
  {
    ghost var st := StateOf(found, ignoreSpace);
    var last := found[currentCMD];
    assert st.args + [st.word] == last.args;
    if last.args[|last.args| - 1] == "" {
      last := last.(args := last.args[..|last.args| - 1]);
    }
    assert last.args == WithoutEmpty(st.args, st.word);
    cmds := if |last.args| == 0 then found[..currentCMD] else found[currentCMD := last];
    ghost var unnamed := cmds;
    assert |last.args| != 0 ==> unnamed == st.closed + [last];
    var k := 0;
    while k < |cmds|
      invariant 0 <= k <= |cmds| == |unnamed|
      invariant forall j :: 0 <= j < k ==> cmds[j] == Named(unnamed[j])
      invariant forall j :: k <= j < |cmds| ==> cmds[j] == unnamed[j]
    {
      cmds := cmds[k := Named(cmds[k])];
      k := k + 1;
    }
  }

  /** The loop of the shell and the clean-up after it. */
  method Lex(line: string) returns (cmds: seq<Exec>)
    ensures cmds == Commands(line)
  {
    cmds := [BLANK];
    var currentCMD, currentArg, ignoreSpace := 0, 0, false;
    var i := 0;
    assert StateOf(cmds, false) == START;
    assert line == From(line, 0);
    while i < |line|
      invariant 0 <= i
      invariant Indexed(cmds, currentCMD, currentArg)
      invariant Scan(line, START) == Scan(From(line, i), StateOf(cmds, ignoreSpace))
    {
      assert From(line, i) == line[i..];
      i, cmds, currentCMD, currentArg, ignoreSpace := LexNext(line, i, cmds, currentCMD, currentArg, ignoreSpace);
    }
    cmds := CleanUp(cmds, currentCMD, currentArg, ignoreSpace);
  }
}
