/** What the lexer computes: it undoes a printer that escapes with backslashes, up to the arguments it
    merges because only plain characters switch the skipping of spaces off. */
module LexerLaws {

  import opened Lexer
  import opened Wrappers

  // ---------- The printer ----------

  function PrintArg(arg: string): string {
    if arg == "" then ""
    else (if IsValid(arg[0]) then [arg[0]] else ['\\', arg[0]]) + PrintArg(arg[1..])
  }

  function PrintArgs(args: seq<string>): string {
    if args == [] then ""
    else if |args| == 1 then PrintArg(args[0])
    else PrintArg(args[0]) + " " + PrintArgs(args[1..])
  }

  function PrintOperator(e: Exec): string {
    if e.background then "& "
    else match e.redir
      case NoRedirection => "; "
      case Pipe => "| "
      case RedirOutput => "> "
      case _ => ">> "
  }

  function Print(cmds: seq<Exec>): string {
    if cmds == [] then "" else PrintArgs(cmds[0].args) + PrintOperator(cmds[0]) + Print(cmds[1..])
  }

  /** The commands that an operator can end. */
  predicate Printable(e: Exec) {
    e.executablePath == PathOf(e.args) && e.redir != RedirInput && (e.background ==> e.redir == NoRedirection)
  }

  // ---------- Which arguments survive ----------

  predicate HasValid(s: string) {
    exists c <- s :: IsValid(c)
  }

  /** The arguments that come back: one without a plain character is merged into the next one while spaces
      are being ignored, and an empty last one is dropped. */
  function Merged(args: seq<string>, ignoreSpace: bool): (r: seq<string>)
    ensures |r| <= |args|
    decreases |args|
  {
    if args == [] then []
    else if |args| == 1 then WithoutEmpty([], args[0])
    else if ignoreSpace && !HasValid(args[0]) then Merged([args[0] + args[1]] + args[2..], true)
    else [args[0]] + Merged(args[1..], true)
  }

  /** Every argument but the last has a plain character, except that the first of the line needs none; the
      last is not empty. */
  predicate Kept(args: seq<string>, first: bool) {
    && (forall k :: 0 <= k < |args| - 1 ==> HasValid(args[k]) || (first && k == 0))
    && (args != [] ==> args[|args| - 1] != "")
  }

  lemma {:induction false} MergedIffKept(args: seq<string>, ignoreSpace: bool)
    ensures Merged(args, ignoreSpace) == args <==> Kept(args, !ignoreSpace)
  {
    if |args| > 1 {
      if ignoreSpace && !HasValid(args[0]) {
        assert |Merged(args, ignoreSpace)| < |args|;
      } else {
        MergedIffKept(args[1..], true);
        var rest := args[1..];
        assert args == [args[0]] + rest;
        assert Merged(args, ignoreSpace)[1..] == Merged(rest, true);
        if Kept(rest, false) {
          forall k | 0 < k < |args| - 1 ensures HasValid(args[k]) {
            assert args[k] == rest[k - 1];
          }
        }
        if Kept(args, !ignoreSpace) {
          forall k | 0 <= k < |rest| - 1 ensures HasValid(rest[k]) {
            assert rest[k] == args[k + 1];
          }
        }
      }
    } else if |args| == 1 {
      assert [] + [args[0]] == args;
    }
  }

  // ---------- Scanning printed text ----------

  lemma HasValidConcat(a: string, b: string)
    ensures HasValid(a + b) == (HasValid(a) || HasValid(b))
  {
    if HasValid(a) {
      var c :| c in a && IsValid(c);
      assert c in a + b;
    } else if HasValid(b) {
      var c :| c in b && IsValid(c);
      assert c in a + b;
    }
  }

  lemma ScanNext(s: string, st: State, next: State, rest: string)
    requires s != "" && Next(s, st).0 == next && s[Next(s, st).1..] == rest
    ensures Scan(s, st) == Scan(rest, next)
  {
  }

  /** The state once arg has been read. */
  function Read(arg: string, st: State): State {
    st.(word := st.word + arg, ignoreSpace := st.ignoreSpace && !HasValid(arg))
  }

  lemma ReadConcat(a: string, b: string, st: State)
    ensures Read(b, Read(a, st)) == Read(a + b, st)
  {
    HasValidConcat(a, b);
    assert st.word + a + b == st.word + (a + b);
  }

  lemma ScanChar(c: char, rest: string, st: State)
    ensures Scan(PrintArg([c]) + rest, st) == Scan(rest, Read([c], st))
  {
    var line := PrintArg([c]) + rest;
    assert HasValid([c]) == IsValid(c) by { assert c in [c]; }
    assert PrintArg([c]) == if IsValid(c) then [c] else ['\\', c];
    ScanNext(line, st, Read([c], st), rest);
  }

  lemma ReadNothing(st: State)
    ensures Read("", st) == st
  {
    assert st.word + "" == st.word;
  }

  lemma {:induction false} ScanArg(arg: string, rest: string, st: State)
    ensures Scan(PrintArg(arg) + rest, st) == Scan(rest, Read(arg, st))
    decreases |arg|
  {
    hide Scan, Read;
    if arg == "" {
      assert PrintArg(arg) + rest == rest;
      assert Read("", st) == st by { ReadNothing(st); }
    } else {
      var tail := PrintArg(arg[1..]) + rest;
      assert arg == arg[..1] + arg[1..] && arg[..1] == [arg[0]];
      assert PrintArg(arg) + rest == PrintArg([arg[0]]) + tail;
      ScanChar(arg[0], tail, st);
      ScanArg(arg[1..], rest, Read([arg[0]], st));
      ReadConcat([arg[0]], arg[1..], st);
    }
  }

  lemma ScanOperator(e: Exec, rest: string, st: State)
    requires Printable(e)
    ensures Scan(PrintOperator(e) + rest, st) == Scan(rest, Close(st, e.redir, e.background))
  {
    var line := PrintOperator(e) + rest;
    var st' := Close(st, e.redir, e.background);
    var n := |PrintOperator(e)| - 1;
    assert Next(line, st) == (st', n);
    assert line[n..] == " " + rest;
    assert (" " + rest)[1..] == rest;
    assert Next(" " + rest, st') == (st', 1);
  }

  lemma ScanSpace(rest: string, st: State)
    ensures Scan(" " + rest, st) == Scan(rest, Space(st))
  {
    assert Next(" " + rest, st) == (Space(st), 1);
    assert (" " + rest)[1..] == rest;
  }

  /** The state after a command, given what had been read of its first argument. */
  function AfterCommand(args: seq<string>, e: Exec, st: State): State {
    State(st.closed + [Exec(Some(""), st.args + args, e.redir, e.background)], [], "", true)
  }

  lemma CloseAfter(st: State, e: Exec)
    ensures Close(st, e.redir, e.background) == AfterCommand(WithoutEmpty([], st.word), e, st)
  {
    assert st.args + [] == st.args;
    assert [] + [st.word] == [st.word];
  }

  lemma HasValidEmpty()
    ensures !HasValid("")
  {
  }

  lemma SameFrame(args: seq<string>, e: Exec, a: State, b: State)
    requires a.closed == b.closed && a.args == b.args
    ensures AfterCommand(args, e, a) == AfterCommand(args, e, b)
  {
  }

  lemma PushedFrame(word: string, args: seq<string>, e: Exec, a: State, b: State)
    requires a.closed == b.closed && a.args == b.args + [word]
    ensures AfterCommand(args, e, a) == AfterCommand([word] + args, e, b)
  {
    assert a.args + args == b.args + ([word] + args);
  }

  lemma {:induction false} ScanArgs(args: seq<string>, e: Exec, rest: string, st: State)
    requires Printable(e) && args != []
    requires st.ignoreSpace ==> !HasValid(st.word)
    ensures Scan(PrintArgs(args) + (PrintOperator(e) + rest), st)
         == Scan(rest, AfterCommand(Merged([st.word + args[0]] + args[1..], st.ignoreSpace), e, st))
    decreases |args|
  {
    hide Scan, Close, PrintOperator, PrintArg, AfterCommand, HasValid;
    var tail := PrintOperator(e) + rest;
    var ignore := st.ignoreSpace && !HasValid(args[0]);
    var st' := st.(word := st.word + args[0], ignoreSpace := ignore);
    HasValidConcat(st.word, args[0]);
    var pending := [st.word + args[0]] + args[1..];
    if |args| == 1 {
      ScanArg(args[0], tail, st);
      ScanOperator(e, rest, st');
      CloseAfter(st', e);
      SameFrame(WithoutEmpty([], st'.word), e, st', st);
    } else {
      var more := PrintArgs(args[1..]) + tail;
      assert PrintArgs(args) + tail == PrintArg(args[0]) + (" " + more);
      ScanArg(args[0], " " + more, st);
      ScanSpace(more, st');
      var st'' := Space(st');
      HasValidEmpty();
      ScanArgs(args[1..], e, rest, st'');
      assert pending[1..] == args[1..] && pending[2..] == args[2..] && args[1..][1..] == args[2..];
      var rest' := [st''.word + args[1]] + args[2..];
      if ignore {
        assert st.word + args[0] + args[1] == pending[0] + pending[1];
        SameFrame(Merged(rest', true), e, st'', st);
      } else {
        assert st''.word + args[1] == args[1];
        assert rest' == args[1..];
        PushedFrame(st'.word, Merged(rest', true), e, st'', st);
      }
    }
  }

  // ---------- Round trip ----------

  function Back(e: Exec, ignoreSpace: bool): Exec {
    Exec(Some(""), Merged(e.args, ignoreSpace), e.redir, e.background)
  }

  /** The commands that come back. */
  function MergedAll(cmds: seq<Exec>, ignoreSpace: bool): seq<Exec> {
    if cmds == [] then [] else [Back(cmds[0], ignoreSpace)] + MergedAll(cmds[1..], true)
  }

  predicate AllPrintable(cmds: seq<Exec>) {
    forall e <- cmds :: Printable(e)
  }

  lemma PrintNothing(ignoreSpace: bool)
    ensures PrintArgs([]) == "" && Merged([], ignoreSpace) == []
  {
  }

  lemma ScanCommand(e: Exec, rest: string, closed: seq<Exec>, ignoreSpace: bool)
    requires Printable(e)
    ensures Scan(PrintArgs(e.args) + PrintOperator(e) + rest, State(closed, [], "", ignoreSpace))
         == Scan(rest, State(closed + [Back(e, ignoreSpace)], [], "", true))
  {
    hide Scan, Merged, PrintOperator, PrintArgs;
    var st := State(closed, [], "", ignoreSpace);
    assert PrintArgs(e.args) + PrintOperator(e) + rest == PrintArgs(e.args) + (PrintOperator(e) + rest);
    if e.args == [] {
      PrintNothing(ignoreSpace);
      assert PrintArgs(e.args) + (PrintOperator(e) + rest) == PrintOperator(e) + rest;
      ScanOperator(e, rest, st);
    } else {
      HasValidEmpty();
      ScanArgs(e.args, e, rest, st);
      assert "" + e.args[0] == e.args[0];
      assert [e.args[0]] + e.args[1..] == e.args;
      assert [] + Merged(e.args, ignoreSpace) == Merged(e.args, ignoreSpace);
    }
  }

  lemma ScanNothing(st: State)
    ensures Scan("", st) == st
  {
  }

  lemma {:induction false} ScanPrinted(cmds: seq<Exec>, closed: seq<Exec>, ignoreSpace: bool)
    requires AllPrintable(cmds)
    ensures Scan(Print(cmds), State(closed, [], "", ignoreSpace))
         == State(closed + MergedAll(cmds, ignoreSpace), [], "", if cmds == [] then ignoreSpace else true)
    decreases |cmds|
  {
    hide Back, PrintArgs, PrintOperator, Printable, Scan;
    if cmds == [] {
      ScanNothing(State(closed, [], "", ignoreSpace));
      assert closed + [] == closed;
    } else {
      var e := cmds[0];
      var back := Back(e, ignoreSpace);
      ScanCommand(e, Print(cmds[1..]), closed, ignoreSpace);
      ScanPrinted(cmds[1..], closed + [back], true);
      assert closed + [back] + MergedAll(cmds[1..], true) == closed + MergedAll(cmds, ignoreSpace);
    }
  }

  /** Lexing a printed line gives back exactly the merged arguments, with every operator. */
  lemma LexPrinted(cmds: seq<Exec>)
    requires AllPrintable(cmds)
    ensures var back := MergedAll(cmds, false);
            && |Commands(Print(cmds))| == |back|
            && forall j :: 0 <= j < |back| ==> Commands(Print(cmds))[j] == Named(back[j])
  {
    hide MergedAll, Print, Scan;
    ScanPrinted(cmds, [], false);
    assert [] + MergedAll(cmds, false) == MergedAll(cmds, false);
  }

  lemma {:induction false} MergedAllAt(cmds: seq<Exec>, ignoreSpace: bool, j: nat)
    requires j < |cmds|
    ensures |MergedAll(cmds, ignoreSpace)| == |cmds|
    ensures MergedAll(cmds, ignoreSpace)[j] == Back(cmds[j], j > 0 || ignoreSpace)
    decreases |cmds|
  {
    if j > 0 {
      MergedAllAt(cmds[1..], true, j - 1);
    } else if |cmds| > 1 {
      MergedAllAt(cmds[1..], true, 0);
    }
  }

  predicate AllKept(cmds: seq<Exec>) {
    forall j :: 0 <= j < |cmds| ==> Kept(cmds[j].args, j == 0)
  }

  lemma NothingMerged()
    ensures MergedAll([], false) == []
  {
  }

  /** The round trip: for every list of commands that operators can end, lexing the printed line returns the
      same arguments, redirections and background flags exactly when each argument is kept. */
  lemma RoundTripIff(cmds: seq<Exec>)
    requires AllPrintable(cmds)
    ensures Commands(Print(cmds)) == cmds <==> AllKept(cmds)
  {
    hide Commands, Print, MergedAll, Kept, Merged;
    var lexed := Commands(Print(cmds));
    var back := MergedAll(cmds, false);
    LexPrinted(cmds);
    if cmds != [] {
      MergedAllAt(cmds, false, 0);
    } else {
      assert back == [] by { NothingMerged(); }
    }
    forall j | 0 <= j < |cmds| ensures lexed[j] == cmds[j] <==> Kept(cmds[j].args, j == 0) {
      MergedAllAt(cmds, false, j);
      MergedIffKept(cmds[j].args, j > 0);
      assert Printable(cmds[j]);
    }
  }

  // ---------- Every line ----------

  ghost predicate Clean(st: State) {
    && (forall e <- st.closed :: e.executablePath == Some("") && Printable(Named(e)))
  }

  lemma NextClean(s: string, st: State)
    requires s != "" && Clean(st)
    ensures Clean(Next(s, st).0)
  {
  }

  lemma {:induction false} ScanClean(s: string, st: State)
    requires Clean(st)
    ensures Clean(Scan(s, st))
    decreases |s|
  {
    hide Clean;
    if s != "" {
      NextClean(s, st);
      var (st', n) := Next(s, st);
      ScanClean(s[n..], st');
    }
  }

  lemma FinishClean(st: State)
    requires Clean(st)
    ensures AllPrintable(Finish(st))
  {
    var args := WithoutEmpty(st.args, st.word);
    var last := Exec(Some(""), args, NoRedirection, false);
    var cmds := if args == [] then st.closed else st.closed + [last];
    forall j | 0 <= j < |cmds| ensures Printable(Named(cmds[j])) {
      if j < |st.closed| {
        assert cmds[j] in st.closed;
      }
    }
  }

  /** Whatever the line, with its quotes, comments and runs of spaces, the commands read from it are
      printable; so they have a backslash-escaped line of their own exactly when each argument is kept. */
  lemma NormalForm(line: string)
    ensures AllPrintable(Commands(line))
    ensures Commands(Print(Commands(line))) == Commands(line) <==> AllKept(Commands(line))
  {
    ScanClean(line, START);
    FinishClean(Scan(line, START));
    RoundTripIff(Commands(line));
  }

  // ---------- Quotes ----------

  function EscapeAll(text: string): string {
    if text == "" then "" else ['\\', text[0]] + EscapeAll(text[1..])
  }

  /** text as it is written between single quotes, the closing one included. */
  function QuoteRest(text: string): string {
    if text == "" then "'" else (if text[0] == '\'' then "\\'" else [text[0]]) + QuoteRest(text[1..])
  }

  lemma {:induction false} QuotedInverts(text: string, rest: string)
    requires '\\' !in text
    ensures Quoted(QuoteRest(text) + rest, false) == (text, |QuoteRest(text)|)
  {
    var s := QuoteRest(text) + rest;
    if text != "" {
      var tail := QuoteRest(text[1..]) + rest;
      QuotedInverts(text[1..], rest);
      assert text == [text[0]] + text[1..];
      if text[0] == '\'' {
        assert s[1..][1..] == tail;
      } else {
        assert s[1..] == tail;
      }
    }
  }

  lemma {:induction false} ScanEscaped(text: string, rest: string, st: State)
    ensures Scan(EscapeAll(text) + rest, st) == Scan(rest, st.(word := st.word + text))
  {
    hide Scan;
    var s := EscapeAll(text) + rest;
    if text == "" {
      assert s == rest && st.word + "" == st.word;
    } else {
      var tail := EscapeAll(text[1..]) + rest;
      var st' := st.(word := st.word + [text[0]]);
      assert s == ['\\', text[0]] + tail && s[2..] == tail;
      ScanNext(s, st, st', tail);
      ScanEscaped(text[1..], rest, st');
      assert st.word + [text[0]] + text[1..] == st.word + text;
    }
  }

  /** Quoting a text is the same as escaping each of its characters, in any state and before any rest. */
  lemma QuotingIsEscaping(text: string, rest: string, st: State)
    requires '\\' !in text
    ensures Scan("'" + QuoteRest(text) + rest, st) == Scan(EscapeAll(text) + rest, st)
  {
    hide Scan, QuoteRest, EscapeAll, Quoted;
    var s := "'" + QuoteRest(text) + rest;
    assert s[1..] == QuoteRest(text) + rest;
    QuotedInverts(text, rest);
    ScanEscaped(text, rest, st);
    assert s[|QuoteRest(text)| + 1..] == rest;
    ScanNext(s, st, st.(word := st.word + text), rest);
  }

  // ---------- Comments ----------

  lemma {:induction false} CommentLength(text: string, rest: string)
    requires '#' !in text
    ensures Comment(text + "#" + rest) == |text| + 1 && Comment(text) == |text|
  {
    if text != "" {
      assert (text + "#" + rest)[1..] == text[1..] + "#" + rest;
      CommentLength(text[1..], rest);
    }
  }

  /** A comment between two # leaves no trace, in any state and before any rest; without the second # the
      rest of the line is lost. */
  lemma CommentsVanish(text: string, rest: string, st: State)
    requires '#' !in text
    ensures Scan("#" + text + "#" + rest, st) == Scan(rest, st)
    ensures Scan("#" + text, st) == st
  {
    CommentLength(text, rest);
    var s, open := "#" + text + "#" + rest, "#" + text;
    assert s[1..] == text + "#" + rest && open[1..] == text;
    ScanNext(s, st, st, rest);
    ScanNext(open, st, st, "");
    ScanNothing(st);
  }
}
