/** What a line without escapes, quotes and comments lexes to, character by character: words, spaces, operators,
    and the characters that leave no trace. */
module LexerWords {

  import opened Lexer
  import opened LexerLaws
  import opened Wrappers

  // ---------- Characters ----------

  predicate Digit(c: char) {
    c in "0123456789"
  }

  predicate Upper(c: char) {
    c in "ABCDEFGHIJKLMNOPQRSTUVWXYZ"
  }

  predicate Lower(c: char) {
    c in "abcdefghijklmnopqrstuvwxyz"
  }

  /** The characters of which words consist. */
  predicate Plain(c: char) {
    Digit(c) || Upper(c) || Lower(c) || c in "/-_.,~"
  }

  /** The characters with a meaning of their own. */
  predicate Special(c: char) {
    c in " ;|>&\\'#"
  }

  lemma DigitRange(c: char)
    ensures Digit(c) <==> '0' <= c <= '9'
  {
    if '0' <= c <= '9' {
      assert "0123456789"[c as int - '0' as int] == c;
    }
  }

  lemma UpperWithin(c: char)
    ensures Upper(c) ==> 'A' <= c <= 'Z'
  {
  }

  lemma UpperCovers(c: char)
    requires 'A' <= c <= 'Z'
    ensures Upper(c)
  {
    assert "ABCDEFGHIJKLMNOPQRSTUVWXYZ"[c as int - 'A' as int] == c;
  }

  lemma LowerWithin(c: char)
    ensures Lower(c) ==> 'a' <= c <= 'z'
  {
  }

  lemma LowerCovers(c: char)
    requires 'a' <= c <= 'z'
    ensures Lower(c)
  {
    assert "abcdefghijklmnopqrstuvwxyz"[c as int - 'a' as int] == c;
  }

  /** isvalid accepts these 68 characters and no other. */
  lemma PlainIsValid(c: char)
    ensures IsValid(c) <==> Plain(c)
    ensures Plain(c) ==> !Special(c)
  {
    hide Digit, Upper, Lower;
    DigitRange(c);
    UpperWithin(c);
    LowerWithin(c);
    if 'A' <= c <= 'Z' {
      UpperCovers(c);
    } else if 'a' <= c <= 'z' {
      LowerCovers(c);
    }
  }

  /** A character without a meaning leaves no trace, in any state and before any rest. */
  lemma OthersVanish(c: char, rest: string, st: State)
    requires !Plain(c) && !Special(c)
    ensures Scan([c] + rest, st) == Scan(rest, st)
  {
    hide Plain, Scan;
    PlainIsValid(c);
    assert ([c] + rest)[1..] == rest;
    ScanNext([c] + rest, st, st, rest);
  }

  lemma PlainIsTaken(c: char, rest: string, st: State)
    requires Plain(c)
    ensures Scan([c] + rest, st) == Scan(rest, st.(word := st.word + [c], ignoreSpace := false))
  {
    hide Plain, Special, Scan;
    PlainIsValid(c);
    assert ([c] + rest)[1..] == rest;
    ScanNext([c] + rest, st, st.(word := st.word + [c], ignoreSpace := false), rest);
  }

  // ---------- Lines ----------

  /** The plain characters of a text. */
  function Keep(text: string): string {
    if text == "" then "" else if Plain(text[0]) then [text[0]] + Keep(text[1..]) else Keep(text[1..])
  }

  /** A text with something to keep and without characters of special meaning, and the number of spaces
      behind it. */
  datatype Word = Word(text: string, gap: nat) {
    predicate Valid() {
      Keep(text) != "" && forall c <- text :: !Special(c)
    }
  }

  /** What ends a command: an operator, or the end of the line. */
  datatype Mark = Semicolon | Bar | Greater | GreaterGreater | Ampersand | End

  function Sign(m: Mark): string {
    match m
    case Semicolon => ";"
    case Bar => "|"
    case Greater => ">"
    case GreaterGreater => ">>"
    case Ampersand => "&"
    case End => ""
  }

  /** Spaces, words, and what ends the command. */
  datatype Clause = Clause(lead: nat, words: seq<Word>, mark: Mark) {
    predicate Valid() {
      && (forall k :: 0 <= k < |words| ==> words[k].Valid())
      && (forall k :: 0 <= k < |words| - 1 ==> words[k].gap >= 1)
    }
  }

  function Blanks(n: nat): string {
    if n == 0 then "" else " " + Blanks(n - 1)
  }

  function Text(words: seq<Word>): string {
    if words == [] then "" else words[0].text + Blanks(words[0].gap) + Text(words[1..])
  }

  function Line(clauses: seq<Clause>): string {
    if clauses == [] then ""
    else Blanks(clauses[0].lead) + Text(clauses[0].words) + Sign(clauses[0].mark) + Line(clauses[1..])
  }

  predicate NotGreater(rest: string) {
    rest == "" || rest[0] != '>'
  }

  /** Every command but the last ends with an operator, and a > is not followed by another one. */
  predicate WellFormed(clauses: seq<Clause>) {
    && clauses != [] && clauses[0].Valid()
    && (clauses[0].mark.End? <==> |clauses| == 1)
    && (clauses[0].mark.Greater? ==> NotGreater(Line(clauses[1..])))
    && (|clauses| > 1 ==> WellFormed(clauses[1..]))
  }

  // ---------- What they stand for ----------

  function Kept(words: seq<Word>): seq<string> {
    if words == [] then [] else [Keep(words[0].text)] + Kept(words[1..])
  }

  /** A line that starts with a space gets an empty first argument; all other spaces only separate. */
  function Arguments(e: Clause, first: bool): seq<string> {
    (if first && e.lead > 0 then [""] else []) + Kept(e.words)
  }

  function Target(m: Mark): Redirection {
    match m
    case Bar => Pipe
    case Greater => RedirOutput
    case GreaterGreater => AppendOutput
    case _ => NoRedirection
  }

  function Meaning(args: seq<string>, m: Mark): Exec {
    Exec(if args == [] then None else Some(args[0]), args, Target(m), m.Ampersand?)
  }

  /** One command for each operator, and one for what follows the last, if anything does. */
  function Meant(clauses: seq<Clause>, first: bool): seq<Exec>
    requires clauses != []
  {
    var args := Arguments(clauses[0], first);
    if |clauses| == 1 then if args == [] then [] else [Meaning(args, End)]
    else [Meaning(args, clauses[0].mark)] + Meant(clauses[1..], false)
  }

  // ---------- Scanning them ----------

  lemma {:induction false} ScanWord(text: string, rest: string, st: State)
    requires forall c <- text :: !Special(c)
    ensures Scan(text + rest, st)
         == Scan(rest, st.(word := st.word + Keep(text), ignoreSpace := st.ignoreSpace && Keep(text) == ""))
    decreases |text|
  {
    hide Scan, Plain, Special;
    if text == "" {
      assert text + rest == rest && st.word + "" == st.word;
    } else {
      var c, text' := text[0], text[1..];
      assert text + rest == [c] + (text' + rest);
      if Plain(c) {
        assert Keep(text) == [c] + Keep(text');
        PlainIsTaken(c, text' + rest, st);
        ScanWord(text', rest, st.(word := st.word + [c], ignoreSpace := false));
        assert st.word + [c] + Keep(text') == st.word + Keep(text);
      } else {
        assert Keep(text) == Keep(text');
        OthersVanish(c, text' + rest, st);
        ScanWord(text', rest, st);
      }
    }
  }

  /** The state behind n spaces. */
  function Spaced(st: State, n: nat): State {
    if n == 0 then st else Space(st)
  }

  lemma {:induction false} ScanBlanks(n: nat, rest: string, st: State)
    ensures Scan(Blanks(n) + rest, st) == Scan(rest, Spaced(st, n))
  {
    hide Scan;
    if n == 0 {
      assert "" + rest == rest;
    } else {
      assert Blanks(n) + rest == " " + (Blanks(n - 1) + rest);
      ScanSpace(Blanks(n - 1) + rest, st);
      ScanBlanks(n - 1, rest, Space(st));
    }
  }

  /** The arguments of the open command, with or without an empty one begun behind a space. */
  predicate Holds(st: State, closed: seq<Exec>, args: seq<string>) {
    st.closed == closed && WithoutEmpty(st.args, st.word) == args
  }

  lemma ScanOne(w: Word, rest: string, st: State)
    requires w.Valid() && st.word == ""
    ensures Scan(w.text + Blanks(w.gap) + rest, st)
         == Scan(rest, Spaced(State(st.closed, st.args, Keep(w.text), false), w.gap))
  {
    hide Scan, Special, Keep, Blanks;
    var tail := Blanks(w.gap) + rest;
    assert w.text + Blanks(w.gap) + rest == w.text + tail;
    ScanWord(w.text, tail, st);
    assert "" + Keep(w.text) == Keep(w.text);
    ScanBlanks(w.gap, rest, State(st.closed, st.args, Keep(w.text), false));
  }

  lemma HoldsNone(st: State)
    requires st.word == ""
    ensures Holds(st, st.closed, st.args)
  {
  }

  lemma HoldsOne(w: Word, closed: seq<Exec>, args: seq<string>)
    requires w.Valid()
    ensures var st := Spaced(State(closed, args, Keep(w.text), false), w.gap);
            && Holds(st, closed, args + [Keep(w.text)])
            && (w.gap >= 1 ==> st == State(closed, args + [Keep(w.text)], "", true))
  {
    hide Keep, Special;
  }

  lemma TextStep(words: seq<Word>, rest: string)
    ensures words == [] ==> Text(words) + rest == rest
    ensures words != [] ==> var w := words[0]; Text(words) + rest == w.text + Blanks(w.gap) + (Text(words[1..]) + rest)
  {
    hide Blanks;
  }

  lemma KeptStep(words: seq<Word>, args: seq<string>)
    ensures words == [] ==> args + Kept(words) == args
    ensures words != [] ==> args + Kept(words) == args + [Keep(words[0].text)] + Kept(words[1..])
  {
    hide Keep;
  }

  lemma {:induction false} ScanWords(words: seq<Word>, rest: string, st: State) returns (r: State)
    requires forall k :: 0 <= k < |words| ==> words[k].Valid()
    requires forall k :: 0 <= k < |words| - 1 ==> words[k].gap >= 1
    requires st.word == ""
    ensures Scan(Text(words) + rest, st) == Scan(rest, r)
    ensures Holds(r, st.closed, st.args + Kept(words))
    decreases |words|
  {
    hide Scan, Word.Valid, Keep, Blanks, Holds, Spaced, Text, Kept;
    TextStep(words, rest);
    KeptStep(words, st.args);
    if words == [] {
      r := st;
      HoldsNone(st);
    } else {
      var w, words' := words[0], words[1..];
      ScanOne(w, Text(words') + rest, st);
      HoldsOne(w, st.closed, st.args);
      r := Spaced(State(st.closed, st.args, Keep(w.text), false), w.gap);
      if words' == [] {
        TextStep(words', rest);
        KeptStep(words', st.args + [Keep(w.text)]);
      } else {
        r := ScanWords(words', rest, r);
      }
    }
  }

  /** The state in which a command begins. */
  function Fresh(closed: seq<Exec>, first: bool): State {
    State(closed, [], "", !first)
  }

  lemma ScanClause(e: Clause, rest: string, closed: seq<Exec>, first: bool) returns (r: State)
    requires e.Valid()
    ensures Scan(Blanks(e.lead) + Text(e.words) + rest, Fresh(closed, first)) == Scan(rest, r)
    ensures Holds(r, closed, Arguments(e, first))
  {
    hide Scan, Blanks, Text, Kept, Keep, Special, Word.Valid;
    var st := Fresh(closed, first);
    assert Blanks(e.lead) + Text(e.words) + rest == Blanks(e.lead) + (Text(e.words) + rest);
    ScanBlanks(e.lead, Text(e.words) + rest, st);
    var st' := Spaced(st, e.lead);
    assert [] + [""] == [""];
    r := ScanWords(e.words, rest, st');
  }

  /** The command as it stands in the list until the line has been read. */
  function Unnamed(args: seq<string>, m: Mark): Exec {
    Exec(Some(""), args, Target(m), m.Ampersand?)
  }

  lemma ScanMark(m: Mark, rest: string, st: State, closed: seq<Exec>, args: seq<string>)
    requires !m.End? && Holds(st, closed, args) && (m.Greater? ==> NotGreater(rest))
    ensures Scan(Sign(m) + rest, st) == Scan(rest, Fresh(closed + [Unnamed(args, m)], false))
  {
    hide Scan, WithoutEmpty;
    var line := Sign(m) + rest;
    assert line[|Sign(m)|..] == rest;
    assert m.Greater? && rest != "" ==> line[1] == rest[0];
    ScanNext(line, st, Fresh(closed + [Unnamed(args, m)], false), rest);
  }

  function All(cmds: seq<Exec>): seq<Exec> {
    seq(|cmds|, j requires 0 <= j < |cmds| => Named(cmds[j]))
  }

  lemma AllOneMore(cmds: seq<Exec>, args: seq<string>, m: Mark)
    ensures All(cmds + [Unnamed(args, m)]) == All(cmds) + [Meaning(args, m)]
  {
  }

  lemma FinishHolds(st: State, closed: seq<Exec>, args: seq<string>)
    requires Holds(st, closed, args)
    ensures Finish(st) == All(closed) + (if args == [] then [] else [Meaning(args, End)])
  {
    AllOneMore(closed, args, End);
  }

  lemma {:induction false} ScanClauses(clauses: seq<Clause>, closed: seq<Exec>, first: bool)
    requires WellFormed(clauses)
    ensures Finish(Scan(Line(clauses), Fresh(closed, first))) == All(closed) + Meant(clauses, first)
    decreases |clauses|
  {
    hide Scan, Blanks, Text, Finish, Kept, All, Holds, Clause.Valid;
    var e := clauses[0];
    var args := Arguments(e, first);
    var rest := Line(clauses[1..]);
    assert Line(clauses) == Blanks(e.lead) + Text(e.words) + (Sign(e.mark) + rest);
    var st := ScanClause(e, Sign(e.mark) + rest, closed, first);
    if |clauses| == 1 {
      assert Sign(e.mark) + rest == "";
      ScanNothing(st);
      FinishHolds(st, closed, args);
    } else {
      ScanMark(e.mark, rest, st, closed, args);
      var one := Unnamed(args, e.mark);
      ScanClauses(clauses[1..], closed + [one], false);
      AllOneMore(closed, args, e.mark);
      assert All(closed) + [Meaning(args, e.mark)] + Meant(clauses[1..], false) == All(closed) + Meant(clauses, first);
    }
  }

  /** A line of words, spaces and operators lexes to one command per operator, with the plain characters of its
      words as its arguments. */
  lemma LineMeansCommands(clauses: seq<Clause>)
    requires WellFormed(clauses)
    ensures Commands(Line(clauses)) == Meant(clauses, true)
  {
    hide Scan, Line, Meant, Finish;
    ScanClauses(clauses, [], true);
    assert [] + Meant(clauses, true) == Meant(clauses, true);
  }

  // ---------- Quotes and backslashes ----------

  /** The number of backslashes directly before position k. */
  function Backslashes(s: string, k: nat): nat
    requires k <= |s|
  {
    if k > 0 && s[k - 1] == '\\' then Backslashes(s, k - 1) + 1 else 0
  }

  predicate Odd(n: nat) {
    n % 2 == 1
  }

  function WithoutBackslashes(s: string): string {
    if s == "" then ""
    else if s[0] == '\\' then WithoutBackslashes(s[1..])
    else [s[0]] + WithoutBackslashes(s[1..])
  }

  /** Position n is the first quote of s that an even number of backslashes precedes, or the end. */
  predicate ClosesAt(s: string, n: nat) {
    && n <= |s|
    && (n < |s| ==> s[n] == '\'' && !Odd(Backslashes(s, n)))
    && (forall k :: 0 <= k < n && s[k] == '\'' ==> Odd(Backslashes(s, k)))
  }

  lemma {:induction false} QuotedFrom(s: string, i: nat, n: nat)
    requires ClosesAt(s, n) && i <= n
    ensures Quoted(s[i..], Odd(Backslashes(s, i)))
         == (WithoutBackslashes(s[i..n]), n - i + if n < |s| then 1 else 0)
    decreases n - i
  {
    var t := s[i..];
    if i < n {
      QuotedFrom(s, i + 1, n);
      assert t[1..] == s[i + 1..] && s[i..n][1..] == s[i + 1..n];
      assert t[0] == s[i..n][0] == s[i];
      var escape := Odd(Backslashes(s, i));
      assert Odd(Backslashes(s, i + 1)) == (s[i] == '\\' && !escape);
      assert s[i] == '\'' ==> escape;
    } else {
      assert s[i..n] == "";
    }
  }

  lemma ClosesWithin(s: string, n: nat)
    requires ClosesAt(s, n)
    ensures n <= |s|
  {
  }

  /** Quoted text reaches to the first quote that an even number of backslashes precedes, and stands for its
      characters without the backslashes; with no such quote it takes the rest of the line. */
  lemma QuotesExactly(s: string, n: nat, st: State)
    requires ClosesAt(s, n)
    ensures Scan("'" + s, st)
         == Scan(if n < |s| then s[n + 1..] else "", st.(word := st.word + WithoutBackslashes(s[..n])))
  {
    hide Scan, ClosesAt;
    var line := "'" + s;
    QuotedFrom(s, 0, n);
    assert line[1..] == s && s[0..] == s && s[0..n] == s[..n];
    var rest := if n < |s| then s[n + 1..] else "";
    assert n <= |s| by { ClosesWithin(s, n); }
    var used := n + 1 + if n < |s| then 1 else 0;
    assert line[used..] == rest;
    ScanNext(line, st, st.(word := st.word + WithoutBackslashes(s[..n])), rest);
  }

  /** A backslash takes the next character as it is, the terminator of the line at its end. */
  lemma BackslashTakesNext(c: char, rest: string, st: State)
    ensures Scan("\\" + [c] + rest, st) == Scan(rest, st.(word := st.word + [c]))
    ensures Scan("\\", st) == st.(word := st.word + ['\0'])
  {
    hide Scan;
    var line, taken := "\\" + [c] + rest, st.(word := st.word + ['\0']);
    assert line[2..] == rest;
    ScanNext(line, st, st.(word := st.word + [c]), rest);
    ScanNext("\\", st, taken, "");
    ScanNothing(taken);
  }
}
