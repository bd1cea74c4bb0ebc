/**
 * The interactive shell of lib/shell.rb: the command table sorted by name,
 * the configuration file loaded into the levels at start, the read-dispatch
 * loop, and the six commands `quit`, `help`, `list`, `execute`, `next` and
 * `save`.
 *
 * The shell is specified on values: `Step` says what one line of input does
 * to the cursor, the saved passwords, the configuration file and the lines
 * printed, and class `Shell` is proved to do what `Step` says.
 */
module Repl {
  import opened Wrappers
  import opened Text
  import Sorting
  import Ansi
  import opened Registry

  // ------------------------------------------------------------- commands

  /** The subclasses of `CmdBase`. */
  datatype Command = Quit | Help | List | Execute | Next | Save

  /** Every command class, in the order the source declares them. */
  const AllCommands: seq<Command> := [Quit, Help, List, Execute, Next, Save]

  /** The command classes sorted by `NAME`. */
  const Ordered: seq<Command> := [Execute, Help, List, Next, Quit, Save]

  function Name(c: Command): string {
    match c
    case Quit => "quit"
    case Help => "help"
    case List => "list"
    case Execute => "execute"
    case Next => "next"
    case Save => "save"
  }

  function Aliases(c: Command): (r: seq<string>)
    ensures r != []
  {
    match c
    case Quit => ["q"]
    case Help => ["?"]
    case List => ["l"]
    case Execute => ["e"]
    case Next => ["n"]
    case Save => ["s"]
  }

  function Arguments(c: Command): seq<string> {
    match c
    case Execute => ["num"]
    case _ => []
  }

  function Description(c: Command): string {
    match c
    case Quit => "Quit"
    case Help => "Help"
    case List => "List levels"
    case Execute => "Execute the level"
    case Next => "Next level"
    case Save => "Save levels information"
  }

  /** The detect block of `Shell#run`: `c.name == cmd || c.aliases.include?(cmd)`. */
  predicate Answers(c: Command, w: string) {
    Name(c) == w || w in Aliases(c)
  }

  /** The one command every word stands for, read off the table of names and aliases. */
  function CommandFor(w: string): Option<Command> {
    if w == "quit" || w == "q" then Some(Quit)
    else if w == "help" || w == "?" then Some(Help)
    else if w == "list" || w == "l" then Some(List)
    else if w == "execute" || w == "e" then Some(Execute)
    else if w == "next" || w == "n" then Some(Next)
    else if w == "save" || w == "s" then Some(Save)
    else None
  }

  /** A word answers to at most one command: no name or alias is shared. */
  lemma AnswersUnique(c: Command, w: string)
    ensures Answers(c, w) <==> CommandFor(w) == Some(c)
  {
    match c
    case Quit =>
    case Help =>
    case List =>
    case Execute =>
    case Next =>
    case Save =>
  }

  /** `@commands.detect { ... }`: the first command answering to `w`. */
  function Lookup(cs: seq<Command>, w: string): (r: Option<Command>)
    ensures r.Some? ==> r.value in cs && Answers(r.value, w)
    ensures r.None? <==> forall k :: 0 <= k < |cs| ==> !Answers(cs[k], w)
  {
    if cs == [] then None
    else if Answers(cs[0], w) then Some(cs[0])
    else
      var r := Lookup(cs[1..], w);
      assert forall k :: 1 <= k < |cs| ==> cs[k] == cs[1..][k - 1];
      r
  }

  /** Whatever their order, a table holding every command finds the command a word stands for. */
  lemma LookupAll(cs: seq<Command>, w: string)
    requires forall c: Command :: c in cs
    ensures Lookup(cs, w) == CommandFor(w)
  {
    match CommandFor(w)
    case None =>
      forall k | 0 <= k < |cs| ensures !Answers(cs[k], w) { AnswersUnique(cs[k], w); }
    case Some(c) =>
      AnswersUnique(c, w);
      assert c in cs;
      var k :| 0 <= k < |cs| && cs[k] == c;
      assert Lookup(cs, w).Some?;
      AnswersUnique(Lookup(cs, w).value, w);
  }

  /** The comparison block of `@commands.sort!`: `a.name <=> b.name`. */
  function NameLe(a: Command, b: Command): bool {
    LexLe(Name(a), Name(b))
  }

  function CommandNamed(name: string): Option<Command> {
    if name == "quit" then Some(Quit)
    else if name == "help" then Some(Help)
    else if name == "list" then Some(List)
    else if name == "execute" then Some(Execute)
    else if name == "next" then Some(Next)
    else if name == "save" then Some(Save)
    else None
  }

  /** No two commands share a name. */
  lemma NameInjective(c: Command)
    ensures CommandNamed(Name(c)) == Some(c)
  {
    match c
    case Quit =>
    case Help =>
    case List =>
    case Execute =>
    case Next =>
    case Save =>
  }

  /** Comparing names orders any list of commands, with no ties between two commands. */
  lemma NameOrder(cs: seq<Command>)
    ensures Sorting.PreorderOn(NameLe, cs) && Sorting.AntisymmetricOn(NameLe, cs)
  {
    forall x, y | x in cs && y in cs ensures NameLe(x, y) || NameLe(y, x) {
      LexTotal(Name(x), Name(y));
    }
    forall x, y, z | x in cs && y in cs && z in cs && NameLe(x, y) && NameLe(y, z)
      ensures NameLe(x, z)
    {
      LexTrans(Name(x), Name(y), Name(z));
    }
    forall x, y | x in cs && y in cs && NameLe(x, y) && NameLe(y, x) ensures x == y {
      LexAntisym(Name(x), Name(y));
      NameInjective(x);
      NameInjective(y);
    }
  }

  /** `Ordered` is sorted by name. */
  lemma OrderedSorted()
    ensures Sorting.SortedBy(NameLe, Ordered)
  {
    assert NameLe(Execute, Help) && NameLe(Help, List) && NameLe(List, Next);
    assert NameLe(Next, Quit) && NameLe(Quit, Save);
    NameOrder(Ordered);
    forall i, j | 0 <= i < j < |Ordered| ensures NameLe(Ordered[i], Ordered[j]) {
      OrderedChain(i, j);
    }
  }

  lemma OrderedChain(i: nat, j: nat)
    requires i < j < |Ordered|
    requires Sorting.PreorderOn(NameLe, Ordered)
    requires forall k :: 0 <= k < |Ordered| - 1 ==> NameLe(Ordered[k], Ordered[k + 1])
    ensures NameLe(Ordered[i], Ordered[j])
    decreases j - i
  {
    if j > i + 1 {
      OrderedChain(i + 1, j);
      assert Ordered[i] in Ordered && Ordered[i + 1] in Ordered && Ordered[j] in Ordered;
    }
  }

  /**
   * `@commands.sort! { |a, b| a.name <=> b.name }` over the discovered
   * command classes: every order of discovery gives the same table.
   */
  method SortCommands(discovered: seq<Command>) returns (sorted: seq<Command>)
    requires multiset(discovered) == multiset(AllCommands)
    ensures sorted == Ordered
  {
    NameOrder(discovered);
    sorted := Sorting.InsertionSort(discovered, NameLe);
    SortedIsOrdered(sorted);
  }

  /** The one arrangement of the commands sorted by name is `Ordered`. */
  lemma SortedIsOrdered(s: seq<Command>)
    requires Sorting.SortedBy(NameLe, s) && multiset(s) == multiset(AllCommands)
    ensures s == Ordered
  {
    OrderedSorted();
    NameOrder(Ordered);
    OrderedPermutes();
    Sorting.SortedUnique(NameLe, Ordered, s);
  }

  lemma OrderedPermutes()
    ensures multiset(Ordered) == multiset(AllCommands)
  {
    calc {
      multiset(Ordered);
      multiset{Execute, Help, List, Next, Quit, Save};
      multiset{Quit, Help, List, Execute, Next, Save};
      multiset(AllCommands);
    }
  }

  // ------------------------------------------------------------- messages

  /** `Shell::BANNER`: the squiggly heredoc with its four-space indentation removed. */
  const Banner: string :=
    "___________________________\n\n OverTheWire wargame Natas\n___________________________\n"

  /** The hint `Shell#run` prints, built from the name and first alias of `help`. */
  const Hint: string := "Type " + Name(Help) + " or " + Aliases(Help)[0] + " for list of commands"

  /**
   * The codes of the colour chains the shell calls on its console; the
   * lemmas `RedTextCodes` and so on below show that each is what the chain buffers.
   */
  const RedText: seq<nat> := [31]
  const YellowText: seq<nat> := [33]
  const MagentaText: seq<nat> := [35]
  const CyanBold: seq<nat> := [36, 1]
  const MagentaBold: seq<nat> := [35, 1]
  const RedBoldOnWhite: seq<nat> := [31, 1, 47]

  const Unrecognized: string := "Unrecognized command "
  const RangeError: string := "Level must be between 0-" + IntToString(MaxLevel)
  const MaximumReached: string := "Maximum level reached"

  /** `Shell::CONFIG_FILE` for the home directory `home`. */
  function ConfigFile(home: string): string {
    home + "/.natas.yml"
  }

  function Saved(home: string): string {
    "Information has been saved to " + ConfigFile(home)
  }

  /** `format('%-30s', s)`: `s` padded with spaces on the right to 30 characters. */
  function PadRight(s: string, width: nat): (r: string)
    ensures |r| == if |s| < width then width else |s|
    ensures r[..|s|] == s && forall i :: |s| <= i < |r| ==> r[i] == ' '
  {
    if |s| < width then s + seq(width - |s|, _ => ' ') else s
  }

  /** The words `help` prints for a command: its name and `<arg>` for each argument. */
  function Usage(c: Command): string {
    Join([Name(c)] + seq(|Arguments(c)|, i requires 0 <= i < |Arguments(c)| => "<" + Arguments(c)[i] + ">"), " ")
  }

  /** One line of `help`: `'%<alias>s %<cmd>-30s %<description>s'`, each part coloured. */
  function HelpLine(c: Command): string {
    Ansi.Render(CyanBold, Aliases(c)[0]) + " "
      + PadRight(Ansi.Render(MagentaText, Usage(c)), 30) + " "
      + Ansi.Render(YellowText, Description(c))
  }

  /** What `help` prints: one line per command, in the order of the table. */
  function HelpLines(cs: seq<Command>): (r: seq<string>)
    ensures |r| == |cs| && forall k :: 0 <= k < |cs| ==> r[k] == HelpLine(cs[k])
  {
    Sorting.MapSeq(HelpLine, cs)
  }

  /** `'%<login>s%<level>d: %<password>s'`; a missing password prints as nothing. */
  function ListText(e: Entry): string {
    Login + Decimal(e.index) + ": " + e.password.GetOr("")
  }

  /** The highlight rule of `list`: the level under the cursor is red and bold on white. */
  function ListLine(e: Entry, cursor: Option<int>): string {
    if cursor == Some(e.index as int) then Ansi.Render(RedBoldOnWhite, ListText(e))
    else ListText(e)
  }

  function ListLines(es: seq<Entry>, cursor: Option<int>): (r: seq<string>)
    ensures |r| == |es| && forall k :: 0 <= k < |es| ==> r[k] == ListLine(es[k], cursor)
  {
    Sorting.MapSeq(e => ListLine(e, cursor), es)
  }

  /** How `puts @shell.console.red(e)` reports a failure. */
  function Alert(text: string): string {
    Ansi.Render(RedText, text)
  }

  /** The codes the shell's colour chains buffer, as `STYLES` and `COLORS` give them. */
  lemma RedTextCodes()
    ensures Ansi.Codes(["red"]) == RedText
  {
    ChainCode([], Ansi.ColorName(Ansi.Red), [31]);
  }

  lemma YellowTextCodes()
    ensures Ansi.Codes(["yellow"]) == YellowText
  {
    ChainCode([], Ansi.ColorName(Ansi.Yellow), [33]);
  }

  lemma MagentaTextCodes()
    ensures Ansi.Codes(["magenta"]) == MagentaText
  {
    ChainCode([], Ansi.ColorName(Ansi.Magenta), [35]);
  }

  lemma CyanBoldCodes()
    ensures Ansi.Codes(["cyan", "bold"]) == CyanBold
  {
    ChainCode([], Ansi.ColorName(Ansi.Cyan), [36]);
    ChainCode(["cyan"], Ansi.StyleName(Ansi.Bold), [36, 1]);
  }

  lemma MagentaBoldCodes()
    ensures Ansi.Codes(["magenta", "bold"]) == MagentaBold
  {
    MagentaTextCodes();
    ChainCode(["magenta"], Ansi.StyleName(Ansi.Bold), [35, 1]);
  }

  lemma RedBoldOnWhiteCodes()
    ensures Ansi.Codes(["red", "bold", "on_white"]) == RedBoldOnWhite
  {
    RedBoldCodes();
    OnWhiteCode();
    ChainCode(["red", "bold"], "on_white", [31, 1, 47]);
    assert ["red", "bold"] + ["on_white"] == ["red", "bold", "on_white"];
  }

  lemma RedBoldCodes()
    ensures Ansi.Codes(["red", "bold"]) == [31, 1]
  {
    RedTextCodes();
    ChainCode(["red"], Ansi.StyleName(Ansi.Bold), [31, 1]);
    assert ["red"] + [Ansi.StyleName(Ansi.Bold)] == ["red", "bold"];
  }

  lemma OnWhiteCode()
    ensures Ansi.Buffered("on_white") == [47]
  {
    Ansi.BackgroundNameCode(Ansi.White);
    assert "on_" + Ansi.ColorName(Ansi.White) == "on_white";
  }


  /** One more call in a chain adds its code at the end. */
  lemma ChainCode(names: seq<string>, name: string, codes: seq<nat>)
    requires codes == Ansi.Codes(names) + Ansi.Buffered(name)
    ensures Ansi.Codes(names + [name]) == codes
  {
    assert (names + [name])[..|names|] == names;
  }

  /** In `list`, the styled lines are exactly those of the levels under the cursor. */
  lemma ListHighlight(es: seq<Entry>, cursor: Option<int>, k: nat)
    requires k < |es|
    ensures cursor == Some(es[k].index as int) ==>
              Ansi.Decode(ListLines(es, cursor)[k]) == Some(Ansi.Styled([31, 1, 47], ListText(es[k])))
    ensures cursor != Some(es[k].index as int) ==>
              Ansi.Decode(ListLines(es, cursor)[k]) == Some(Ansi.Styled([], ListText(es[k])))
  {
    var line, text := ListLines(es, cursor)[k], ListText(es[k]);
    if cursor == Some(es[k].index as int) {
      RedBoldOnWhiteCodes();
      assert line == Ansi.Render([31, 1, 47], text);
      Ansi.DecodeRender([31, 1, 47], text);
    } else {
      assert line == text && text[0] == 'n';
      Ansi.DecodePlain(text);
    }
  }

  // ---------------------------------------------------------------- state

  /** The content of the configuration file: `YAML.dump` of a level-to-password map. */
  type Config = map<int, Option<string>>

  /**
   * Everything a line of input can change: the cursor `Natas#level`, the
   * levels' passwords, the configuration file, the lines printed with
   * `puts`, and whether the program has exited.
   */
  datatype State = State(
    cursor: Option<int>,
    entries: seq<Entry>,
    file: Option<Config>,
    output: seq<string>,
    exited: bool)

  /** The cursor only ever holds a level the shell accepts. */
  predicate InRange(cursor: Option<int>) {
    cursor.None? || 0 <= cursor.value <= MaxLevel
  }

  /** `natas.exec` with the cursor at `cursor`, a raised error printed in red. */
  ghost function Unlocked(st: State, cursor: Option<int>, exploit: Exploit): State {
    var u := Run(st.entries, cursor, exploit);
    var report := if u.result.Failure? then [Alert(u.result.error)] else [];
    st.(cursor := cursor, entries := u.entries, output := st.output + report)
  }

  /** The cursor `natas.exec` runs at is the one it leaves behind. */
  lemma UnlockedCursor(st: State, cursor: Option<int>, exploit: Exploit)
    ensures Unlocked(st.(cursor := cursor), cursor, exploit) == Unlocked(st, cursor, exploit)
  {
  }

  /** `CmdExecute#exec`. */
  ghost function ExecuteState(st: State, args: seq<string>, exploit: Exploit): State {
    if args != [] && !(0 <= ToI(args[0]) <= MaxLevel) then st.(output := st.output + [Alert(RangeError)])
    else
      var cursor := if args != [] then Some(ToI(args[0])) else st.cursor;
      Unlocked(st, Some(cursor.GetOr(0)), exploit)
  }

  /** `CmdNext#exec`. */
  ghost function NextState(st: State, exploit: Exploit): State {
    if st.cursor == Some(MaxLevel) then st.(output := st.output + [Alert(MaximumReached)])
    else Unlocked(st, Some(if st.cursor.None? then 0 else st.cursor.value + 1), exploit)
  }

  /** `CmdSave#exec`: the file is rewritten with `to_yaml` of the levels. */
  function SaveState(st: State, home: string): State {
    st.(file := Some(Dump(st.entries)), output := st.output + [Ansi.Render(YellowText, Saved(home))])
  }

  /** `command.exec(args)` for each command class. */
  ghost function Perform(cs: seq<Command>, home: string, st: State, c: Command, args: seq<string>, exploit: Exploit): State {
    match c
    case Quit => st.(exited := true)
    case Help => st.(output := st.output + HelpLines(cs))
    case List => st.(output := st.output + ListLines(st.entries, st.cursor))
    case Execute => ExecuteState(st, args, exploit)
    case Next => NextState(st, exploit)
    case Save => SaveState(st, home)
  }

  /** The report of a word that names no command. */
  function UnknownLine(w: string): string {
    Alert(Unrecognized) + Ansi.Render(MagentaBold, w)
  }

  /**
   * One pass of the loop in `Shell#run` with the line Readline returned
   * (`None` at the end of the input).
   */
  ghost function Step(cs: seq<Command>, home: string, st: State, line: Option<string>, exploit: Exploit): State {
    match line
    case None => st.(exited := true)
    case Some(l) =>
      var t := Strip(l);
      if t == [] then st
      else
        WordsFirst(t);
        var ws := Words(t);
        var w := Lower(ws[0]);
        match Lookup(cs, w)
        case None => st.(output := st.output + [UnknownLine(w)])
        case Some(c) => Perform(cs, home, st, c, ws[1..], exploit)
  }

  /** A line that is not blank and whose first word names no command reports that word. */
  lemma StepUnknown(cs: seq<Command>, home: string, st: State, l: string, exploit: Exploit)
    requires Strip(l) != []
    ensures var ws := Words(Strip(l));
            && ws != []
            && (Lookup(cs, Lower(ws[0])).None? ==>
                  Step(cs, home, st, Some(l), exploit) == st.(output := st.output + [UnknownLine(Lower(ws[0]))]))
  {
    WordsFirst(Strip(l));
  }

  /** A line that is not blank runs the command its first word names, with the other words as arguments. */
  lemma StepKnown(cs: seq<Command>, home: string, st: State, l: string, exploit: Exploit)
    requires Strip(l) != []
    ensures var ws := Words(Strip(l));
            && ws != []
            && (Lookup(cs, Lower(ws[0])).Some? ==>
                  Step(cs, home, st, Some(l), exploit) == Perform(cs, home, st, Lookup(cs, Lower(ws[0])).value, ws[1..], exploit))
  {
    WordsFirst(Strip(l));
  }

  /**
   * The loop of `Shell#run` over the lines of the input, until the program
   * exits. `exploits[k]` is what the levels' `exec` does while line `k` is
   * handled, so a level may answer differently each time it is run.
   */
  ghost function Steps(cs: seq<Command>, home: string, st: State, lines: seq<string>, exploits: seq<Exploit>): State
    requires |exploits| == |lines|
    decreases |lines|
  {
    if st.exited then st
    else if lines == [] then st.(exited := true)
    else Steps(cs, home, Step(cs, home, st, Some(lines[0]), exploits[0]), lines[1..], exploits[1..])
  }

  /** What `Shell#run` prints before reading the first line. */
  function Greeted(st: State): State {
    st.(output := st.output + [Ansi.Render(CyanBold, Banner),
                               Ansi.Render(YellowText, Hint)])
  }

  // ----------------------------------------------------------- properties

  /** A line keeps the cursor in range, keeps the levels, and only adds to what was printed. */
  lemma StepInvariant(cs: seq<Command>, home: string, st: State, line: Option<string>, exploit: Exploit)
    requires InRange(st.cursor)
    ensures var r := Step(cs, home, st, line, exploit);
            InRange(r.cursor) && SameIndices(r.entries, st.entries) && st.output <= r.output
  {
    match line
    case None =>
    case Some(l) =>
      var t := Strip(l);
      if t != [] {
        WordsFirst(t);
        var ws := Words(t);
        match Lookup(cs, Lower(ws[0]))
        case None =>
        case Some(c) => PerformKeeps(cs, home, st, c, ws[1..], exploit);
      }
  }

  lemma PerformKeeps(cs: seq<Command>, home: string, st: State, c: Command, args: seq<string>, exploit: Exploit)
    requires InRange(st.cursor)
    ensures var r := Perform(cs, home, st, c, args, exploit);
            InRange(r.cursor) && SameIndices(r.entries, st.entries) && st.output <= r.output
  {
    match c
    case Execute =>
      if args != [] && !(0 <= ToI(args[0]) <= MaxLevel) {
      } else {
        var cursor := if args != [] then Some(ToI(args[0])) else st.cursor;
        UnlockedKeeps(st, Some(cursor.GetOr(0)), exploit);
      }
    case Next =>
      if st.cursor != Some(MaxLevel) {
        UnlockedKeeps(st, Some(if st.cursor.None? then 0 else st.cursor.value + 1), exploit);
      }
    case _ =>
  }

  lemma UnlockedKeeps(st: State, cursor: Option<int>, exploit: Exploit)
    ensures var r := Unlocked(st, cursor, exploit);
            r.cursor == cursor && SameIndices(r.entries, st.entries) && st.output <= r.output
  {
  }

  /** The loop ends, at the latest when the input does, and keeps the invariant of each step. */
  lemma {:induction false} StepsInvariant(cs: seq<Command>, home: string, st: State, lines: seq<string>, exploits: seq<Exploit>)
    requires InRange(st.cursor) && |exploits| == |lines|
    ensures var r := Steps(cs, home, st, lines, exploits);
            r.exited && InRange(r.cursor) && SameIndices(r.entries, st.entries) && st.output <= r.output
    decreases |lines|
  {
    if !st.exited && lines != [] {
      var next := Step(cs, home, st, Some(lines[0]), exploits[0]);
      StepInvariant(cs, home, st, Some(lines[0]), exploits[0]);
      StepsInvariant(cs, home, next, lines[1..], exploits[1..]);
    }
  }

  /** A blank line changes nothing. */
  lemma BlankLine(cs: seq<Command>, home: string, st: State, l: string, exploit: Exploit)
    requires forall i :: 0 <= i < |l| ==> IsSpace(l[i])
    ensures Step(cs, home, st, Some(l), exploit) == st
  {
  }

  lemma StripWord(s: string)
    requires s != [] && !IsSpace(s[0]) && !IsSpace(s[|s| - 1])
    ensures Strip(s) == s
  {
  }

  /** The words of a command line typed with single spaces. */
  lemma {:induction false} TypedLine(ws: seq<string>)
    requires ws != [] && forall k :: 0 <= k < |ws| ==> ws[k] != [] && NoSpace(ws[k])
    ensures Words(Strip(Unwords(ws))) == ws
  {
    var s := Unwords(ws);
    TailStart(ws);
    UnwordsEnd(ws);
    StripWord(s);
    WordsUnwords(ws);
  }

  lemma {:induction false} UnwordsEnd(ws: seq<string>)
    requires ws != [] && forall k :: 0 <= k < |ws| ==> ws[k] != [] && NoSpace(ws[k])
    ensures Unwords(ws) != [] && !IsSpace(Unwords(ws)[|Unwords(ws)| - 1])
    decreases |ws|
  {
    if |ws| > 1 {
      UnwordsEnd(ws[1..]);
    } else {
      assert ws[0][|ws[0]| - 1] == ws[0][|ws[0]| - 1];
    }
  }

  /** `execute <n>` with a level in range moves the cursor to it and runs that level. */
  lemma ExecuteSelects(cs: seq<Command>, home: string, st: State, n: int, exploit: Exploit)
    requires Execute in cs && 0 <= n <= MaxLevel
    ensures Step(cs, home, st, Some("execute " + IntToString(n)), exploit) == Unlocked(st, Some(n), exploit)
  {
    var args := [IntToString(n)];
    ExecuteLine(cs, home, st, n, exploit);
    IntToStringToI(n);
    ExecuteInRange(st, args, exploit);
  }

  lemma ExecuteInRange(st: State, args: seq<string>, exploit: Exploit)
    requires args != [] && 0 <= ToI(args[0]) <= MaxLevel
    ensures ExecuteState(st, args, exploit) == Unlocked(st, Some(ToI(args[0])), exploit)
  {
  }

  /** `execute <n>` with a level out of range only prints the range error. */
  lemma ExecuteOutOfRange(cs: seq<Command>, home: string, st: State, n: int, exploit: Exploit)
    requires Execute in cs && !(0 <= n <= MaxLevel)
    ensures Step(cs, home, st, Some("execute " + IntToString(n)), exploit) ==
              st.(output := st.output + [Alert(RangeError)])
  {
    ExecuteLine(cs, home, st, n, exploit);
    IntToStringToI(n);
  }

  lemma ExecuteLine(cs: seq<Command>, home: string, st: State, n: int, exploit: Exploit)
    requires Execute in cs
    ensures Step(cs, home, st, Some("execute " + IntToString(n)), exploit) ==
              ExecuteState(st, [IntToString(n)], exploit)
  {
    var args := [IntToString(n)];
    var line := Unwords([Name(Execute)] + args);
    UnwordsPair(Name(Execute), IntToString(n));
    assert line == "execute " + IntToString(n);
    StepCommand(cs, home, st, Execute, args, exploit);
    assert Step(cs, home, st, Some(line), exploit) == Perform(cs, home, st, Execute, args, exploit);
    PerformExecute(cs, home, st, args, exploit);
  }

  lemma PerformExecute(cs: seq<Command>, home: string, st: State, args: seq<string>, exploit: Exploit)
    ensures Perform(cs, home, st, Execute, args, exploit) == ExecuteState(st, args, exploit)
  {
  }

  lemma UnwordsPair(a: string, b: string)
    ensures Unwords([a] + [b]) == a + " " + b
  {
    assert ([a] + [b])[1..] == [b];
  }

  /** A line holding a command's name and then its arguments, one space apart, runs that command with them. */
  lemma StepCommand(cs: seq<Command>, home: string, st: State, c: Command, args: seq<string>, exploit: Exploit)
    requires c in cs
    requires forall k :: 0 <= k < |args| ==> args[k] != [] && NoSpace(args[k])
    ensures Step(cs, home, st, Some(Unwords([Name(c)] + args)), exploit) == Perform(cs, home, st, c, args, exploit)
  {
    TypedCommand(cs, c, args);
    var ws := [Name(c)] + args;
    assert ws[1..] == args;
  }

  /** The words typed after a command's name reach the command as its arguments. */
  lemma TypedCommand(cs: seq<Command>, c: Command, args: seq<string>)
    requires c in cs
    requires forall k :: 0 <= k < |args| ==> args[k] != [] && NoSpace(args[k])
    ensures var t := Strip(Unwords([Name(c)] + args));
            t != [] && Words(t) == [Name(c)] + args &&
            Lookup(cs, Lower(Name(c))) == Some(c)
  {
    var ws := [Name(c)] + args;
    NameWord(c);
    TypedLine(ws);
    LookupName(cs, c);
  }

  /** A command name is one lower-case word. */
  lemma NameWord(c: Command)
    ensures Name(c) != [] && NoSpace(Name(c)) && Lower(Name(c)) == Name(c)
  {
    match c
    case Quit =>
    case Help =>
    case List =>
    case Execute =>
    case Next =>
    case Save =>
  }

  lemma LookupName(cs: seq<Command>, c: Command)
    requires c in cs
    ensures Lookup(cs, Name(c)) == Some(c)
  {
    AnswersUnique(c, Name(c));
    var k :| 0 <= k < |cs| && cs[k] == c;
    assert Lookup(cs, Name(c)).Some?;
    AnswersUnique(Lookup(cs, Name(c)).value, Name(c));
  }

  /** `next` at the last level only says so. */
  lemma NextAtMaximum(st: State, exploit: Exploit)
    requires st.cursor == Some(MaxLevel)
    ensures NextState(st, exploit) == st.(output := st.output + [Alert(MaximumReached)])
  {
  }

  /** `next` before any level was selected runs level 0. */
  lemma NextFromStart(st: State, exploit: Exploit)
    requires st.cursor.None?
    ensures NextState(st, exploit) == Unlocked(st, Some(0), exploit)
  {
  }

  /**
   * `save` followed by loading the file at the next start restores every
   * password, when no two levels share an index.
   */
  lemma SaveRestores(st: State, home: string, before: seq<Entry>)
    requires SameIndices(before, st.entries) && DistinctIndices(st.entries)
    ensures var r := SaveState(st, home);
            r.file.Some? && Loaded(before, r.file.value) == st.entries && r.entries == st.entries
  {
    DumpLoaded(st.entries, before);
  }

  // ---------------------------------------------------------------- shell

  /** Class `Shell`: its console, its registry, its command table and what it has printed. */
  class Shell {
    const home: string
    const console: Ansi.Console
    const natas: Natas
    const commands: seq<Command>
    /** The configuration file `~/.natas.yml`, if it exists. */
    var file: Option<Config>
    /** The strings passed to `puts`, in order. */
    var output: seq<string>
    var exited: bool

    ghost predicate Valid()
      reads this, console, natas
    {
      console.Valid() && console.sgr == [] && natas.Valid() && InRange(natas.level)
    }

    ghost function Abstract(): State
      reads this, natas, natas.levels
    {
      State(natas.level, Snapshot(natas.levels), file, output, exited)
    }

    /**
     * `Shell#initialize`: the console, the registry over the discovered level
     * classes, the command table sorted by name, and the passwords of the
     * configuration file when it exists.
     */
    constructor (home: string, file: Option<Config>, levelClasses: seq<nat>, discovered: seq<Command>)
      requires multiset(discovered) == multiset(AllCommands)
      ensures Valid() && fresh(console) && fresh(natas)
      ensures this.home == home && this.file == file && output == [] && !exited
      ensures commands == Ordered
      ensures natas.level == None && |natas.levels| == |levelClasses|
      ensures forall l :: l in natas.levels ==> fresh(l) && l.login == Login + Decimal(l.index)
      ensures multiset(Sorting.MapSeq(LevelIndex, natas.levels)) == multiset(levelClasses)
      ensures file.None? ==> forall l :: l in natas.levels ==> Fresh(l)
      ensures file.Some? ==> forall l :: l in natas.levels ==>
                l.password == if l.index as int in file.value then file.value[l.index] else None
    {
      this.home := home;
      console := new Ansi.Console();
      var registry := OpenRegistry(levelClasses, file);
      natas := registry;
      var sorted := SortCommands(discovered);
      commands := sorted;
      this.file := file;
      output := [];
      exited := false;
    }

    /** One pass of the loop in `Shell#run`. */
    method Handle(line: Option<string>, exploit: Exploit)
      requires Valid() && !exited
      modifies this, console, natas, natas.levels
      ensures Valid() && natas.levels == old(natas.levels)
      ensures Abstract() == Step(commands, home, old(Abstract()), line, exploit)
    {
      ghost var st := Abstract();
      if line.None? {
        Quit();
        return;
      }
      var t := Strip(line.value);
      if t == [] {
        return;
      }
      StepUnknown(commands, home, st, line.value, exploit);
      StepKnown(commands, home, st, line.value, exploit);
      var words := Words(t);
      var cmd := Lower(words[0]);
      var command := Lookup(commands, cmd);
      if command.None? {
        Reject(cmd);
        return;
      }
      Dispatch(command.value, words[1..], exploit);
    }

    /** The report of a first word that names no command. */
    method Reject(cmd: string)
      requires Valid()
      modifies this, console
      ensures Valid()
      ensures Abstract() == old(Abstract()).(output := old(output) + [UnknownLine(cmd)])
    {
      var a := PaintRed(console, Unrecognized);
      var b := PaintMagentaBold(console, cmd);
      Puts(a + b);
    }

    /** `command.exec(args)`. */
    method Dispatch(c: Command, args: seq<string>, exploit: Exploit)
      requires Valid()
      modifies this, console, natas, natas.levels
      ensures Valid() && natas.levels == old(natas.levels)
      ensures Abstract() == Perform(commands, home, old(Abstract()), c, args, exploit)
    {
      ghost var st := Abstract();
      match c
      case Quit =>
        exited := true;
        assert Snapshot(natas.levels) == st.entries;
      case Help =>
        ShowHelp();
        assert Snapshot(natas.levels) == st.entries;
        assert natas.level == st.cursor && file == st.file && exited == st.exited;
      case List =>
        ShowList();
        assert Snapshot(natas.levels) == st.entries;
        assert natas.level == st.cursor && file == st.file && exited == st.exited;
      case Execute => ExecuteLevel(args, exploit);
      case Next => NextLevel(exploit);
      case Save => SaveLevels();
    }

    /** `CmdHelp#exec`: one line per command of the table. */
    method ShowHelp()
      requires Valid()
      modifies this, console
      ensures Valid() && file == old(file) && exited == old(exited)
      ensures output == old(output) + HelpLines(commands)
    {
      var lines := HelpText(console, commands);
      output := output + lines;
    }

    /** `CmdList#exec`: one line per level, the one under the cursor highlighted. */
    method ShowList()
      requires Valid()
      modifies this, console
      ensures Valid() && file == old(file) && exited == old(exited)
      ensures output == old(output) + ListLines(Snapshot(natas.levels), natas.level)
    {
      var lines := ListingText(console, natas.levels, natas.level);
      output := output + lines;
    }

    /** `natas.exec`, with a raised error printed in red. */
    method ExecLevel(exploit: Exploit)
      requires Valid()
      modifies this, console, natas.levels
      ensures Valid()
      ensures Abstract() == Unlocked(old(Abstract()), natas.level, exploit)
    {
      ghost var st := Abstract();
      ghost var u := Registry.Run(st.entries, natas.level, exploit);
      var r := natas.Exec(exploit);
      assert r == u.result && Snapshot(natas.levels) == u.entries;
      assert Abstract() == st.(entries := u.entries);
      Report(r);
    }

    /** The error `natas.exec` raised, if any, printed in red. */
    method Report(r: Result<Option<string>, string>)
      requires Valid()
      modifies this, console
      ensures Valid()
      ensures Abstract() == old(Abstract()).(output := old(output) + if r.Failure? then [Alert(r.error)] else [])
    {
      if r.Failure? {
        Warn(r.error);
      }
    }

    /** `puts @shell.console.red(text)`. */
    method Warn(text: string)
      requires Valid()
      modifies this, console
      ensures Valid()
      ensures Abstract() == old(Abstract()).(output := old(output) + [Alert(text)])
    {
      var line := PaintRed(console, text);
      Puts(line);
    }

    /** The banner and the hint `Shell#run` prints first. */
    method Greet()
      requires Valid()
      modifies this, console
      ensures Valid()
      ensures Abstract() == Greeted(old(Abstract()))
    {
      ghost var st := Abstract();
      var banner := PaintCyanBold(console, Banner);
      var hint := PaintYellow(console, Hint);
      Puts(banner);
      Puts(hint);
    }

    /** `puts @shell.console.yellow(text)`. */
    method Inform(text: string)
      requires Valid()
      modifies this, console
      ensures Valid()
      ensures Abstract() == old(Abstract()).(output := old(output) + [Ansi.Render(YellowText, text)])
    {
      var line := PaintYellow(console, text);
      Puts(line);
    }

    /** `puts line`. */
    method Puts(line: string)
      requires Valid()
      modifies this
      ensures Valid()
      ensures Abstract() == old(Abstract()).(output := old(output) + [line])
    {
      ghost var st := Abstract();
      output := output + [line];
      assert Snapshot(natas.levels) == st.entries;
      assert natas.level == st.cursor && file == st.file && exited == st.exited;
    }

    /** `File.write(CONFIG_FILE, data)`. */
    method Store(data: Config)
      requires Valid()
      modifies this
      ensures Valid()
      ensures Abstract() == old(Abstract()).(file := Some(data))
    {
      ghost var st := Abstract();
      file := Some(data);
      assert Snapshot(natas.levels) == st.entries;
      assert natas.level == st.cursor && output == st.output && exited == st.exited;
    }

    /** `@shell.natas.level = cursor`. */
    method MoveTo(cursor: Option<int>)
      requires Valid() && InRange(cursor)
      modifies natas
      ensures Valid() && natas.levels == old(natas.levels)
      ensures Abstract() == old(Abstract()).(cursor := cursor)
    {
      ghost var st := Abstract();
      natas.level := cursor;
      assert Snapshot(natas.levels) == st.entries;
    }

    /** `CmdExecute#exec`. */
    method ExecuteLevel(args: seq<string>, exploit: Exploit)
      requires Valid()
      modifies this, console, natas, natas.levels
      ensures Valid() && natas.levels == old(natas.levels)
      ensures Abstract() == ExecuteState(old(Abstract()), args, exploit)
    {
      ghost var st := Abstract();
      if args != [] {
        var level := ToI(args[0]);
        if !(0 <= level <= MaxLevel) {
          Warn(RangeError);
          return;
        }
        MoveTo(Some(level));
      }
      if natas.level.None? {
        MoveTo(Some(0));
      }
      ghost var cursor := Some((if args != [] then Some(ToI(args[0])) else st.cursor).GetOr(0));
      assert Abstract() == st.(cursor := cursor);
      ExecLevel(exploit);
      UnlockedCursor(st, cursor, exploit);
    }

    /** `CmdNext#exec`. */
    method NextLevel(exploit: Exploit)
      requires Valid()
      modifies this, console, natas, natas.levels
      ensures Valid() && natas.levels == old(natas.levels)
      ensures Abstract() == NextState(old(Abstract()), exploit)
    {
      ghost var st := Abstract();
      if natas.level == Some(MaxLevel) {
        Warn(MaximumReached);
        return;
      }
      var cursor := Some(if natas.level.None? then 0 else natas.level.value + 1);
      MoveTo(cursor);
      assert Abstract() == st.(cursor := cursor);
      ExecLevel(exploit);
      UnlockedCursor(st, cursor, exploit);
    }

    /** `CmdSave#exec`: the file gets `to_yaml` of the levels. */
    method SaveLevels()
      requires Valid()
      modifies this, console
      ensures Valid()
      ensures Abstract() == SaveState(old(Abstract()), home)
    {
      ghost var st := Abstract();
      var data := natas.ToYaml();
      assert data == Dump(st.entries);
      Store(data);
      Inform(Saved(home));
    }

    /**
     * `Shell#run`: the banner and the hint, then one `Handle` per line of
     * `input` until a command exits or the input ends; line `i` is handled
     * with `exploits[i]`.
     */
    method Run(input: seq<string>, exploits: seq<Exploit>)
      requires Valid() && !exited && |exploits| == |input|
      modifies this, console, natas, natas.levels
      ensures Valid() && exited
      ensures Abstract() == Steps(commands, home, Greeted(old(Abstract())), input, exploits)
    {
      Greet();
      ghost var levels := natas.levels;
      ghost var target := Steps(commands, home, Greeted(old(Abstract())), input, exploits);
      var i := 0;
      while !exited
        invariant 0 <= i <= |input| && Valid() && natas.levels == levels
        invariant Steps(commands, home, Abstract(), input[i..], exploits[i..]) == target
        decreases |input| - i + (if exited then 0 else 1)
      {
        if i < |input| {
          assert input[i..][1..] == input[i + 1..] && exploits[i..][1..] == exploits[i + 1..];
          Handle(Some(input[i]), exploits[i]);
          i := i + 1;
        } else {
          Quit();
        }
      }
    }

    /** `exit if line.nil?`: Readline found the end of the input. */
    method Quit()
      requires Valid()
      modifies this
      ensures Valid()
      ensures Abstract() == old(Abstract()).(exited := true)
    {
      exited := true;
      assert Snapshot(natas.levels) == old(Snapshot(natas.levels));
    }
  }

  /** A chain of console calls ending in one with `text`, such as `console.red.bold(text)`. */
  method Paint(console: Ansi.Console, names: seq<string>, text: string) returns (s: string)
    requires names != [] && console.Valid() && console.sgr == []
    modifies console
    ensures console.Valid() && console.sgr == []
    ensures s == Ansi.Render(Ansi.Codes(names), text)
  {
    var i := 0;
    while i < |names| - 1
      invariant 0 <= i <= |names| - 1
      invariant console.Valid() && console.sgr == Ansi.Codes(names[..i])
    {
      var chained := console.MethodMissing(names[i], []);
      assert names[..i + 1][..i] == names[..i];
      i := i + 1;
    }
    var r := console.MethodMissing(names[i], [text]);
    assert names[..i + 1] == names && names[..i + 1][..i] == names[..i];
    s := r.out;
  }

  /** `console.red(text)`. */
  method PaintRed(console: Ansi.Console, text: string) returns (s: string)
    requires console.Valid() && console.sgr == []
    modifies console
    ensures console.Valid() && console.sgr == []
    ensures s == Ansi.Render(RedText, text)
  {
    RedTextCodes();
    s := Paint(console, ["red"], text);
  }

  /** `console.yellow(text)`. */
  method PaintYellow(console: Ansi.Console, text: string) returns (s: string)
    requires console.Valid() && console.sgr == []
    modifies console
    ensures console.Valid() && console.sgr == []
    ensures s == Ansi.Render(YellowText, text)
  {
    YellowTextCodes();
    s := Paint(console, ["yellow"], text);
  }

  /** `console.magenta(text)`. */
  method PaintMagenta(console: Ansi.Console, text: string) returns (s: string)
    requires console.Valid() && console.sgr == []
    modifies console
    ensures console.Valid() && console.sgr == []
    ensures s == Ansi.Render(MagentaText, text)
  {
    MagentaTextCodes();
    s := Paint(console, ["magenta"], text);
  }

  /** `console.cyan.bold(text)`. */
  method PaintCyanBold(console: Ansi.Console, text: string) returns (s: string)
    requires console.Valid() && console.sgr == []
    modifies console
    ensures console.Valid() && console.sgr == []
    ensures s == Ansi.Render(CyanBold, text)
  {
    CyanBoldCodes();
    s := Paint(console, ["cyan", "bold"], text);
  }

  /** `console.magenta.bold(text)`. */
  method PaintMagentaBold(console: Ansi.Console, text: string) returns (s: string)
    requires console.Valid() && console.sgr == []
    modifies console
    ensures console.Valid() && console.sgr == []
    ensures s == Ansi.Render(MagentaBold, text)
  {
    MagentaBoldCodes();
    s := Paint(console, ["magenta", "bold"], text);
  }

  /** `console.red.bold.on_white(text)`. */
  method PaintRedBoldOnWhite(console: Ansi.Console, text: string) returns (s: string)
    requires console.Valid() && console.sgr == []
    modifies console
    ensures console.Valid() && console.sgr == []
    ensures s == Ansi.Render(RedBoldOnWhite, text)
  {
    RedBoldOnWhiteCodes();
    s := Paint(console, ["red", "bold", "on_white"], text);
  }

  /** The lines `CmdList#exec` puts, painted through `console`. */
  method ListingText(console: Ansi.Console, ls: seq<Level>, cursor: Option<int>) returns (lines: seq<string>)
    requires console.Valid() && console.sgr == []
    modifies console
    ensures console.Valid() && console.sgr == []
    ensures lines == ListLines(Snapshot(ls), cursor)
  {
    ghost var es := Snapshot(ls);
    lines := [];
    var i := 0;
    while i < |ls|
      invariant 0 <= i <= |ls| && console.Valid() && console.sgr == []
      invariant es == Snapshot(ls) && lines == ListLines(es[..i], cursor)
    {
      var line := ListRow(console, Entry(ls[i].index, ls[i].password), cursor);
      Sorting.MapSnoc(e => ListLine(e, cursor), es, i);
      lines := lines + [line];
      i := i + 1;
    }
    assert es[..i] == es;
  }

  /** One line of `CmdList#exec`, highlighted when the cursor is on its level. */
  method ListRow(console: Ansi.Console, e: Entry, cursor: Option<int>) returns (line: string)
    requires console.Valid() && console.sgr == []
    modifies console
    ensures console.Valid() && console.sgr == []
    ensures line == ListLine(e, cursor)
  {
    line := ListText(e);
    if cursor == Some(e.index as int) {
      line := PaintRedBoldOnWhite(console, line);
    }
  }

  /** The lines `CmdHelp#exec` puts, each painted through `console`. */
  method HelpText(console: Ansi.Console, cs: seq<Command>) returns (lines: seq<string>)
    requires console.Valid() && console.sgr == []
    modifies console
    ensures console.Valid() && console.sgr == []
    ensures lines == HelpLines(cs)
  {
    lines := [];
    var i := 0;
    while i < |cs|
      invariant 0 <= i <= |cs| && console.Valid() && console.sgr == []
      invariant lines == HelpLines(cs[..i])
    {
      var line := HelpRow(console, cs[i]);
      Sorting.MapSnoc(HelpLine, cs, i);
      lines := lines + [line];
      i := i + 1;
    }
    assert cs[..i] == cs;
  }

  /** One line of `CmdHelp#exec`: the first alias, the usage padded to 30 columns, the description. */
  method HelpRow(console: Ansi.Console, c: Command) returns (line: string)
    requires console.Valid() && console.sgr == []
    modifies console
    ensures console.Valid() && console.sgr == []
    ensures line == HelpLine(c)
  {
    var alias := PaintCyanBold(console, Aliases(c)[0]);
    var usage := PaintMagenta(console, Usage(c));
    var description := PaintYellow(console, Description(c));
    line := alias + " " + PadRight(usage, 30) + " " + description;
  }

  /** `Natas.new`, and the passwords of the configuration file loaded into its levels when the file exists. */
  method OpenRegistry(levelClasses: seq<nat>, file: Option<Config>) returns (natas: Natas)
    ensures fresh(natas) && natas.Valid()
    ensures natas.level == None && |natas.levels| == |levelClasses|
    ensures forall l :: l in natas.levels ==> fresh(l) && l.login == Login + Decimal(l.index)
    ensures multiset(Sorting.MapSeq(LevelIndex, natas.levels)) == multiset(levelClasses)
    ensures file.None? ==> forall l :: l in natas.levels ==> Fresh(l)
    ensures file.Some? ==> forall l :: l in natas.levels ==>
              l.password == if l.index as int in file.value then file.value[l.index] else None
  {
    natas := new Natas(levelClasses);
    if file.Some? {
      var ls := natas.levels;
      LoadConfig(ls, file.value);
      forall l | l in ls
        ensures l.password == if l.index as int in file.value then file.value[l.index] else None
      {
        var k :| 0 <= k < |ls| && ls[k] == l;
        assert Snapshot(ls)[k].password == l.password;
      }
    }
  }

  /** The loop of `Shell#initialize`: `level.password = config.fetch(level.level, nil)`. */
  method LoadConfig(ls: seq<Level>, config: Config)
    requires Sorting.Distinct(ls)
    modifies set l | l in ls
    ensures Snapshot(ls) == Loaded(old(Snapshot(ls)), config)
  {
    ghost var before := Snapshot(ls);
    var i := 0;
    while i < |ls|
      invariant 0 <= i <= |ls|
      invariant forall k :: 0 <= k < i ==> Snapshot(ls)[k] == Loaded(before, config)[k]
      invariant forall k :: i <= k < |ls| ==> Snapshot(ls)[k] == before[k]
    {
      var v := if ls[i].index as int in config then config[ls[i].index] else None;
      SetPassword(ls, i, v);
      i := i + 1;
    }
    assert |Snapshot(ls)| == |Loaded(before, config)|;
  }
}
