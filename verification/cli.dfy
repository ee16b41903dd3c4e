/** One-shot command dispatch (main.go): looking a note up by the id typed
    on the command line, the options of the listing commands, and what each
    command does to the store. Everything the program asks the outside world
    for (the integer parser, the editor, the clock, the date parser, the
    yes/no and configuration answers) arrives in an `Env`. */
module Cli {
  import opened Wrappers
  import opened Text
  import opened NoteRecord
  import opened NoteStore
  import opened Config
  import opened Printer

  // ---------------------------------------------------------------------------
  // getNoteFromArg
  // ---------------------------------------------------------------------------

  /** `getNoteFromArg`: the argument read as an unsigned number (base 0,
      32 bits) and looked up; `None` when it does not parse or no note has
      that id. The position stands for the `*Note` the Go code returns. */
  function GetNoteFromArg(arg: string, notes: seq<Note>, parse: UintParser): (r: Option<nat>)
    ensures r.Some? <==> parse(arg).Parsed? && exists i :: 0 <= i < |notes| && notes[i].id == parse(arg).value
    ensures r.Some? ==> r.value < |notes| && notes[r.value].id == parse(arg).value
    ensures r.Some? ==> forall j :: 0 <= j < r.value ==> notes[j].id != parse(arg).value
  {
    match parse(arg)
    case Parsed(id) => FindNote(notes, id)
    case _ => None
  }

  // ---------------------------------------------------------------------------
  // handleListArgs
  // ---------------------------------------------------------------------------

  /** The listing options that take a value. */
  datatype ListFlag = OrderFlag | SearchFlag | PrioFlag | TagFlag

  function FlagOf(arg: string): Option<ListFlag> {
    if arg == "--order" || arg == "-o" then Some(OrderFlag)
    else if arg == "--search" || arg == "-s" then Some(SearchFlag)
    else if arg == "--prio" || arg == "-p" then Some(PrioFlag)
    else if arg == "--tag" || arg == "-t" then Some(TagFlag)
    else None
  }

  /** What one argument of a listing command does to the printer, one test
      per option as in the loop body. A flag with a value after it takes that
      value (the value is then looked at as an argument of its own as well);
      "-la" asks for whole notes. The priority value is stored when its parse
      FAILS (`fixedPrio` false, as written) or when it succeeds (`fixedPrio`
      true, as intended); either way the number stored is the one the parser
      hands back. */
  function ListArgAt(args: seq<string>, i: nat, o: ListOptions, parse: UintParser, fixedPrio: bool): ListOptions
    requires i < |args|
  {
    o.(sortColumns := if Picks(args, i, Flag(OrderFlag), parse) then Split(args[i + 1], ',') else o.sortColumns,
       searchStr := if Picks(args, i, Flag(SearchFlag), parse) then args[i + 1] else o.searchStr,
       prioFilter := if Picks(args, i, PrioValue(fixedPrio), parse) then parse(args[i + 1]).ReturnedValue(32)
                     else o.prioFilter,
       tagFilter := if Picks(args, i, Flag(TagFlag), parse) then args[i + 1] else o.tagFilter,
       printDetails := o.printDetails || args[i] == "-la")
  }

  /** The first `k` arguments applied in order. */
  function ListArgsUpTo(args: seq<string>, k: nat, o: ListOptions, parse: UintParser, fixedPrio: bool): ListOptions
    requires k <= |args|
  {
    if k == 0 then o else ListArgAt(args, k - 1, ListArgsUpTo(args, k - 1, o, parse, fixedPrio), parse, fixedPrio)
  }

  /** `handleListArgs` as written: only the list options change. */
  function HandleListArgs(args: seq<string>, p: NotesPrinter, parse: UintParser): (r: NotesPrinter)
    ensures r == p.(options := r.options)
    ensures r.options.printDetails <==> p.options.printDetails || "-la" in args
  {
    ListArgsDetails(args, |args|, p.options, parse, false);
    assert args[..|args|] == args;
    p.(options := ListArgsUpTo(args, |args|, p.options, parse, false))
  }

  /** `handleListArgs` with the priority check the right way round. */
  function HandleListArgsFixed(args: seq<string>, p: NotesPrinter, parse: UintParser): (r: NotesPrinter)
    ensures r == p.(options := r.options)
    ensures r.options.printDetails <==> p.options.printDetails || "-la" in args
  {
    ListArgsDetails(args, |args|, p.options, parse, true);
    assert args[..|args|] == args;
    p.(options := ListArgsUpTo(args, |args|, p.options, parse, true))
  }

  /** What an option search looks for: a flag with a value after it, or a
      priority flag whose value parses (or fails to parse). */
  datatype Wanted = Flag(flag: ListFlag) | PrioValue(parses: bool)

  predicate Picks(args: seq<string>, i: nat, w: Wanted, parse: UintParser)
    requires i < |args|
  {
    && i + 1 < |args|
    && match w
       case Flag(f) => FlagOf(args[i]) == Some(f)
       case PrioValue(ok) => FlagOf(args[i]) == Some(PrioFlag) && parse(args[i + 1]).Parsed? == ok
  }

  /** The position of the value after the last argument among the first `k`
      that `w` picks, or `None` when none is picked. */
  function LastPick(args: seq<string>, k: nat, w: Wanted, parse: UintParser): (r: Option<nat>)
    requires k <= |args|
    ensures r.None? <==> forall i :: 0 <= i < k ==> !Picks(args, i, w, parse)
    ensures r.Some? ==> 1 <= r.value <= k && r.value < |args| && Picks(args, r.value - 1, w, parse)
    ensures r.Some? ==> forall i :: r.value <= i < k ==> !Picks(args, i, w, parse)
  {
    if k == 0 then None
    else if Picks(args, k - 1, w, parse) then Some(k)
    else LastPick(args, k - 1, w, parse)
  }

  /** After the first `k` arguments every option holds the value given after
      its LAST occurrence (its old value when there is none), the priority
      filter the parser's number for the last priority value that passes the
      check, and whole notes are asked for exactly when "-la" occurs. */
  lemma ListArgsFollowLastFlag(args: seq<string>, k: nat, o: ListOptions, parse: UintParser, fixedPrio: bool)
    requires k <= |args|
    ensures var r := ListArgsUpTo(args, k, o, parse, fixedPrio);
            && r.sortColumns == (match LastPick(args, k, Flag(OrderFlag), parse)
                                 case None => o.sortColumns case Some(j) => Split(args[j], ','))
            && r.searchStr == (match LastPick(args, k, Flag(SearchFlag), parse)
                               case None => o.searchStr case Some(j) => args[j])
            && r.tagFilter == (match LastPick(args, k, Flag(TagFlag), parse)
                               case None => o.tagFilter case Some(j) => args[j])
            && r.prioFilter == (match LastPick(args, k, PrioValue(fixedPrio), parse)
                                case None => o.prioFilter case Some(j) => parse(args[j]).ReturnedValue(32))
            && (r.printDetails <==> o.printDetails || "-la" in args[..k])
  {
    ListArgsDetails(args, k, o, parse, fixedPrio);
    ListArgsOrder(args, k, o, parse, fixedPrio);
    ListArgsSearch(args, k, o, parse, fixedPrio);
    ListArgsTag(args, k, o, parse, fixedPrio);
    ListArgsPrio(args, k, o, parse, fixedPrio);
  }

  /** "-la" anywhere among the first `k` arguments asks for whole notes. */
  lemma {:induction false} ListArgsDetails(args: seq<string>, k: nat, o: ListOptions, parse: UintParser, fixedPrio: bool)
    requires k <= |args|
    ensures ListArgsUpTo(args, k, o, parse, fixedPrio).printDetails <==> o.printDetails || "-la" in args[..k]
  {
    if k > 0 {
      ListArgsDetails(args, k - 1, o, parse, fixedPrio);
      InLongerPrefix(args, k, "-la");
    }
  }

  /** A value is among the first `k` elements exactly when it is among the
      first `k - 1` or is the `k`-th. */
  lemma InLongerPrefix<T>(s: seq<T>, k: nat, x: T)
    requires 0 < k <= |s|
    ensures x in s[..k] <==> x in s[..k - 1] || s[k - 1] == x
  {
    assert s[..k] == s[..k - 1] + [s[k - 1]];
  }

  /** The order option holds the pieces of the value after its last
      occurrence. */
  lemma {:induction false} ListArgsOrder(args: seq<string>, k: nat, o: ListOptions, parse: UintParser, fixedPrio: bool)
    requires k <= |args|
    ensures ListArgsUpTo(args, k, o, parse, fixedPrio).sortColumns
         == match LastPick(args, k, Flag(OrderFlag), parse)
            case None => o.sortColumns
            case Some(j) => Split(args[j], ',')
  {
    if k > 0 {
      ListArgsOrder(args, k - 1, o, parse, fixedPrio);
    }
  }

  /** The search option holds the value after its last occurrence. */
  lemma {:induction false} ListArgsSearch(args: seq<string>, k: nat, o: ListOptions, parse: UintParser, fixedPrio: bool)
    requires k <= |args|
    ensures ListArgsUpTo(args, k, o, parse, fixedPrio).searchStr
         == match LastPick(args, k, Flag(SearchFlag), parse)
            case None => o.searchStr
            case Some(j) => args[j]
  {
    if k > 0 {
      ListArgsSearch(args, k - 1, o, parse, fixedPrio);
    }
  }

  /** The tag option holds the value after its last occurrence. */
  lemma {:induction false} ListArgsTag(args: seq<string>, k: nat, o: ListOptions, parse: UintParser, fixedPrio: bool)
    requires k <= |args|
    ensures ListArgsUpTo(args, k, o, parse, fixedPrio).tagFilter
         == match LastPick(args, k, Flag(TagFlag), parse)
            case None => o.tagFilter
            case Some(j) => args[j]
  {
    if k > 0 {
      ListArgsTag(args, k - 1, o, parse, fixedPrio);
    }
  }

  /** The priority filter holds the parser's number for the last priority
      value that passes the check. */
  lemma {:induction false} ListArgsPrio(args: seq<string>, k: nat, o: ListOptions, parse: UintParser, fixedPrio: bool)
    requires k <= |args|
    ensures ListArgsUpTo(args, k, o, parse, fixedPrio).prioFilter
         == match LastPick(args, k, PrioValue(fixedPrio), parse)
            case None => o.prioFilter
            case Some(j) => parse(args[j]).ReturnedValue(32)
  {
    if k > 0 {
      ListArgsPrio(args, k - 1, o, parse, fixedPrio);
    }
  }

  /** The as-written check stores nothing for a priority that parses: the
      filter keeps its old value. */
  lemma ValidPrioIgnored(p: NotesPrinter, parse: UintParser)
    requires parse("3") == Parsed(3) && p.options.prioFilter != 3
    ensures HandleListArgs(["--prio", "3"], p, parse).options.prioFilter == p.options.prioFilter
    ensures HandleListArgsFixed(["--prio", "3"], p, parse).options.prioFilter == 3
  {
    ListArgsPrio(["--prio", "3"], 2, p.options, parse, false);
    ListArgsPrio(["--prio", "3"], 2, p.options, parse, true);
  }

  /** ... and a value that does not parse sets the filter to 0. */
  lemma InvalidPrioStoresZero(p: NotesPrinter, parse: UintParser)
    requires parse("high") == SyntaxError
    ensures HandleListArgs(["-p", "high"], p, parse).options.prioFilter == 0
    ensures HandleListArgsFixed(["-p", "high"], p, parse).options.prioFilter == p.options.prioFilter
  {
    ListArgsPrio(["-p", "high"], 2, p.options, parse, false);
    ListArgsPrio(["-p", "high"], 2, p.options, parse, true);
  }

  /** With the corrected check the filter is the value after the last
      priority flag whose value parses. */
  lemma FixedPrioTakesLastParsed(args: seq<string>, p: NotesPrinter, parse: UintParser)
    ensures var r := HandleListArgsFixed(args, p, parse);
            match LastPick(args, |args|, PrioValue(true), parse)
            case None => r.options.prioFilter == p.options.prioFilter
            case Some(j) => parse(args[j]).Parsed? && r.options.prioFilter == parse(args[j]).value
  {
    ListArgsPrio(args, |args|, p.options, parse, true);
  }

  // ---------------------------------------------------------------------------
  // handleArgs
  // ---------------------------------------------------------------------------

  /** What the commands ask of the outside world: the integer parser, the
      editor session (is $EDITOR set, what it left in the file, the content
      digest, the time), `time.Parse` as a function of layout and text, the
      answer to "delete all notes?", and the answers of a configuration run. */
  datatype Env = Env(
    parse: UintParser,
    editorSet: bool,
    run: EditorRun,
    digest: string -> string,
    now: Time,
    parseTime: (string, string) -> Option<Time>,
    confirmClear: bool,
    answers: Answers)

  /** What a command shows, besides messages naming a note's title: the
      printer a listing is printed with (the listing itself is
      `Printer.Print(printer, notes)` of the store), the note shown in full
      by the default printer, the tag counts, or the outcome of a
      configuration run. */
  datatype Output =
    | NoOutput
    | Table(printer: NotesPrinter)
    | FullText(note: Note)
    | TagReport(counts: map<string, nat>)
    | Reconfigured(config: Option<Configuration>)

  /** `handleArgs`' result: the interactive session is started (no
      arguments), or the command finished with the "save to Drive" flag, an
      error message, the store after it and what it showed. */
  datatype Handled = Interactive | Done(update: bool, err: Option<string>, store: Store, output: Output)

  const MissingContentMessage: string := "Missing note content"
  const GiveIdMessage: string := "Give note id"
  const GiveIdAndPrioMessage: string := "Give note id and new priority"
  const GiveIdAndTagMessage: string := "Give note id and the tag"
  const NoNoteMessage: string := "Could not find note with id"
  const InvalidPrioMessage: string := "Invalid priority given. Priority should be in range 0-5"

  /** An error that leaves the store alone. */
  function Failed(s: Store, msg: string): (r: Handled)
    ensures r.Done? && !r.update && r.err == Some(msg) && r.store == s && r.output == NoOutput
  {
    Done(false, Some(msg), s, NoOutput)
  }

  /** The note a command with at least `needed` arguments names first; the
      message for too few arguments is `missing`. */
  function Lookup(rest: seq<string>, needed: nat, missing: string, s: Store, env: Env): (r: Result<nat>)
    requires needed >= 1
    ensures |rest| < needed ==> r == Err(missing)
    ensures |rest| >= needed && GetNoteFromArg(rest[0], s.notes, env.parse).None? ==> r == Err(NoNoteMessage)
    ensures r.Ok? ==> |rest| >= needed && GetNoteFromArg(rest[0], s.notes, env.parse) == Some(r.value)
  {
    if |rest| < needed then Err(missing)
    else
      match GetNoteFromArg(rest[0], s.notes, env.parse)
      case None => Err(NoNoteMessage)
      case Some(k) => Ok(k)
  }

  /** The store with the note at `k` replaced. */
  function Replace(s: Store, k: nat, n: Note): (r: Store)
    requires k < |s.notes|
    ensures |r.notes| == |s.notes| && r.maxId == s.maxId
    ensures r.notes[k] == n
    ensures forall j :: 0 <= j < |s.notes| && j != k ==> r.notes[j] == s.notes[j]
  {
    s.(notes := s.notes[k := n])
  }

  /** `Notes.ClearNotes` (its body is not part of this revision): every note
      is removed; the counter is left alone. */
  function ClearNotes(s: Store): (r: Store)
    ensures r.notes == [] && r.maxId == s.maxId
  {
    s.(notes := [])
  }

  /** A new note as `qa` and `add` start it: Go's zero note with the default
      priority. */
  function Fresh(c: Configuration, content: string): (n: Note)
    ensures n == BlankNote.(content := content, priority := c.defaultPriority)
  {
    BlankNote.(content := content, priority := c.defaultPriority)
  }

  /** `qa`: the words joined by single spaces become a new note with the
      next id; as `AddNote` is written, the counter stays where it was. */
  function QuickAdd(rest: seq<string>, s: Store, c: Configuration): (r: Handled)
    ensures rest == [] ==> r == Failed(s, MissingContentMessage)
    ensures rest != [] ==> r.Done? && r.update && r.err.None? && r.output == NoOutput
    ensures rest != [] ==> r.store.notes == s.notes + [WithTags(Fresh(c, Join(rest, " ")), c.defaultTags).(id := s.maxId + 1)]
    ensures rest != [] ==> r.store.maxId == s.maxId
  {
    if |rest| < 1 then Failed(s, MissingContentMessage)
    else
      var added := AddNote(s, Fresh(c, Join(rest, " ")), c.defaultTags).store;
      assert added.notes == added.notes[..|s.notes|] + [added.notes[|s.notes|]];
      Done(true, None, added, NoOutput)
  }

  /** `a`/`add`: a blank note is written in the editor and added when the
      editor changed it. */
  function AddWithEditor(s: Store, c: Configuration, env: Env): (r: Handled)
    ensures r.Done? && r.output == NoOutput
    ensures !env.editorSet ==> r == Failed(s, NoEditorMessage)
    ensures env.editorSet && env.run.EditorFailed? ==> r == Failed(s, env.run.reason)
    ensures r.update <==> env.editorSet && env.run.EditorSaved? && env.digest("") != env.digest(env.run.text)
    ensures r.update ==> r.err.None?
                         && r.store.notes == s.notes + [WithTags(Fresh(c, env.run.text).(updated := env.now), c.defaultTags).(id := s.maxId + 1)]
                         && r.store.maxId == s.maxId
    ensures !r.update ==> r.store == s
  {
    match EditInEditor(Fresh(c, ""), env.editorSet, env.run, env.digest, env.now)
    case Err(e) => Failed(s, e)
    case Ok((updated, n)) =>
      if updated then
        var added := AddNote(s, n, c.defaultTags).store;
        assert added.notes == added.notes[..|s.notes|] + [added.notes[|s.notes|]];
        Done(true, None, added, NoOutput)
      else Done(false, None, s, NoOutput)
  }

  /** The cases of `handleArgs`' switch, one per pair of spellings. */
  datatype Cmd =
    | QuickAddCmd | AddCmd | ClearCmd | ListCmd | TodoCmd | UrlsCmd | DoneCmd
    | EditCmd | PrioCmd | ShowCmd | RemoveCmd | ClearTagsCmd | TagCmd
    | RemoveTagCmd | TagsCmd | DueCmd | HelpCmd | ConfigCmd

  /** The words that select `cmd`. */
  function Names(cmd: Cmd): seq<string> {
    match cmd
    case QuickAddCmd => ["qa"]
    case AddCmd => ["a", "add"]
    case ClearCmd => ["clear"]
    case ListCmd => ["list", "ls"]
    case TodoCmd => ["td", "todo"]
    case UrlsCmd => ["urls", "u"]
    case DoneCmd => ["done", "md"]
    case EditCmd => ["e", "edit"]
    case PrioCmd => ["p", "prio"]
    case ShowCmd => ["s", "show"]
    case RemoveCmd => ["rm", "remove"]
    case ClearTagsCmd => ["ct", "ctags"]
    case TagCmd => ["t", "tag"]
    case RemoveTagCmd => ["rt", "rtag"]
    case TagsCmd => ["tags"]
    case DueCmd => ["d", "due"]
    case HelpCmd => ["h", "help"]
    case ConfigCmd => ["config"]
  }

  /** The case of the switch a command word lands in; `None` for a word no
      case names. */
  function CommandOf(word: string): (r: Option<Cmd>)
    ensures r.Some? ==> word in Names(r.value)
  {
    if word == "qa" then Some(QuickAddCmd)
    else if word == "a" || word == "add" then Some(AddCmd)
    else if word == "clear" then Some(ClearCmd)
    else if word == "list" || word == "ls" then Some(ListCmd)
    else if word == "td" || word == "todo" then Some(TodoCmd)
    else if word == "urls" || word == "u" then Some(UrlsCmd)
    else if word == "done" || word == "md" then Some(DoneCmd)
    else if word == "e" || word == "edit" then Some(EditCmd)
    else if word == "p" || word == "prio" then Some(PrioCmd)
    else if word == "s" || word == "show" then Some(ShowCmd)
    else if word == "rm" || word == "remove" then Some(RemoveCmd)
    else if word == "ct" || word == "ctags" then Some(ClearTagsCmd)
    else if word == "t" || word == "tag" then Some(TagCmd)
    else if word == "rt" || word == "rtag" then Some(RemoveTagCmd)
    else if word == "tags" then Some(TagsCmd)
    else if word == "d" || word == "due" then Some(DueCmd)
    else if word == "h" || word == "help" then Some(HelpCmd)
    else if word == "config" then Some(ConfigCmd)
    else None
  }

  /** The commands that name a note by its id. */
  predicate NamesNote(cmd: Cmd) {
    || cmd.UrlsCmd? || cmd.DoneCmd? || cmd.EditCmd? || cmd.PrioCmd? || cmd.ShowCmd?
    || cmd.RemoveCmd? || cmd.ClearTagsCmd? || cmd.TagCmd? || cmd.RemoveTagCmd? || cmd.DueCmd?
  }

  /** How many arguments a note command needs. */
  function Needed(cmd: Cmd): nat {
    if cmd.PrioCmd? || cmd.TagCmd? || cmd.RemoveTagCmd? || cmd.DueCmd? then 2 else 1
  }

  /** What a note command says when it gets fewer arguments than it needs. */
  function MissingMessage(cmd: Cmd, c: Configuration): (r: string)
    ensures GiveIdMessage <= r
    ensures r == GiveIdMessage <==> Needed(cmd) == 1
    ensures cmd.DueCmd? ==> |c.dueFormat| <= |r| && r[|r| - |c.dueFormat|..] == c.dueFormat
  {
    if cmd.PrioCmd? then GiveIdAndPrioMessage
    else if cmd.TagCmd? || cmd.RemoveTagCmd? then GiveIdAndTagMessage
    else if cmd.DueCmd? then "Give note id and the due date in format " + c.dueFormat
    else GiveIdMessage
  }

  /** Whether a command is switched on by the configuration: `prio` needs
      priorities and `due` needs due dates. */
  predicate Enabled(cmd: Cmd, c: Configuration)
    ensures !cmd.PrioCmd? && !cmd.DueCmd? ==> Enabled(cmd, c)
    ensures c.usePriority && c.useDue ==> Enabled(cmd, c)
  {
    && (cmd.PrioCmd? ==> c.usePriority)
    && (cmd.DueCmd? ==> c.useDue)
  }

  /** The commands that name a note, once the note is found at `k`. A
      failing command changes nothing and asks for no save. */
  function OnNote(cmd: Cmd, rest: seq<string>, k: nat, s: Store, c: Configuration, env: Env): (r: Handled)
    requires k < |s.notes|
    requires NamesNote(cmd) && |rest| >= Needed(cmd)
    ensures r.Done? && (r.err.Some? ==> !r.update && r.store == s)
  {
    var n := s.notes[k];
    if cmd.UrlsCmd? then Done(false, None, s, NoOutput)
    else if cmd.DoneCmd? then Done(true, None, Replace(s, k, n.(done := true)), NoOutput)
    else if cmd.EditCmd? then
      match EditInEditor(n, env.editorSet, env.run, env.digest, env.now)
      case Err(e) => Failed(s, e)
      case Ok((updated, n')) => Done(updated, None, Replace(s, k, n'), NoOutput)
    else if cmd.PrioCmd? then
      match env.parse(rest[1])
      case Parsed(v) =>
        if v > MaxPriority then Failed(s, InvalidPrioMessage)
        else Done(true, None, Replace(s, k, n.(priority := v)), NoOutput)
      case _ => Failed(s, InvalidPrioMessage)
    else if cmd.ShowCmd? then Done(false, None, s, FullText(n))
    else if cmd.RemoveCmd? then
      match DeleteNote(s, n.id)
      case Err(e) => Failed(s, e)
      case Ok(s') => Done(true, None, s', NoOutput)
    else if cmd.ClearTagsCmd? then Done(true, None, Replace(s, k, ClearTags(n)), NoOutput)
    else if cmd.TagCmd? then
      var (added, n') := AddTag(n, rest[1]);
      Done(added, None, Replace(s, k, n'), NoOutput)
    else if cmd.RemoveTagCmd? then
      var (removed, n') := RemoveTag(n, rest[1]);
      Done(removed, None, Replace(s, k, n'), NoOutput)
    else
      // `due`, the one note command left
      match env.parseTime(c.dueFormat, Join(rest[1..], " "))
      case None => Failed(s, "Invalid due date format used. Please use " + c.dueFormat)
      case Some(t) => Done(true, None, Replace(s, k, n.(due := t)), NoOutput)
  }

  /** The commands that work on the whole store. */
  function OnStore(cmd: Cmd, rest: seq<string>, s: Store, c: Configuration, env: Env): (r: Handled)
    requires !NamesNote(cmd)
    ensures r.Done? && (r.err.Some? ==> !r.update && r.store == s)
  {
    if cmd.QuickAddCmd? then QuickAdd(rest, s, c)
    else if cmd.AddCmd? then AddWithEditor(s, c, env)
    else if cmd.ClearCmd? then
      if env.confirmClear then Done(true, None, ClearNotes(s), NoOutput) else Done(false, None, s, NoOutput)
    else if cmd.ListCmd? then
      var p := HandleListArgs(rest, NewNotesPrinter(c).(skipDone := false), env.parse);
      Done(false, None, s, Table(p))
    else if cmd.TodoCmd? then
      var p := HandleListArgs(rest, NewNotesPrinter(c), env.parse).(showDone := false, skipDone := true);
      Done(false, None, s, Table(p))
    else if cmd.TagsCmd? then Done(false, None, s, TagReport(GetTags(s.notes)))
    else if cmd.HelpCmd? then Done(false, None, s, NoOutput)
    else
      // `config`, the one store command left
      Done(false, None, s, Reconfigured(Configure(c, env.answers)))
  }

  /** `handleArgs` for a command line with at least one word. `prio` with
      priorities switched off and `due` with due dates switched off leave the
      switch and end as an unknown command would. */
  function Command(command: string, rest: seq<string>, s: Store, c: Configuration, env: Env): (r: Handled)
    ensures r.Done?
    ensures r.err.Some? ==> !r.update && r.store == s
    ensures CommandOf(command).None? ==> r == Failed(s, "Invalid command: " + command)
  {
    match CommandOf(command)
    case None => Failed(s, "Invalid command: " + command)
    case Some(cmd) =>
      if !Enabled(cmd, c) then Failed(s, "Invalid command: " + command)
      else if NamesNote(cmd) then
        match Lookup(rest, Needed(cmd), MissingMessage(cmd, c), s, env)
        case Err(e) => Failed(s, e)
        case Ok(k) => OnNote(cmd, rest, k, s, c, env)
      else OnStore(cmd, rest, s, c, env)
  }

  /** `handleArgs`: no arguments start the interactive session; otherwise the
      first word is the command and the rest its arguments. A failing command
      never asks for the store to be saved and never changes it. */
  function HandleArgs(args: seq<string>, s: Store, c: Configuration, env: Env): (r: Handled)
    ensures r.Interactive? <==> args == []
    ensures r.Done? && r.err.Some? ==> !r.update && r.store == s
    ensures r.Done? && CommandOf(args[0]).None? ==> r.err == Some("Invalid command: " + args[0])
  {
    if args == [] then Interactive else Command(args[0], args[1..], s, c, env)
  }

  /** A command line of `word` followed by `rest` runs `word`'s command. */
  lemma CommandLine(word: string, rest: seq<string>, s: Store, c: Configuration, env: Env)
    ensures HandleArgs([word] + rest, s, c, env) == Command(word, rest, s, c, env)
  {
    assert ([word] + rest)[1..] == rest;
  }

  // ---------------------------------------------------------------------------
  // What the commands promise
  // ---------------------------------------------------------------------------

  /** `qa` without words is refused; with words it appends one note holding
      the words joined by single spaces, with the default priority and tags
      and the next id, and asks for a save; the counter is left as it was. */
  lemma QuickAddAppendsOneNote(words: seq<string>, s: Store, c: Configuration, env: Env)
    ensures var r := HandleArgs(["qa"] + words, s, c, env);
            && (words == [] ==> r == Failed(s, MissingContentMessage))
            && (words != [] ==>
                  && r.Done? && r.update && r.err.None?
                  && r.store.notes == s.notes + [WithTags(Fresh(c, Join(words, " ")), c.defaultTags).(id := s.maxId + 1)]
                  && r.store.maxId == s.maxId)
  {
    QuickAddLine(words, s, c, env);
  }

  /** A command line starting with "qa" is a quick add of the words after it. */
  lemma QuickAddLine(words: seq<string>, s: Store, c: Configuration, env: Env)
    ensures HandleArgs(["qa"] + words, s, c, env) == QuickAdd(words, s, c)
  {
    assert CommandOf("qa") == Some(QuickAddCmd);
    StoreCommand(QuickAddCmd, "qa", words, s, c, env);
  }

  /** A note command with too few arguments is refused with its own message
      and changes nothing. */
  lemma TooFewArgumentsRefused(cmd: Cmd, word: string, rest: seq<string>, s: Store, c: Configuration, env: Env)
    requires CommandOf(word) == Some(cmd) && NamesNote(cmd) && Enabled(cmd, c)
    requires |rest| < Needed(cmd)
    ensures HandleArgs([word] + rest, s, c, env) == Failed(s, MissingMessage(cmd, c))
  {
    CommandLine(word, rest, s, c, env);
  }

  /** An id that does not parse, or that no note has, is refused and changes
      nothing. */
  lemma UnknownIdRefused(cmd: Cmd, word: string, rest: seq<string>, s: Store, c: Configuration, env: Env)
    requires CommandOf(word) == Some(cmd) && NamesNote(cmd) && Enabled(cmd, c)
    requires |rest| >= Needed(cmd)
    requires !env.parse(rest[0]).Parsed? || forall i :: 0 <= i < |s.notes| ==> s.notes[i].id != env.parse(rest[0]).value
    ensures HandleArgs([word] + rest, s, c, env) == Failed(s, NoNoteMessage)
  {
    CommandLine(word, rest, s, c, env);
  }

  /** `prio` with priorities off and `due` with due dates off are unknown
      commands. */
  lemma DisabledCommandsAreUnknown(cmd: Cmd, word: string, rest: seq<string>, s: Store, c: Configuration, env: Env)
    requires CommandOf(word) == Some(cmd) && !Enabled(cmd, c)
    ensures HandleArgs([word] + rest, s, c, env) == Failed(s, "Invalid command: " + word)
  {
    CommandLine(word, rest, s, c, env);
  }

  /** The note a command names, when it names one. */
  function Named(rest: seq<string>, s: Store, env: Env): Option<nat> {
    if rest == [] then None else GetNoteFromArg(rest[0], s.notes, env.parse)
  }

  /** A switched-on note command whose id names a note runs on the first
      note with that id. */
  lemma NamedNoteCommand(cmd: Cmd, word: string, rest: seq<string>, s: Store, c: Configuration, env: Env)
    requires CommandOf(word) == Some(cmd) && NamesNote(cmd) && Enabled(cmd, c)
    requires |rest| >= Needed(cmd) && Named(rest, s, env).Some?
    ensures var k := Named(rest, s, env).value;
            && k < |s.notes| && s.notes[k].id == env.parse(rest[0]).value
            && HandleArgs([word] + rest, s, c, env) == OnNote(cmd, rest, k, s, c, env)
  {
    CommandLine(word, rest, s, c, env);
  }

  /** A switched-on store command runs on the whole store, whatever words
      follow it. */
  lemma StoreCommand(cmd: Cmd, word: string, rest: seq<string>, s: Store, c: Configuration, env: Env)
    requires CommandOf(word) == Some(cmd) && !NamesNote(cmd) && Enabled(cmd, c)
    ensures HandleArgs([word] + rest, s, c, env) == OnStore(cmd, rest, s, c, env)
  {
    CommandLine(word, rest, s, c, env);
  }

  /** `done` marks exactly the first note with the id as done and asks for a
      save; doing it again gives the same store. */
  lemma DoneMarksNamedNote(word: string, rest: seq<string>, s: Store, c: Configuration, env: Env)
    requires CommandOf(word) == Some(DoneCmd) && Named(rest, s, env).Some?
    ensures var k := Named(rest, s, env).value;
            var r := HandleArgs([word] + rest, s, c, env);
            && r == Done(true, None, Replace(s, k, s.notes[k].(done := true)), NoOutput)
            && HandleArgs([word] + rest, r.store, c, env) == r
  {
    var k := Named(rest, s, env).value;
    NamedNoteCommand(DoneCmd, word, rest, s, c, env);
    var s1 := Replace(s, k, s.notes[k].(done := true));
    assert Named(rest, s1, env) == Some(k) by {
      FindNoteSameIds(s.notes, s1.notes, env.parse(rest[0]).value);
    }
    NamedNoteCommand(DoneCmd, word, rest, s1, c, env);
    assert s1.notes[k := s1.notes[k].(done := true)] == s1.notes;
  }

  /** `prio` sets the priority of the named note to a parsed value of at
      most 5 and refuses anything else without a change. */
  lemma PrioSetsOrRefuses(word: string, rest: seq<string>, s: Store, c: Configuration, env: Env)
    requires CommandOf(word) == Some(PrioCmd) && c.usePriority && |rest| >= 2 && Named(rest, s, env).Some?
    ensures var k := Named(rest, s, env).value;
            var r := HandleArgs([word] + rest, s, c, env);
            && (env.parse(rest[1]).Parsed? && env.parse(rest[1]).value <= MaxPriority ==>
                  r == Done(true, None, Replace(s, k, s.notes[k].(priority := env.parse(rest[1]).value)), NoOutput))
            && (!env.parse(rest[1]).Parsed? || env.parse(rest[1]).value > MaxPriority ==>
                  r == Failed(s, InvalidPrioMessage))
  {
    NamedNoteCommand(PrioCmd, word, rest, s, c, env);
  }

  /** `rm` removes every note with the named note's id, keeps the order of
      the rest and asks for a save. */
  lemma RemoveDeletesNamedId(word: string, rest: seq<string>, s: Store, c: Configuration, env: Env)
    requires CommandOf(word) == Some(RemoveCmd) && Named(rest, s, env).Some?
    ensures var id := s.notes[Named(rest, s, env).value].id;
            var r := HandleArgs([word] + rest, s, c, env);
            && r == Done(true, None, Store(WithoutId(s.notes, id), s.maxId), NoOutput)
            && forall n :: n in r.store.notes <==> n in s.notes && n.id != id
  {
    NamedNoteCommand(RemoveCmd, word, rest, s, c, env);
    var id := s.notes[Named(rest, s, env).value].id;
    forall n ensures n in WithoutId(s.notes, id) <==> n in s.notes && n.id != id {
      WithoutIdKeepsOthers(s.notes, id, n);
    }
  }

  /** `tag` asks for a save exactly when the note did not have the tag yet;
      afterwards the note has it. */
  lemma TagAddsTag(word: string, rest: seq<string>, s: Store, c: Configuration, env: Env)
    requires CommandOf(word) == Some(TagCmd) && |rest| >= 2 && Named(rest, s, env).Some?
    ensures var k := Named(rest, s, env).value;
            var r := HandleArgs([word] + rest, s, c, env);
            && r.Done? && r.err.None? && |r.store.notes| == |s.notes|
            && (r.update <==> rest[1] !in s.notes[k].tags)
            && rest[1] in r.store.notes[k].tags
  {
    NamedNoteCommand(TagCmd, word, rest, s, c, env);
  }

  /** `rtag` asks for a save exactly when the note had the tag; afterwards
      the note lacks it. */
  lemma UntagRemovesTag(word: string, rest: seq<string>, s: Store, c: Configuration, env: Env)
    requires CommandOf(word) == Some(RemoveTagCmd) && |rest| >= 2 && Named(rest, s, env).Some?
    ensures var k := Named(rest, s, env).value;
            var r := HandleArgs([word] + rest, s, c, env);
            && r.Done? && r.err.None? && |r.store.notes| == |s.notes|
            && (r.update <==> rest[1] in s.notes[k].tags)
            && rest[1] !in r.store.notes[k].tags
  {
    NamedNoteCommand(RemoveTagCmd, word, rest, s, c, env);
  }

  /** `ctags` always asks for a save and leaves the note without tags. */
  lemma ClearTagsEmptiesTags(word: string, rest: seq<string>, s: Store, c: Configuration, env: Env)
    requires CommandOf(word) == Some(ClearTagsCmd) && Named(rest, s, env).Some?
    ensures var k := Named(rest, s, env).value;
            var r := HandleArgs([word] + rest, s, c, env);
            && r.Done? && r.err.None? && r.update && |r.store.notes| == |s.notes|
            && r.store.notes[k].tags == []
  {
    NamedNoteCommand(ClearTagsCmd, word, rest, s, c, env);
  }

  /** `todo` prints the store with the options given after it, without the
      done column and listing exactly the notes not done, in store order; it
      neither changes the store nor asks for a save. */
  lemma TodoListsOpenNotes(word: string, rest: seq<string>, s: Store, c: Configuration, env: Env)
    requires CommandOf(word) == Some(TodoCmd)
    ensures var todo := HandleArgs([word] + rest, s, c, env);
            && todo.Done? && !todo.update && todo.err.None? && todo.store == s && todo.output.Table?
            && var p := todo.output.printer;
               && p.options == HandleListArgs(rest, NewNotesPrinter(c), env.parse).options
               && p.maxTitleLength >= 3
               && OpenListing(p, s.notes)
  {
    var p := HandleListArgs(rest, NewNotesPrinter(c), env.parse).(showDone := false, skipDone := true);
    assert HandleArgs([word] + rest, s, c, env) == Done(false, None, s, Table(p)) by {
      StoreCommand(TodoCmd, word, rest, s, c, env);
    }
    OpenNotesListed(p, s.notes);
  }

  /** What `todo` promises of its listing: one row per note not done, every
      such note listed, and no done column. */
  ghost predicate OpenListing(p: NotesPrinter, notes: seq<Note>)
    requires p.maxTitleLength >= 3
  {
    var listing := Printer.Print(p, notes);
    && |listing.rows| == |Listed(p, notes)|
    && (forall n :: n in Listed(p, notes) <==> n in notes && !n.done)
    && (forall i :: 0 <= i < |listing.header| ==> listing.header[i].column != DoneCol)
  }

  /** A printer that skips done notes and hides the done column prints an
      open-notes listing. */
  lemma OpenNotesListed(p: NotesPrinter, notes: seq<Note>)
    requires p.maxTitleLength >= 3 && p.skipDone && !p.showDone
    ensures OpenListing(p, notes)
  {
    NoDoneColumn(p);
  }

  /** With the done column off, no header cell is the done column. */
  lemma NoDoneColumn(p: NotesPrinter)
    requires !p.showDone
    ensures forall i :: 0 <= i < |Header(p)| ==> Header(p)[i].column != DoneCol
  {
    var h := Header(p);
    forall i | 0 <= i < |h|
      ensures h[i].column != DoneCol
    {
      assert h[i].column == ColumnsOf(h)[i];
      assert Columns(p)[i] in Columns(p);
    }
  }

  /** `list` prints the store with the options given after it, one row for
      every note, done or not, in store order. */
  lemma ListListsAllNotes(word: string, rest: seq<string>, s: Store, c: Configuration, env: Env)
    requires CommandOf(word) == Some(ListCmd)
    ensures var list := HandleArgs([word] + rest, s, c, env);
            && list.Done? && !list.update && list.err.None? && list.store == s && list.output.Table?
            && var p := list.output.printer;
               && p.options == HandleListArgs(rest, NewNotesPrinter(c), env.parse).options
               && p.maxTitleLength >= 3
               && FullListing(p, s.notes)
  {
    var p := HandleListArgs(rest, NewNotesPrinter(c).(skipDone := false), env.parse);
    assert HandleArgs([word] + rest, s, c, env) == Done(false, None, s, Table(p)) by {
      StoreCommand(ListCmd, word, rest, s, c, env);
    }
    assert !p.skipDone && p.maxTitleLength >= 3;
    AllNotesListed(p, s.notes);
  }

  /** What `list` promises of its listing: one row per note, in store
      order. */
  ghost predicate FullListing(p: NotesPrinter, notes: seq<Note>)
    requires p.maxTitleLength >= 3
  {
    var rows := Printer.Print(p, notes).rows;
    |rows| == |notes| && forall i :: 0 <= i < |notes| ==> rows[i] == Row(p, notes[i])
  }

  /** A printer that does not skip done notes prints one row per note, in
      order. */
  lemma AllNotesListed(p: NotesPrinter, notes: seq<Note>)
    requires p.maxTitleLength >= 3 && !p.skipDone
    ensures FullListing(p, notes)
  {
  }

  // ---------------------------------------------------------------------------
  // The remaining commands
  // ---------------------------------------------------------------------------

  /** `add` adds the text left in the editor as a new note with the next id,
      and asks for a save, exactly when the editor changed the blank note's
      content; the counter is left as it was. */
  lemma AddTakesEditedNote(word: string, rest: seq<string>, s: Store, c: Configuration, env: Env)
    requires CommandOf(word) == Some(AddCmd)
    ensures var r := HandleArgs([word] + rest, s, c, env);
            && r.Done?
            && (r.update <==> env.editorSet && env.run.EditorSaved? && env.digest("") != env.digest(env.run.text))
            && (r.update ==> r.err.None? && |r.store.notes| == |s.notes| + 1
                             && r.store.notes[|s.notes|].content == env.run.text
                             && r.store.notes[|s.notes|].id == s.maxId + 1
                             && r.store.maxId == s.maxId)
            && (!r.update ==> r.store == s)
  {
    StoreCommand(AddCmd, word, rest, s, c, env);
  }

  /** `clear` empties the store and asks for a save exactly when the user
      confirms; otherwise nothing changes. */
  lemma ClearNeedsConfirmation(word: string, rest: seq<string>, s: Store, c: Configuration, env: Env)
    requires CommandOf(word) == Some(ClearCmd)
    ensures var r := HandleArgs([word] + rest, s, c, env);
            && r.Done? && r.err.None?
            && (r.update <==> env.confirmClear)
            && (env.confirmClear ==> r.store.notes == [] && r.store.maxId == s.maxId)
            && (!env.confirmClear ==> r.store == s)
  {
    StoreCommand(ClearCmd, word, rest, s, c, env);
  }

  /** `tags` reports, for every tag some note carries, how many times it is
      used, and changes nothing. */
  lemma TagsReportsUses(word: string, rest: seq<string>, s: Store, c: Configuration, env: Env)
    requires CommandOf(word) == Some(TagsCmd)
    ensures var r := HandleArgs([word] + rest, s, c, env);
            && r.Done? && !r.update && r.err.None? && r.store == s && r.output.TagReport?
            && (forall t :: t in r.output.counts <==> TagUses(s.notes, t) > 0)
            && (forall t :: t in r.output.counts ==> r.output.counts[t] == TagUses(s.notes, t))
  {
    StoreCommand(TagsCmd, word, rest, s, c, env);
  }

  /** `help` and `config` change no note and ask for no save; `config` runs
      the configuration interview on the current settings, so a long
      due-format answer ends up as the time layout and the due layout is
      reset. */
  lemma HelpAndConfigKeepNotes(cmd: Cmd, word: string, rest: seq<string>, s: Store, c: Configuration, env: Env)
    requires CommandOf(word) == Some(cmd) && (cmd.HelpCmd? || cmd.ConfigCmd?)
    ensures var r := HandleArgs([word] + rest, s, c, env);
            && r.Done? && !r.update && r.err.None? && r.store == s
            && (cmd.ConfigCmd? ==> r.output == Reconfigured(Configure(c, env.answers)))
            && (cmd.ConfigCmd? && Completes(env.answers) ==>
                  && r.output.config.Some?
                  && r.output.config.value.dueFormat == DefaultDueFormat
                  && (|env.answers.dueFormat| > 1 ==> r.output.config.value.timeFormat == env.answers.dueFormat))
  {
    StoreCommand(cmd, word, rest, s, c, env);
  }

  /** `urls` and `show` change nothing; `show` prints the first note with
      the id in full. */
  lemma ShowKeepsNotes(cmd: Cmd, word: string, rest: seq<string>, s: Store, c: Configuration, env: Env)
    requires CommandOf(word) == Some(cmd) && (cmd.UrlsCmd? || cmd.ShowCmd?) && Named(rest, s, env).Some?
    ensures var r := HandleArgs([word] + rest, s, c, env);
            && r.Done? && !r.update && r.err.None? && r.store == s
            && (cmd.ShowCmd? ==> r.output == FullText(s.notes[Named(rest, s, env).value]))
  {
    NamedNoteCommand(cmd, word, rest, s, c, env);
  }

  /** `edit` replaces the named note by what the editor left and asks for a
      save exactly when the content's digest changed; an editor failure is
      reported and changes nothing. */
  lemma EditReplacesNamedNote(word: string, rest: seq<string>, s: Store, c: Configuration, env: Env)
    requires CommandOf(word) == Some(EditCmd) && Named(rest, s, env).Some?
    ensures var k := Named(rest, s, env).value;
            var r := HandleArgs([word] + rest, s, c, env);
            && r.Done?
            && (!env.editorSet ==> r == Failed(s, NoEditorMessage))
            && (env.editorSet && env.run.EditorSaved? ==>
                  && r.err.None? && |r.store.notes| == |s.notes|
                  && r.store.notes[k].content == env.run.text
                  && (r.update <==> env.digest(s.notes[k].content) != env.digest(env.run.text)))
  {
    NamedNoteCommand(EditCmd, word, rest, s, c, env);
  }

  /** `due` sets the named note's due date to the remaining words read with
      the due layout, or refuses text that layout does not read. */
  lemma DueSetsOrRefuses(word: string, rest: seq<string>, s: Store, c: Configuration, env: Env)
    requires CommandOf(word) == Some(DueCmd) && c.useDue && |rest| >= 2 && Named(rest, s, env).Some?
    ensures var k := Named(rest, s, env).value;
            var r := HandleArgs([word] + rest, s, c, env);
            match env.parseTime(c.dueFormat, Join(rest[1..], " "))
            case None => r == Failed(s, "Invalid due date format used. Please use " + c.dueFormat)
            case Some(t) => r == Done(true, None, Replace(s, k, s.notes[k].(due := t)), NoOutput)
  {
    NamedNoteCommand(DueCmd, word, rest, s, c, env);
  }
}
