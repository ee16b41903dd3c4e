/** The table printer (notes_printer.go): its defaults, the column order of
    the header and of each row, the title preview, the done marker, the
    priority colour class and which notes are listed. Output is modelled as
    cells rather than bytes on stdout; colours are an enumeration. */
module Printer {
  import opened Text
  import opened NoteRecord
  import opened Config

  /** A colour the printer asks the terminal for; `NoColour` is also what a
      disabled `color.Color` prints with. */
  datatype Colour = NoColour | Green | Yellow | Red | HeaderCyan | NoteHeading

  /** The columns of the table, in the order the printer emits them. */
  datatype Column = IdCol | DoneCol | TitleCol | PrioCol | DueCol | CreatedCol | UpdatedCol {
    function Rank(): (k: nat)
      ensures k <= 6
    {
      match this
      case IdCol => 0
      case DoneCol => 1
      case TitleCol => 2
      case PrioCol => 3
      case DueCol => 4
      case CreatedCol => 5
      case UpdatedCol => 6
    }
  }

  /** The options of the listing commands. They are set by main.go's
      argument parsing but are missing from the struct in notes_printer.go,
      and nothing reads them; they are kept together here, with Go's zero
      values as defaults. */
  datatype ListOptions = ListOptions(
    sortColumns: seq<string>,
    searchStr: string,
    prioFilter: nat,
    tagFilter: string,
    printDetails: bool)

  const NoListOptions: ListOptions := ListOptions([], "", 0, "", false)

  /** `NotesPrinter`. */
  datatype NotesPrinter = NotesPrinter(
    useColor: bool,
    printHeader: bool,
    skipDone: bool,
    showDone: bool,
    showCreated: bool,
    showUpdated: bool,
    showPriority: bool,
    showDue: bool,
    maxTitleLength: int,
    timeFormat: string,
    options: ListOptions)

  /** `NewNotesPrinter`: header on, done notes skipped but the done column
      shown, creation time shown, update time hidden, titles 30 wide; colour,
      priority, due date and time layout follow the configuration. */
  function NewNotesPrinter(c: Configuration): (p: NotesPrinter)
    ensures p.printHeader && p.skipDone && p.showDone && p.showCreated && !p.showUpdated
    ensures p.maxTitleLength == 30
    ensures p.useColor == c.color && p.showPriority == c.usePriority && p.showDue == c.useDue
    ensures p.timeFormat == c.timeFormat
    ensures p.options == NoListOptions
  {
    NotesPrinter(c.color, true, true, true, true, false, c.usePriority, c.useDue, 30,
                 c.timeFormat, NoListOptions)
  }

  /** Whether the printer shows a column: ID and TITLE always, the others by
      their flag. */
  predicate Shown(p: NotesPrinter, col: Column) {
    match col
    case IdCol => true
    case DoneCol => p.showDone
    case TitleCol => true
    case PrioCol => p.showPriority
    case DueCol => p.showDue
    case CreatedCol => p.showCreated
    case UpdatedCol => p.showUpdated
  }

  /** The column of a given rank. */
  function ColumnAt(k: nat): (c: Column)
    requires k <= 6
    ensures c.Rank() == k
  {
    match k
    case 0 => IdCol
    case 1 => DoneCol
    case 2 => TitleCol
    case 3 => PrioCol
    case 4 => DueCol
    case 5 => CreatedCol
    case _ => UpdatedCol
  }

  predicate Increasing(cols: seq<Column>) {
    forall i, j :: 0 <= i < j < |cols| ==> cols[i].Rank() < cols[j].Rank()
  }

  lemma RankInverse(c: Column)
    ensures ColumnAt(c.Rank()) == c
  {
  }

  /** The shown columns of rank `k` and above, in rank order. */
  function ColumnsFrom(p: NotesPrinter, k: nat): (r: seq<Column>)
    requires k <= 7
    ensures forall i :: 0 <= i < |r| ==> k <= r[i].Rank() && Shown(p, r[i])
    ensures Increasing(r)
    ensures forall j :: k <= j <= 6 && Shown(p, ColumnAt(j)) ==> ColumnAt(j) in r
    decreases 7 - k
  {
    if k == 7 then []
    else
      var rest := ColumnsFrom(p, k + 1);
      var head := if Shown(p, ColumnAt(k)) then [ColumnAt(k)] else [];
      ColumnsStep(p, k, rest);
      head + rest
  }

  /** The step of `ColumnsFrom`: the column of rank `k`, when shown, in front
      of the shown columns above `k`. */
  lemma ColumnsStep(p: NotesPrinter, k: nat, rest: seq<Column>)
    requires k < 7
    requires forall i :: 0 <= i < |rest| ==> k + 1 <= rest[i].Rank() && Shown(p, rest[i])
    requires Increasing(rest)
    requires forall j :: k + 1 <= j <= 6 && Shown(p, ColumnAt(j)) ==> ColumnAt(j) in rest
    ensures var r := (if Shown(p, ColumnAt(k)) then [ColumnAt(k)] else []) + rest;
            && (forall i :: 0 <= i < |r| ==> k <= r[i].Rank() && Shown(p, r[i]))
            && Increasing(r)
            && (forall j :: k <= j <= 6 && Shown(p, ColumnAt(j)) ==> ColumnAt(j) in r)
  {
    var head := if Shown(p, ColumnAt(k)) then [ColumnAt(k)] else [];
    var r := head + rest;
    PrependIncreasing(head, rest, k);
    forall i | 0 <= i < |r|
      ensures k <= r[i].Rank() && Shown(p, r[i])
    {
      if i >= |head| {
        assert r[i] == rest[i - |head|];
      }
    }
    forall j | k <= j <= 6 && Shown(p, ColumnAt(j))
      ensures ColumnAt(j) in r
    {
      if j == k {
        assert r[0] == ColumnAt(k);
      } else {
        assert ColumnAt(j) in rest;
      }
    }
  }

  /** Columns of rank `k` in front of an increasing run above `k` keep the
      order, provided there is at most one of them. */
  lemma PrependIncreasing(head: seq<Column>, rest: seq<Column>, k: nat)
    requires |head| <= 1 && forall i :: 0 <= i < |head| ==> head[i].Rank() == k
    requires Increasing(rest) && forall i :: 0 <= i < |rest| ==> k < rest[i].Rank()
    ensures Increasing(head + rest)
  {
    var r := head + rest;
    forall i, j | 0 <= i < j < |r|
      ensures r[i].Rank() < r[j].Rank()
    {
      if i < |head| {
        assert r[j] == rest[j - |head|];
      } else {
        assert r[i] == rest[i - |head|] && r[j] == rest[j - |head|];
      }
    }
  }

  /** The visible columns, in order: exactly the shown ones, ranks strictly
      increasing, ID first and DONE or TITLE second. */
  function Columns(p: NotesPrinter): (r: seq<Column>)
    ensures Increasing(r)
    ensures forall c :: c in r <==> Shown(p, c)
    ensures |r| >= 2 && r[0] == IdCol
    ensures r[1] == if p.showDone then DoneCol else TitleCol
  {
    var r := ColumnsFrom(p, 0);
    ColumnsStart(p);
    forall c | Shown(p, c)
      ensures c in r
    {
      RankInverse(c);
    }
    r
  }

  lemma ColumnsStart(p: NotesPrinter)
    ensures var r := ColumnsFrom(p, 0);
            && |r| >= 2 && r[0] == IdCol
            && (p.showDone ==> r[1] == DoneCol)
            && (!p.showDone ==> r[1] == TitleCol)
  {
    SecondColumn(p);
    ColumnsFromUnfold(p, 0);
    assert ColumnAt(0) == IdCol;
    Behind(IdCol, ColumnsFrom(p, 1), ColumnsFrom(p, 0));
  }

  /** A run with one column in front of another. */
  lemma Behind(c: Column, rest: seq<Column>, r: seq<Column>)
    requires r == [c] + rest && rest != []
    ensures |r| >= 2 && r[0] == c && r[1] == rest[0]
  {
  }

  /** From rank 1 on, the done column comes first when shown, the title
      otherwise. */
  lemma SecondColumn(p: NotesPrinter)
    ensures var r := ColumnsFrom(p, 1);
            && r != []
            && (p.showDone ==> r[0] == DoneCol)
            && (!p.showDone ==> r[0] == TitleCol)
  {
    ThirdColumn(p);
    ColumnsFromUnfold(p, 1);
    assert ColumnAt(1) == DoneCol;
  }

  /** From rank 2 on, the title comes first. */
  lemma ThirdColumn(p: NotesPrinter)
    ensures var r := ColumnsFrom(p, 2);
            r != [] && r[0] == TitleCol
  {
    ColumnsFromUnfold(p, 2);
    assert ColumnAt(2) == TitleCol;
  }

  /** The shown columns from rank `k` on: the column of rank `k` when it is
      shown, then those from `k + 1` on. */
  lemma ColumnsFromUnfold(p: NotesPrinter, k: nat)
    requires k < 7
    ensures ColumnsFrom(p, k) == (if Shown(p, ColumnAt(k)) then [ColumnAt(k)] else []) + ColumnsFrom(p, k + 1)
  {
  }

  /** One printed cell: the literal text before its body, the body (text or
      a time in a Go layout), the text after it, and its colour. */
  datatype Cell = Cell(column: Column, before: string, body: Piece, after: string, colour: Colour)

  function ColumnsOf(cells: seq<Cell>): (r: seq<Column>)
    ensures |r| == |cells|
    ensures forall i :: 0 <= i < |r| ==> r[i] == cells[i].column
  {
    if cells == [] then [] else [cells[0].column] + ColumnsOf(cells[1..])
  }

  // ---------------------------------------------------------------------------
  // Colours
  // ---------------------------------------------------------------------------

  /** The colour class of `getPriorityColor`: 0-1 green, 2-3 yellow, 4-5 red,
      anything higher no colour at all. */
  function PriorityClass(priority: nat): (c: Colour)
    ensures c == Green <==> priority <= 1
    ensures c == Yellow <==> 2 <= priority <= 3
    ensures c == Red <==> 4 <= priority <= 5
    ensures c == NoColour <==> priority > 5
  {
    match priority
    case 0 => Green
    case 1 => Green
    case 2 => Yellow
    case 3 => Yellow
    case 4 => Red
    case 5 => Red
    case _ => NoColour
  }

  /** The colour the printer uses for a priority: its class, or nothing when
      colour output is off. */
  function PriorityColour(p: NotesPrinter, priority: nat): (c: Colour)
    ensures !p.useColor ==> c == NoColour
    ensures p.useColor ==> c == PriorityClass(priority)
  {
    if p.useColor then PriorityClass(priority) else NoColour
  }

  /** Within the checked range a higher priority never gets a calmer colour. */
  lemma PriorityClassMonotone(a: nat, b: nat)
    requires a <= b <= MaxPriority
    ensures ClassLevel(PriorityClass(a)) <= ClassLevel(PriorityClass(b))
  {
  }

  function ClassLevel(c: Colour): nat {
    match c
    case Green => 1
    case Yellow => 2
    case Red => 3
    case _ => 0
  }

  // ---------------------------------------------------------------------------
  // Header and rows
  // ---------------------------------------------------------------------------

  /** The header label of one column: TITLE is padded to the title width,
      every other label is followed by a tab. */
  function HeaderCell(p: NotesPrinter, col: Column): (c: Cell)
    ensures c.column == col
    ensures c.colour == if p.useColor then HeaderCyan else NoColour
    ensures col == TitleCol ==> c.body == Lit(PadRight("TITLE", p.maxTitleLength)) && c.after == ""
    ensures col != TitleCol ==> c.after == "\t"
  {
    var colour := if p.useColor then HeaderCyan else NoColour;
    match col
    case IdCol => Cell(col, "", Lit("ID"), "\t", colour)
    case DoneCol => Cell(col, "", Lit("DONE"), "\t", colour)
    case TitleCol => Cell(col, "", Lit(PadRight("TITLE", p.maxTitleLength)), "", colour)
    case PrioCol => Cell(col, "", Lit("PRIO"), "\t", colour)
    case DueCol => Cell(col, "", Lit("DUE"), "\t", colour)
    case CreatedCol => Cell(col, "", Lit("CREATED"), "\t", colour)
    case UpdatedCol => Cell(col, "", Lit("UPDATED"), "\t", colour)
  }

  /** `printHeader`: one label per visible column, in column order. */
  function Header(p: NotesPrinter): (r: seq<Cell>)
    ensures ColumnsOf(r) == Columns(p)
    ensures forall i :: 0 <= i < |r| ==> r[i] == HeaderCell(p, r[i].column)
  {
    var cols := Columns(p);
    seq(|cols|, i requires 0 <= i < |cols| => HeaderCell(p, cols[i]))
  }

  /** The title cell's text: the first line, cut to `maxTitleLength - 3`
      characters plus "..." when longer, then left-aligned in a field of
      `maxTitleLength`. It is exactly that wide and holds no newline. */
  function TitleText(p: NotesPrinter, content: string): (r: string)
    requires p.maxTitleLength >= 3
    ensures |r| == p.maxTitleLength
    ensures '\n' !in r
    ensures |FirstLine(content)| <= p.maxTitleLength - 3 ==> FirstLine(content) <= r
    ensures |FirstLine(content)| > p.maxTitleLength - 3 ==>
              r == FirstLine(content)[..p.maxTitleLength - 3] + "..."
    ensures Preview(content, p.maxTitleLength - 3) <= r
    ensures forall k :: |Preview(content, p.maxTitleLength - 3)| <= k < |r| ==> r[k] == ' '
  {
    var preview := Preview(content, p.maxTitleLength - 3);
    PadRight(preview, p.maxTitleLength)
  }

  /** The cell `PrintNote` writes for one column of a note: the id and done
      marker followed by a tab, a space and the title text, then each further
      column after a tab; the priority in its colour, times in the printer's
      layout. */
  function RowCell(p: NotesPrinter, n: Note, col: Column): (c: Cell)
    requires p.maxTitleLength >= 3
    ensures c.column == col
    ensures col == IdCol ==> c == Cell(IdCol, "", Lit(Decimal(n.id)), "\t", NoColour)
    ensures col == DoneCol ==> c == Cell(DoneCol, "", Lit(DoneMarker(n.done)), "\t", NoColour)
    ensures col == TitleCol ==> c == Cell(TitleCol, " ", Lit(TitleText(p, n.content)), "", NoColour)
    ensures col == PrioCol ==> c.body == Lit(Decimal(n.priority)) && c.colour == PriorityColour(p, n.priority)
    ensures col == DueCol ==> c.body == Stamp(n.due, p.timeFormat)
    ensures col == CreatedCol ==> c.body == Stamp(n.created, p.timeFormat)
    ensures col == UpdatedCol ==> c.body == Stamp(n.updated, p.timeFormat)
    ensures col in {PrioCol, DueCol, CreatedCol, UpdatedCol} ==> c.before == "\t" && c.after == ""
  {
    match col
    case IdCol => Cell(col, "", Lit(Decimal(n.id)), "\t", NoColour)
    case DoneCol => Cell(col, "", Lit(DoneMarker(n.done)), "\t", NoColour)
    case TitleCol => Cell(col, " ", Lit(TitleText(p, n.content)), "", NoColour)
    case PrioCol => Cell(col, "\t", Lit(Decimal(n.priority)), "", PriorityColour(p, n.priority))
    case DueCol => Cell(col, "\t", Stamp(n.due, p.timeFormat), "", NoColour)
    case CreatedCol => Cell(col, "\t", Stamp(n.created, p.timeFormat), "", NoColour)
    case UpdatedCol => Cell(col, "\t", Stamp(n.updated, p.timeFormat), "", NoColour)
  }

  /** `PrintNote`: the cells of one row, in the header's column order; the
      first is the id, the second the done marker when that column is on. */
  function Row(p: NotesPrinter, n: Note): (r: seq<Cell>)
    requires p.maxTitleLength >= 3
    ensures ColumnsOf(r) == Columns(p)
    ensures forall i :: 0 <= i < |r| ==> r[i] == RowCell(p, n, r[i].column)
    ensures r[0] == Cell(IdCol, "", Lit(Decimal(n.id)), "\t", NoColour)
    ensures p.showDone ==> r[1] == Cell(DoneCol, "", Lit(DoneMarker(n.done)), "\t", NoColour)
  {
    var cols := Columns(p);
    var r := RowCells(p, n, cols);
    assert r[0] == RowCell(p, n, IdCol);
    r
  }

  /** The cells of a note for the given columns, one each, in order. */
  function RowCells(p: NotesPrinter, n: Note, cols: seq<Column>): (r: seq<Cell>)
    requires p.maxTitleLength >= 3
    ensures |r| == |cols| && ColumnsOf(r) == cols
    ensures forall i :: 0 <= i < |r| ==> r[i] == RowCell(p, n, cols[i])
  {
    var r := seq(|cols|, i requires 0 <= i < |cols| => RowCell(p, n, cols[i]));
    assert forall i :: 0 <= i < |r| ==> r[i].column == cols[i];
    r
  }

  /** Every row lines up with the header: same columns, same order. */
  lemma RowMatchesHeader(p: NotesPrinter, n: Note)
    requires p.maxTitleLength >= 3
    ensures ColumnsOf(Row(p, n)) == ColumnsOf(Header(p))
    ensures |Row(p, n)| == |Header(p)|
  {
  }

  // ---------------------------------------------------------------------------
  // Print
  // ---------------------------------------------------------------------------

  /** Whether `Print` leaves a note out. */
  predicate Skipped(p: NotesPrinter, n: Note) {
    p.skipDone && n.done
  }

  /** The notes `Print` lists, in store order: all of them unless done notes
      are skipped, and then exactly the ones not done. */
  function Listed(p: NotesPrinter, notes: seq<Note>): (r: seq<Note>)
    ensures |r| <= |notes|
    ensures !p.skipDone ==> r == notes
    ensures forall n :: n in r ==> n in notes && !Skipped(p, n)
    ensures forall n :: n in notes && !Skipped(p, n) ==> n in r
  {
    if notes == [] then []
    else (if Skipped(p, notes[0]) then [] else [notes[0]]) + Listed(p, notes[1..])
  }

  /** The notes listed from two runs are those of each, in order: `Print`
      keeps store order. */
  lemma {:induction false} ListedAppend(p: NotesPrinter, a: seq<Note>, b: seq<Note>)
    ensures Listed(p, a + b) == Listed(p, a) + Listed(p, b)
  {
    if a == [] {
      assert a + b == b;
    } else {
      var head := if Skipped(p, a[0]) then [] else [a[0]];
      Uncons(a, b);
      ListedCons(p, a[0], a[1..]);
      ListedCons(p, a[0], a[1..] + b);
      ListedAppend(p, a[1..], b);
      Regroup(head, Listed(p, a[1..]), Listed(p, b), Listed(p, a), Listed(p, a + b));
    }
  }

  /** A non-empty run, alone and in front of another, split at its first
      element. */
  lemma Uncons<T>(a: seq<T>, b: seq<T>)
    requires a != []
    ensures a == [a[0]] + a[1..] && a + b == [a[0]] + (a[1..] + b)
  {
  }

  /** Concatenation regrouped. */
  lemma Regroup<T>(h: seq<T>, u: seq<T>, v: seq<T>, x: seq<T>, y: seq<T>)
    requires x == h + u && y == h + (u + v)
    ensures y == x + v
  {
  }

  /** One note in front of a run: it is listed first unless it is skipped. */
  lemma ListedCons(p: NotesPrinter, n: Note, rest: seq<Note>)
    ensures Listed(p, [n] + rest) == (if Skipped(p, n) then [] else [n]) + Listed(p, rest)
  {
    assert ([n] + rest)[1..] == rest;
  }

  /** Which notes are listed depends on `skipDone` alone. */
  lemma {:induction false} ListedDependsOnSkip(p: NotesPrinter, q: NotesPrinter, notes: seq<Note>)
    requires p.skipDone == q.skipDone
    ensures Listed(p, notes) == Listed(q, notes)
  {
    if notes != [] {
      ListedDependsOnSkip(p, q, notes[1..]);
    }
  }

  /** A run of done notes lists nothing when done notes are skipped. */
  lemma DoneNotesLeftOut(p: NotesPrinter, notes: seq<Note>)
    requires p.skipDone
    requires forall i :: 0 <= i < |notes| ==> notes[i].done
    ensures Listed(p, notes) == []
  {
  }

  /** The rows `Print` emits: one per listed note, in order. */
  function Rows(p: NotesPrinter, notes: seq<Note>): (r: seq<seq<Cell>>)
    requires p.maxTitleLength >= 3
    ensures |r| == |Listed(p, notes)|
    ensures forall i :: 0 <= i < |r| ==> r[i] == Row(p, Listed(p, notes)[i])
  {
    var listed := Listed(p, notes);
    seq(|listed|, i requires 0 <= i < |listed| => Row(p, listed[i]))
  }

  /** What `Print` writes: the header row when `printHeader` is set, then the
      rows, each of them ended by a newline. */
  datatype Listing = Listing(header: seq<Cell>, rows: seq<seq<Cell>>)

  /** `NotesPrinter.Print`. */
  function Print(p: NotesPrinter, notes: seq<Note>): (r: Listing)
    requires p.maxTitleLength >= 3
    ensures p.printHeader ==> r.header == Header(p)
    ensures !p.printHeader ==> r.header == []
    ensures r.rows == Rows(p, notes)
  {
    Listing(if p.printHeader then Header(p) else [], Rows(p, notes))
  }

  /** A printer made by `NewNotesPrinter` can print any notes, and lists
      exactly the notes not done, each as one row. */
  lemma DefaultPrinterListsOpenNotes(c: Configuration, notes: seq<Note>)
    ensures NewNotesPrinter(c).maxTitleLength >= 3
    ensures forall n :: n in Listed(NewNotesPrinter(c), notes) <==> n in notes && !n.done
    ensures |Print(NewNotesPrinter(c), notes).rows| == |Listed(NewNotesPrinter(c), notes)|
  {
  }

  // ---------------------------------------------------------------------------
  // One note in full
  // ---------------------------------------------------------------------------

  /** A run of printed text and the colour it is printed in. */
  datatype Span = Span(piece: Piece, colour: Colour)

  const Rule: string := "----------------\n"

  /** `PrintFullNote`: a heading with the id (always in the heading colour),
      the priority in its colour when priorities are shown, the due time when
      due dates are shown, creation and update times, and then the content
      verbatim between two rules. */
  function FullNote(p: NotesPrinter, n: Note): (r: seq<Span>)
    ensures |r| == 10 + (if p.showPriority then 2 else 0) + (if p.showDue then 3 else 0)
    ensures r[0] == Span(Lit("NOTE " + Decimal(n.id) + "\n"), NoteHeading)
    ensures p.showPriority ==> r[1] == Span(Lit("Priority: "), NoColour)
                               && r[2] == Span(Lit(Decimal(n.priority) + "\n"), PriorityColour(p, n.priority))
    ensures var d := 1 + (if p.showPriority then 2 else 0);
            p.showDue ==> r[d..d + 3] == [Span(Lit("Due: "), NoColour), Span(Stamp(n.due, p.timeFormat), NoColour),
                                         Span(Lit("\n"), NoColour)]
    ensures r[|r| - 9..|r| - 3]
         == [Span(Lit("Created: "), NoColour), Span(Stamp(n.created, p.timeFormat), NoColour), Span(Lit("\n"), NoColour),
             Span(Lit("Updated: "), NoColour), Span(Stamp(n.updated, p.timeFormat), NoColour), Span(Lit("\n"), NoColour)]
    ensures r[|r| - 3..] == [Span(Lit(Rule), NoColour), Span(Lit(n.content), NoColour), Span(Lit(Rule), NoColour)]
  {
    [Span(Lit("NOTE " + Decimal(n.id) + "\n"), NoteHeading)]
    + (if p.showPriority
       then [Span(Lit("Priority: "), NoColour), Span(Lit(Decimal(n.priority) + "\n"), PriorityColour(p, n.priority))]
       else [])
    + (if p.showDue
       then [Span(Lit("Due: "), NoColour), Span(Stamp(n.due, p.timeFormat), NoColour), Span(Lit("\n"), NoColour)]
       else [])
    + [Span(Lit("Created: "), NoColour), Span(Stamp(n.created, p.timeFormat), NoColour), Span(Lit("\n"), NoColour),
       Span(Lit("Updated: "), NoColour), Span(Stamp(n.updated, p.timeFormat), NoColour), Span(Lit("\n"), NoColour)]
    + [Span(Lit(Rule), NoColour), Span(Lit(n.content), NoColour), Span(Lit(Rule), NoColour)]
  }

  /** Two notes look the same in full exactly when they agree on every field
      the full view shows: id, content, both timestamps, and the priority and
      due date when those are shown. */
  lemma FullNoteShowsItsFields(p: NotesPrinter, a: Note, b: Note)
    ensures FullNote(p, a) == FullNote(p, b)
        <==> && a.id == b.id && a.content == b.content && a.created == b.created && a.updated == b.updated
             && (p.showPriority ==> a.priority == b.priority)
             && (p.showDue ==> a.due == b.due)
  {
    var x, y := FullNote(p, a), FullNote(p, b);
    if x == y {
      assert x[0] == y[0];
      Unframe("NOTE ", Decimal(a.id), Decimal(b.id), "\n");
      DecimalInjective(a.id, b.id);
      if p.showPriority {
        assert x[2] == y[2];
        assert "" + Decimal(a.priority) + "\n" == Decimal(a.priority) + "\n";
        assert "" + Decimal(b.priority) + "\n" == Decimal(b.priority) + "\n";
        Unframe("", Decimal(a.priority), Decimal(b.priority), "\n");
        DecimalInjective(a.priority, b.priority);
      }
      if p.showDue {
        var d := 1 + (if p.showPriority then 2 else 0);
        assert x[d + 1] == y[d + 1];
      }
      assert x[|x| - 8] == y[|y| - 8];
      assert x[|x| - 5] == y[|y| - 5];
      assert x[|x| - 2] == y[|y| - 2];
    }
  }

  /** Text framed the same way on both sides is the same text. */
  lemma Unframe(pre: string, x: string, y: string, post: string)
    requires pre + x + post == pre + y + post
    ensures x == y
  {
    var s := pre + x + post;
    assert |x| == |y|;
    assert x == s[|pre|..|pre| + |x|];
    assert y == (pre + y + post)[|pre|..|pre| + |y|];
  }
}
