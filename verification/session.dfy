/** The interactive session (gui.go) as a state machine: a selection index
    over the notes, a vim-like `:` command line and a one-shot error line.
    The terminal library is gone: a key press is an event, and what `update`
    draws is returned as a `Screen`. The notes do not change during a
    session, so they are a parameter of every step. */
module Session {
  import opened Wrappers
  import opened Text
  import opened NoteRecord
  import opened Config

  /** The view that has the keyboard. */
  datatype View = ListView | CommandView

  /** The mutable part of `NotesGui`. */
  datatype Gui = Gui(view: View, idx: int, cmd: string, errString: string)

  datatype Key = Char(c: char) | Enter | Esc

  /** What one redraw shows: the highlighted row of the list (`None` when
      there is nothing to highlight), the preview panel line by line, and the
      command line. */
  datatype Screen = Screen(selected: Option<nat>, preview: seq<seq<Piece>>, status: string)

  /** The result of one key press: the key is not bound in the current view
      (nothing happens), the session is redrawn in a new state, the session
      ends, or the program panics. */
  datatype Outcome = Unbound | Redrawn(gui: Gui, screen: Screen) | Quit | Crash

  const InvalidCommandMessage: string := "Invalid command. Use :h to show help"

  /** The letters bound in the command view, in the order they are bound. */
  const CommandLetters: string := "qwertyuiopasdfghjklzxcvbnm"

  /** The bound letters are exactly the lower-case letters a to z. */
  lemma CommandLettersAreLowerCase(c: char)
    ensures c in CommandLetters <==> 'a' <= c <= 'z'
  {
    if 'a' <= c <= 'z' {
      var alphabet := "abcdefghijklmnopqrstuvwxyz";
      assert alphabet[c as int - 'a' as int] == c;
      assert forall i :: 0 <= i < |alphabet| ==> alphabet[i] in CommandLetters;
    }
  }

  // ---------------------------------------------------------------------------
  // Moving the selection
  // ---------------------------------------------------------------------------

  /** `increaseIndex`: one down, back to the top after the last note. */
  function NextIndex(idx: int, count: nat): (r: int)
    ensures idx + 1 < count ==> r == idx + 1
    ensures idx + 1 >= count ==> r == 0
  {
    if idx + 1 >= count then 0 else idx + 1
  }

  /** `decreaseIndex`: one up, to the last note from the top; with no notes
      that is -1. */
  function PrevIndex(idx: int, count: nat): (r: int)
    ensures idx - 1 >= 0 ==> r == idx - 1
    ensures idx - 1 < 0 ==> r == count - 1
  {
    if idx - 1 < 0 then count - 1 else idx - 1
  }

  /** With at least one note both moves stay on a note and undo each other. */
  lemma MovesAreInverse(idx: int, count: nat)
    requires 0 <= idx < count
    ensures 0 <= NextIndex(idx, count) < count && 0 <= PrevIndex(idx, count) < count
    ensures PrevIndex(NextIndex(idx, count), count) == idx
    ensures NextIndex(PrevIndex(idx, count), count) == idx
  {
  }

  /** With no notes, moving up selects index -1 and moving down index 0:
      neither is a note. */
  lemma MovesOnEmptyLeaveRange(idx: int)
    requires -1 <= idx
    ensures PrevIndex(0, 0) == -1
    ensures NextIndex(idx, 0) == 0
  {
  }

  // ---------------------------------------------------------------------------
  // Redrawing
  // ---------------------------------------------------------------------------

  /** Whether the preview panel has a due line: due dates are on and the
      note has one. */
  predicate ShowsDue(n: Note, c: Configuration) {
    c.useDue && n.due != ZeroTime
  }

  /** The preview panel of the selected note: id, priority when priorities
      are on, due time when due dates are on and one is set, tags when there
      are any, then creation and update times, each as `fmt.Fprintln` writes
      its two operands (separated by one space). */
  function PreviewPanel(n: Note, c: Configuration): (r: seq<seq<Piece>>)
    ensures |r| == 3 + (if c.usePriority then 1 else 0)
                     + (if ShowsDue(n, c) then 1 else 0)
                     + (if |n.tags| > 0 then 1 else 0)
    ensures r[0] == [Lit("ID:        " + Decimal(n.id))]
    ensures r[|r| - 2] == [Lit("Created:   "), Stamp(n.created, c.timeFormat)]
    ensures r[|r| - 1] == [Lit("Updated:   "), Stamp(n.updated, c.timeFormat)]
    ensures c.usePriority ==> r[1] == [Lit("Priority:  " + Decimal(n.priority))]
    ensures ShowsDue(n, c) ==> r[1 + (if c.usePriority then 1 else 0)] == [Lit("Due:        "), Stamp(n.due, c.timeFormat)]
    ensures |n.tags| > 0 ==> r[|r| - 3] == [Lit("Tags:      " + Join(n.tags, ", "))]
  {
    [[Lit("ID:        " + Decimal(n.id))]]
    + (if c.usePriority then [[Lit("Priority:  " + Decimal(n.priority))]] else [])
    + (if ShowsDue(n, c) then [[Lit("Due:        "), Stamp(n.due, c.timeFormat)]] else [])
    + (if |n.tags| > 0 then [[Lit("Tags:      " + Join(n.tags, ", "))]] else [])
    + [[Lit("Created:   "), Stamp(n.created, c.timeFormat)],
       [Lit("Updated:   "), Stamp(n.updated, c.timeFormat)]]
  }

  /** Two notes give the same preview panel exactly when they agree on
      every field the panel shows: id, both times, the priority when
      priorities are on, whether a due line is shown and its time, and
      whether tags are shown and how they read joined. */
  lemma PreviewPanelShowsItsFields(a: Note, b: Note, c: Configuration)
    ensures PreviewPanel(a, c) == PreviewPanel(b, c)
        <==> && a.id == b.id && a.created == b.created && a.updated == b.updated
             && (c.usePriority ==> a.priority == b.priority)
             && (ShowsDue(a, c) <==> ShowsDue(b, c)) && (ShowsDue(a, c) ==> a.due == b.due)
             && (|a.tags| > 0 <==> |b.tags| > 0)
             && (|a.tags| > 0 ==> Join(a.tags, ", ") == Join(b.tags, ", "))
  {
    var x, y := PreviewPanel(a, c), PreviewPanel(b, c);
    if x == y {
      assert x[0] == y[0];
      Unprefix("ID:        ", Decimal(a.id), Decimal(b.id));
      DecimalInjective(a.id, b.id);
      if c.usePriority {
        assert x[1] == y[1];
        Unprefix("Priority:  ", Decimal(a.priority), Decimal(b.priority));
        DecimalInjective(a.priority, b.priority);
      }
      var d := 1 + (if c.usePriority then 1 else 0);
      if ShowsDue(a, c) {
        assert x[d][1] == y[d][1];
      }
      if |a.tags| > 0 {
        assert x[|x| - 3] == y[|y| - 3];
        Unprefix("Tags:      ", Join(a.tags, ", "), Join(b.tags, ", "));
      }
      assert x[|x| - 2] == y[|y| - 2];
      assert x[|x| - 1] == y[|y| - 1];
    }
  }

  /** Text after the same prefix is the same text. */
  lemma Unprefix(pre: string, x: string, y: string)
    requires pre + x == pre + y
    ensures x == y
  {
    assert x == (pre + x)[|pre|..];
  }

  /** `update`, and beside it the version that survives having no note to
      select (`guarded`). With an empty command line the list view takes the
      keyboard back. The selected note is read at `idx`, which panics when
      `idx` is not a note's index; the guarded version draws no selection
      instead. The command line shows the command being typed or, failing
      that, the pending error once, which is then cleared. */
  function Render(g: Gui, notes: seq<Note>, c: Configuration, guarded: bool): (r: Outcome)
    ensures r.Crash? <==> !guarded && !(0 <= g.idx < |notes|)
    ensures r.Crash? || r.Redrawn?
    ensures r.Redrawn? ==> r.gui.idx == g.idx && r.gui.cmd == g.cmd
    ensures r.Redrawn? ==> r.gui.view == if g.cmd == "" then ListView else g.view
    ensures r.Redrawn? ==> r.screen.status == if g.cmd != "" then g.cmd else g.errString
    ensures r.Redrawn? ==> r.gui.errString == if g.cmd != "" then g.errString else ""
    ensures r.Redrawn? ==> (r.screen.selected.Some? <==> 0 <= g.idx < |notes|)
    ensures r.Redrawn? && 0 <= g.idx < |notes| ==>
              r.screen.selected == Some(g.idx as nat) && r.screen.preview == PreviewPanel(notes[g.idx], c)
  {
    var g1 := if g.cmd == "" then g.(view := ListView) else g;
    var status := if g1.cmd != "" then g1.cmd else g1.errString;
    var g2 := if g1.cmd != "" then g1 else g1.(errString := "");
    if 0 <= g1.idx < |notes| then
      Redrawn(g2, Screen(Some(g1.idx as nat), PreviewPanel(notes[g1.idx], c), status))
    else if guarded then
      Redrawn(g2, Screen(None, [], status))
    else
      Crash
  }

  /** `update` as written. */
  function Update(g: Gui, notes: seq<Note>, c: Configuration): (r: Outcome)
    ensures r.Crash? <==> !(0 <= g.idx < |notes|)
    ensures r.Redrawn? ==> r.screen.selected == Some(g.idx as nat)
  {
    Render(g, notes, c, false)
  }

  /** `update` guarded against a missing selection: it never panics. */
  function UpdateGuarded(g: Gui, notes: seq<Note>, c: Configuration): (r: Outcome)
    ensures r.Redrawn?
  {
    Render(g, notes, c, true)
  }

  /** Where `update` does not panic, the guarded version draws the same. */
  lemma UpdateGuardedAgrees(g: Gui, notes: seq<Note>, c: Configuration)
    ensures !Update(g, notes, c).Crash? ==> UpdateGuarded(g, notes, c) == Update(g, notes, c)
  {
  }

  // ---------------------------------------------------------------------------
  // Key bindings
  // ---------------------------------------------------------------------------

  /** `executeCommand`: the text after the leading ':' is the command; "q"
      and "wq" end the session, any other non-empty command leaves an error
      for the command line, and the list view takes the keyboard back. An
      empty command line has no leading ':' to drop and panics. */
  function Execute(g: Gui, notes: seq<Note>, c: Configuration, guarded: bool): (r: Outcome)
    ensures g.cmd == "" ==> r.Crash?
    ensures g.cmd != "" && g.cmd[1..] in {"q", "wq"} ==> r.Quit?
    ensures g.cmd != "" && g.cmd[1..] !in {"q", "wq"} ==>
              r == Render(g.(view := ListView, cmd := "",
                             errString := if g.cmd[1..] != "" then InvalidCommandMessage else g.errString),
                          notes, c, guarded)
  {
    if g.cmd == "" then Crash
    else
      var command := g.cmd[1..];
      if command == "q" || command == "wq" then Quit
      else
        var err := if |command| > 0 then InvalidCommandMessage else g.errString;
        Render(g.(view := ListView, cmd := "", errString := err), notes, c, guarded)
  }

  /** One key press in the session, with `update` as written (`guarded`
      false) or guarded. In the list view 'j' and 'k' move the selection and
      ':' opens the command line; in the command view a letter a-z is
      appended to the command, Enter runs it and Esc drops it. */
  function Transition(g: Gui, key: Key, notes: seq<Note>, c: Configuration, guarded: bool): (r: Outcome)
    ensures r.Unbound? <==> || (g.view == ListView && key != Char('j') && key != Char('k') && key != Char(':'))
                            || (g.view == CommandView && key.Char? && key.c !in CommandLetters)
    ensures r.Quit? <==> g.view == CommandView && key == Enter && g.cmd != "" && g.cmd[1..] in {"q", "wq"}
    ensures r.Crash? && guarded ==> g.view == CommandView && key == Enter && g.cmd == ""
  {
    match g.view
    case ListView =>
      if key == Char('j') then Render(g.(idx := NextIndex(g.idx, |notes|)), notes, c, guarded)
      else if key == Char('k') then Render(g.(idx := PrevIndex(g.idx, |notes|)), notes, c, guarded)
      else if key == Char(':') then Render(g.(view := CommandView, cmd := ":"), notes, c, guarded)
      else Unbound
    case CommandView =>
      match key
      case Char(ch) => if ch in CommandLetters then Render(g.(cmd := g.cmd + [ch]), notes, c, guarded) else Unbound
      case Enter => Execute(g, notes, c, guarded)
      case Esc => Render(g.(view := ListView, cmd := ""), notes, c, guarded)
  }

  /** One key press of the program as written. */
  function Step(g: Gui, key: Key, notes: seq<Note>, c: Configuration): (r: Outcome)
    ensures r != Crash ==> r == Transition(g, key, notes, c, true)
  {
    Transition(g, key, notes, c, false)
  }

  /** One key press with the guarded `update`. */
  function StepGuarded(g: Gui, key: Key, notes: seq<Note>, c: Configuration): (r: Outcome)
    ensures g.view == CommandView && g.cmd != "" ==> r != Crash
    ensures g.view == ListView ==> r != Crash
  {
    Transition(g, key, notes, c, true)
  }

  /** The first drawing of a session (`Start` queues `update` before the main
      loop). */
  function Start(notes: seq<Note>, c: Configuration): (r: Outcome)
    ensures |notes| > 0 ==> && r.Redrawn? && r.gui == Gui(ListView, 0, "", "")
                            && r.screen.selected == Some(0) && r.screen.status == ""
    ensures notes == [] ==> r == Crash
  {
    Update(Gui(ListView, 0, "", ""), notes, c)
  }

  // ---------------------------------------------------------------------------
  // The session invariant
  // ---------------------------------------------------------------------------

  /** The states a running session is in between key presses: a note is
      selected, the command view has the keyboard exactly while a command is
      being typed, that command starts with ':', and no error is pending
      (every error is shown and cleared by the redraw that follows it). */
  predicate WellFormed(g: Gui, count: nat) {
    && 0 <= g.idx < count
    && (g.view == CommandView <==> g.cmd != "")
    && (g.cmd != "" ==> g.cmd[0] == ':')
    && g.errString == ""
  }

  /** A session over at least one note starts well formed, on the first note,
      with an empty command line. */
  lemma StartIsWellFormed(notes: seq<Note>, c: Configuration)
    requires |notes| > 0
    ensures Start(notes, c).Redrawn?
    ensures WellFormed(Start(notes, c).gui, |notes|)
    ensures Start(notes, c).screen.selected == Some(0) && Start(notes, c).screen.status == ""
  {
  }

  /** From a well-formed state no key press panics, and every redraw lands in
      a well-formed state again. */
  lemma StepPreservesWellFormed(g: Gui, key: Key, notes: seq<Note>, c: Configuration)
    requires WellFormed(g, |notes|)
    ensures Step(g, key, notes, c) != Crash
    ensures Step(g, key, notes, c).Redrawn? ==> WellFormed(Step(g, key, notes, c).gui, |notes|)
  {
    MovesAreInverse(g.idx, |notes|);
  }

  /** The list view's bindings from a well-formed state: 'j' and 'k' move
      the selection, ':' opens a command line holding exactly ":", and every
      other key is ignored. */
  lemma ListViewKeys(g: Gui, key: Key, notes: seq<Note>, c: Configuration)
    requires WellFormed(g, |notes|) && g.view == ListView
    ensures Step(g, Char('j'), notes, c).Redrawn?
    ensures Step(g, Char('j'), notes, c).gui == g.(idx := NextIndex(g.idx, |notes|))
    ensures Step(g, Char('k'), notes, c).Redrawn?
    ensures Step(g, Char('k'), notes, c).gui == g.(idx := PrevIndex(g.idx, |notes|))
    ensures Step(g, Char(':'), notes, c).Redrawn?
    ensures Step(g, Char(':'), notes, c).gui == g.(view := CommandView, cmd := ":")
    ensures Step(g, Char(':'), notes, c).screen.status == ":"
    ensures key !in {Char('j'), Char('k'), Char(':')} ==> Step(g, key, notes, c) == Unbound
  {
    MovesAreInverse(g.idx, |notes|);
  }

  /** The command view's bindings from a well-formed state: Esc drops the
      command and shows an empty command line, and a character other than
      a-z is ignored. */
  lemma CommandViewKeys(g: Gui, ch: char, notes: seq<Note>, c: Configuration)
    requires WellFormed(g, |notes|) && g.view == CommandView
    ensures Step(g, Esc, notes, c).Redrawn?
    ensures Step(g, Esc, notes, c).gui == g.(view := ListView, cmd := "")
    ensures Step(g, Esc, notes, c).screen.status == ""
    ensures !('a' <= ch <= 'z') ==> Step(g, Char(ch), notes, c) == Unbound
  {
    CommandLettersAreLowerCase(ch);
  }

  /** An invalid command is reported on the very next redraw and on no later
      one. */
  lemma InvalidCommandShownOnce(g: Gui, notes: seq<Note>, c: Configuration, key: Key)
    requires WellFormed(g, |notes|) && g.view == CommandView
    requires g.cmd[1..] != "" && g.cmd[1..] !in {"q", "wq"}
    ensures var r := Step(g, Enter, notes, c);
            && r.Redrawn? && r.screen.status == InvalidCommandMessage
            && r.gui.errString == "" && r.gui.view == ListView
            && (Step(r.gui, key, notes, c).Redrawn? ==>
                  Step(r.gui, key, notes, c).screen.status != InvalidCommandMessage)
  {
  }

  /** A bare ':' followed by Enter closes the command line without any
      message. */
  lemma EmptyCommandIsSilent(g: Gui, notes: seq<Note>, c: Configuration)
    requires WellFormed(g, |notes|) && g.cmd == ":"
    ensures var r := Step(g, Enter, notes, c);
            r.Redrawn? && r.screen.status == "" && r.gui == g.(view := ListView, cmd := "")
  {
  }

  /** With no notes the session panics on its first drawing; the guarded
      version draws an empty selection instead. */
  lemma StartCrashesOnEmpty(c: Configuration)
    ensures Start([], c) == Crash
    ensures UpdateGuarded(Gui(ListView, 0, "", ""), [], c).screen.selected == None
  {
  }

  // ---------------------------------------------------------------------------
  // Typing a command
  // ---------------------------------------------------------------------------

  /** The keys in order, the state carried from one press to the next; a key
      that is not bound changes nothing. The outcome is that of the last key
      that was bound (`Unbound` when none was), unless a key ends the session
      or panics first. */
  function Run(g: Gui, keys: seq<Key>, notes: seq<Note>, c: Configuration): (r: Outcome)
    ensures keys == [] ==> r == Unbound
    ensures |keys| == 1 ==> r == Step(g, keys[0], notes, c)
  {
    assert |keys| == 1 ==> RunFrom(g, keys, notes, c, Unbound) == Step(g, keys[0], notes, c) by {
      if |keys| == 1 {
        assert keys[1..] == [];
      }
    }
    RunFrom(g, keys, notes, c, Unbound)
  }

  /** The key loop with the outcome so far: `last` is the latest redraw, kept
      while the keys that follow are unbound. */
  function RunFrom(g: Gui, keys: seq<Key>, notes: seq<Note>, c: Configuration, last: Outcome): (r: Outcome)
    ensures !last.Unbound? ==> !r.Unbound?
    decreases |keys|
  {
    if keys == [] then last
    else
      match Step(g, keys[0], notes, c)
      case Unbound => RunFrom(g, keys[1..], notes, c, last)
      case Redrawn(g', s) => RunFrom(g', keys[1..], notes, c, Redrawn(g', s))
      case Quit => Quit
      case Crash => Crash
  }

  /** The state a session is in after an outcome that did not end it: the
      redrawn state, or the state before when the key was unbound. */
  function Settled(g: Gui, r: Outcome): Gui {
    if r.Redrawn? then r.gui else g
  }

  /** The outcome carried into the loop matters only when no key of the run
      is bound. */
  lemma {:induction false} LastCarried(g: Gui, keys: seq<Key>, notes: seq<Note>, c: Configuration, last: Outcome)
    ensures RunFrom(g, keys, notes, c, last) == if Run(g, keys, notes, c).Unbound? then last else Run(g, keys, notes, c)
    decreases |keys|
  {
    if keys != [] {
      match Step(g, keys[0], notes, c)
      case Unbound => LastCarried(g, keys[1..], notes, c, last);
      case Redrawn(g', s) =>
      case Quit =>
      case Crash =>
    }
  }

  /** Two runs of keys one after the other, when the first neither ends the
      session nor panics: the second starts in the state the first settled
      in, and the first's outcome stands when no key of the second is bound. */
  lemma {:induction false} RunAppend(g: Gui, a: seq<Key>, b: seq<Key>, notes: seq<Note>, c: Configuration)
    requires !Run(g, a, notes, c).Quit? && !Run(g, a, notes, c).Crash?
    ensures var r := Run(g, a, notes, c);
            var r2 := Run(Settled(g, r), b, notes, c);
            Run(g, a + b, notes, c) == if r2.Unbound? then r else r2
    decreases |a|
  {
    if a == [] {
      assert a + b == b;
    } else {
      assert (a + b)[0] == a[0];
      assert (a + b)[1..] == a[1..] + b;
      match Step(g, a[0], notes, c)
      case Unbound =>
        RunAppend(g, a[1..], b, notes, c);
      case Redrawn(g', s) =>
        LastCarried(g', a[1..], notes, c, Redrawn(g', s));
        LastCarried(g', a[1..] + b, notes, c, Redrawn(g', s));
        RunAppend(g', a[1..], b, notes, c);
    }
  }

  /** A key the settled state does not bind leaves a run's outcome as it was. */
  lemma UnboundKeyIgnored(g: Gui, a: seq<Key>, k: Key, notes: seq<Note>, c: Configuration)
    requires !Run(g, a, notes, c).Quit? && !Run(g, a, notes, c).Crash?
    requires Step(Settled(g, Run(g, a, notes, c)), k, notes, c).Unbound?
    ensures Run(g, a + [k], notes, c) == Run(g, a, notes, c)
  {
    RunAppend(g, a, [k], notes, c);
  }

  /** 'j' then an unbound 'x' on the first of two or more notes: the session
      stays on the second note that 'j' selected. */
  lemma MoveThenUnboundKeepsMove(notes: seq<Note>, c: Configuration)
    requires |notes| >= 2
    ensures var r := Run(Gui(ListView, 0, "", ""), [Char('j'), Char('x')], notes, c);
            r.Redrawn? && r.gui.idx == 1
  {
    var g := Gui(ListView, 0, "", "");
    var r := Run(g, [Char('j')], notes, c);
    assert r.Redrawn? && r.gui == g.(idx := 1);
    assert Step(Settled(g, r), Char('x'), notes, c).Unbound?;
    UnboundKeyIgnored(g, [Char('j')], Char('x'), notes, c);
    assert [Char('j')] + [Char('x')] == [Char('j'), Char('x')];
  }

  /** A session ends only on Enter: whatever else is typed, `Run` quits
      only if Enter is among the keys. */
  lemma {:induction false} QuitNeedsEnter(g: Gui, keys: seq<Key>, notes: seq<Note>, c: Configuration)
    ensures Run(g, keys, notes, c).Quit? ==> Enter in keys
    decreases |keys|
  {
    if keys != [] {
      match Step(g, keys[0], notes, c)
      case Unbound =>
        QuitNeedsEnter(g, keys[1..], notes, c);
        assert Enter in keys[1..] ==> Enter in keys;
      case Redrawn(g', s) =>
        LastCarried(g', keys[1..], notes, c, Redrawn(g', s));
        QuitNeedsEnter(g', keys[1..], notes, c);
        assert Enter in keys[1..] ==> Enter in keys;
      case Quit =>
      case Crash =>
    }
  }

  function Letters(word: string): (r: seq<Key>)
    ensures |r| == |word|
    ensures forall i :: 0 <= i < |r| ==> r[i] == Char(word[i])
  {
    if word == [] then [] else [Char(word[0])] + Letters(word[1..])
  }

  predicate LowerWord(word: string) {
    forall i :: 0 <= i < |word| ==> 'a' <= word[i] <= 'z'
  }

  /** Typing a lower-case word in the command view appends exactly that word
      to the command and shows it. */
  lemma {:induction false} TypingAppends(g: Gui, word: string, notes: seq<Note>, c: Configuration)
    requires WellFormed(g, |notes|) && g.view == CommandView
    requires word != [] && LowerWord(word)
    ensures var r := Run(g, Letters(word), notes, c);
            r.Redrawn? && r.gui == g.(cmd := g.cmd + word) && r.screen.status == g.cmd + word
    decreases |word|
  {
    var g' := g.(cmd := g.cmd + [word[0]]);
    var keys := Letters(word);
    var first := Step(g, keys[0], notes, c);
    assert first.Redrawn? && first.gui == g' && first.screen.status == g'.cmd by {
      TypeLetter(g, word[0], notes, c);
    }
    if |word| > 1 {
      TypingAppends(g', word[1..], notes, c);
      assert Run(g, keys, notes, c) == Run(g', Letters(word[1..]), notes, c) by {
        RunFirst(g, keys, notes, c);
        assert keys[1..] == Letters(word[1..]);
      }
      MoveFirst(g.cmd, word);
    } else {
      assert Run(g, keys, notes, c) == first by {
        RunFirst(g, keys, notes, c);
      }
      assert g.cmd + word == g'.cmd;
    }
  }

  /** Moving the first character of `w` onto the end of `a` keeps `a + w`. */
  lemma MoveFirst(a: string, w: string)
    requires w != []
    ensures (a + [w[0]]) + w[1..] == a + w
  {
    assert [w[0]] + w[1..] == w;
  }

  /** A run whose first key redraws continues from the redrawn state. */
  lemma RunFirst(g: Gui, keys: seq<Key>, notes: seq<Note>, c: Configuration)
    requires keys != [] && Step(g, keys[0], notes, c).Redrawn?
    ensures |keys| == 1 ==> Run(g, keys, notes, c) == Step(g, keys[0], notes, c)
    ensures |keys| > 1 ==>
              var r := Run(Step(g, keys[0], notes, c).gui, keys[1..], notes, c);
              Run(g, keys, notes, c) == if r.Unbound? then Step(g, keys[0], notes, c) else r
  {
    var first := Step(g, keys[0], notes, c);
    LastCarried(first.gui, keys[1..], notes, c, first);
  }

  /** One letter typed in the command view. */
  lemma TypeLetter(g: Gui, ch: char, notes: seq<Note>, c: Configuration)
    requires WellFormed(g, |notes|) && g.view == CommandView
    requires 'a' <= ch <= 'z'
    ensures var g' := g.(cmd := g.cmd + [ch]);
            && WellFormed(g', |notes|) && g'.view == CommandView
            && Step(g, Char(ch), notes, c).Redrawn?
            && Step(g, Char(ch), notes, c).gui == g'
            && Step(g, Char(ch), notes, c).screen.status == g'.cmd
  {
    CommandLettersAreLowerCase(ch);
  }

  /** Typing ':' and a lower-case word from the list view, then Enter, is
      Enter on the command ":" followed by that word. */
  lemma TypedCommand(g: Gui, word: string, notes: seq<Note>, c: Configuration)
    requires WellFormed(g, |notes|) && g.view == ListView
    requires word != [] && LowerWord(word)
    ensures Run(g, [Char(':')] + Letters(word) + [Enter], notes, c)
            == Step(g.(view := CommandView, cmd := ":" + word), Enter, notes, c)
  {
    var rest := Letters(word) + [Enter];
    var g1 := g.(view := CommandView, cmd := ":");
    KeysRegroup(Char(':'), Letters(word), [Enter]);
    ColonThenRun(g, rest, notes, c);
    TypedThenRun(g1, word, notes, c);
    assert !Step(g1.(cmd := ":" + word), Enter, notes, c).Unbound?;
  }

  /** Keys grouped behind their first one. */
  lemma KeysRegroup(k: Key, u: seq<Key>, v: seq<Key>)
    ensures [k] + u + v == [k] + (u + v)
  {
  }

  /** ':' in the list view opens the command line, and the rest of the run
      continues from there. */
  lemma ColonThenRun(g: Gui, rest: seq<Key>, notes: seq<Note>, c: Configuration)
    requires WellFormed(g, |notes|) && g.view == ListView && rest != []
    ensures var r := Run(g.(view := CommandView, cmd := ":"), rest, notes, c);
            Run(g, [Char(':')] + rest, notes, c) == if r.Unbound? then Step(g, Char(':'), notes, c) else r
  {
    var keys := [Char(':')] + rest;
    assert keys[0] == Char(':') && keys[1..] == rest;
    assert Step(g, keys[0], notes, c).Redrawn?;
    RunFirst(g, keys, notes, c);
  }

  /** A lower-case word typed in the command view, then more keys: the run
      continues with the word on the command line. */
  lemma TypedThenRun(g: Gui, word: string, notes: seq<Note>, c: Configuration)
    requires WellFormed(g, |notes|) && g.view == CommandView
    requires word != [] && LowerWord(word)
    ensures Run(g, Letters(word) + [Enter], notes, c) == Run(g.(cmd := g.cmd + word), [Enter], notes, c)
  {
    TypingAppends(g, word, notes, c);
    RunAppend(g, Letters(word), [Enter], notes, c);
    assert !Step(g.(cmd := g.cmd + word), Enter, notes, c).Unbound?;
  }

  /** Typing ':', "q" or "wq", and Enter from the list view ends the session. */
  lemma TypedQuitQuits(g: Gui, word: string, notes: seq<Note>, c: Configuration)
    requires WellFormed(g, |notes|) && g.view == ListView
    requires word in {"q", "wq"}
    ensures Run(g, [Char(':')] + Letters(word) + [Enter], notes, c) == Quit
  {
    assert LowerWord(word) by {
      assert word == [word[0]] || word == [word[0], word[1]];
    }
    TypedCommand(g, word, notes, c);
    var g2 := g.(view := CommandView, cmd := ":" + word);
    assert g2.cmd[1..] == word;
    assert Step(g2, Enter, notes, c) == Quit;
  }
}
