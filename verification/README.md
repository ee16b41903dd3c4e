# gdrive_notes in Dafny

gdrive_notes is a command-line to-do notes tool. Its notes live in one JSON
document on Google Drive. This project models the tool's core:
- the note collection (`Notes`): adding, finding, deleting, counting tags, parsing the downloaded document, and the checksum-gated reload;
- the single note (`Note`): its one-line print, tags, and editing in `$EDITOR`;
- the tabular and full-note printer (`NotesPrinter`);
- the interactive configuration interview (`Configuration`);
- the terminal session (`NotesGui`): keys, selection, command line and preview panel;
- the command dispatcher `handleArgs` with its listing options.

Each part is a module of immutable datatypes and pure functions. The
outside world is passed in as parameters: Drive, files, the editor process,
the clock, `time.Parse`, `strconv.ParseUint` and the terminal's answers.

| file | module | models |
|---|---|---|
| `wrappers.dfy` | `Wrappers` | `Option` and `Result` |
| `text.dfy` | `Text` | the string helpers the core uses: first line, `strings.Split`/`Join`, `strings.Trim(s, " ")`, padding, decimal printing and `strconv.ParseUint(s, 10, 64)` |
| `note.dfy` | `NoteRecord` | `note.go` and the note's tag operations |
| `store.dfy` | `NoteStore` | `notes.go`: the collection, its id counter, tags, parsing, reload |
| `config.dfy` | `Config` | `configuration.go`: defaults and the `config` interview |
| `printer.dfy` | `Printer` | `notes_printer.go`: columns, header, rows, listing, full note |
| `session.dfy` | `Session` | `gui.go`: the key bindings as a state machine |
| `cli.dfy` | `Cli` | `main.go`: `getNoteFromArg`, `handleListArgs`, `handleArgs` |
| `spellings.dfy` | `Spellings` | `main.go`: the spellings of `handleArgs`'s switch, read back |

The model follows the code as written, including where it departs from
what it evidently intends:
- `AddNote` does not advance `max_id`, so `qa` and `add` leave the counter
  where it was.
- The reload's parse check is inverted.
- The `--prio` option of `list` and `todo` is stored only when its value
  does NOT parse, and no listing filters by it.
- The due-format answer of `config` replaces the time layout, and the due
  layout is always reset.
- The printer uses a fixed title width of 30 and prints an empty table, with
  no "no notes" message.
- Moving the selection on an empty list goes to index -1.

The first four, and the redraw that crashes on an empty list, each have a
corrected variant beside the as-written one, with the intended property
proved about it (see "## Findings"). The command dispatch `Cli.HandleArgs`
uses the as-written definitions throughout.

## Model

| member | source | states |
|---|---|---|
| Text.Join | main.go:73 | `strings.Join` of no parts is empty and of one part is that part; with more, the first part starts the result |
| Text.JoinLength | main.go:73 | a join is as long as its parts plus one separator between each two |
| Text.JoinEndsWithLast | gui.go:228 | a join ends with its last part |
| Text.FirstLine | notes_printer.go:98-99 | the part before the first newline: a prefix of the content, free of newlines, ended by a newline unless it is the whole content |
| Text.Split | configuration.go:116 | `strings.Split` gives at least one piece, no piece holds the separator, and joining the pieces with it gives the input back |
| Text.SplitJoin | configuration.go:116-120 | splitting the join of separator-free pieces gives exactly those pieces |
| Text.Trim | configuration.go:119 | `strings.Trim(s, " ")` keeps the inside of `s` and drops exactly the leading and trailing spaces; a string without outer spaces is kept |
| Text.TrimIdempotent | configuration.go:119 | trimming twice is trimming once |
| Text.PadRight | notes_printer.go:103-105 | `%-Nv` keeps the text as a prefix and pads with spaces to width N, never shortening |
| Text.Decimal | note.go:45 | a printed number is a non-empty run of digits without a leading zero |
| Text.DecimalRoundTrip | note.go:45 | the digits printed for n read back as n |
| Text.DecimalInjective | note.go:45 | different numbers print differently |
| Text.ParseUint10 | configuration.go:133 | base-10 `ParseUint` succeeds exactly on non-empty digit strings whose value fits the bit size, and returns that value |
| Text.ParseDecimalRoundTrip | configuration.go:133 | parsing the printed form of a number that fits gives the number back |
| NoteRecord.Abbreviate | note.go:40-42 | text longer than the limit is cut to the limit and "..." is added; shorter text is unchanged |
| NoteRecord.AbbreviateIdempotent | note.go:40-42 | abbreviating an abbreviation changes nothing |
| NoteRecord.Preview | note.go:38-42 | the preview is newline-free and at most limit + 3 long: the whole first line when it fits, otherwise its first `limit` characters followed by "..." |
| NoteRecord.DoneMarker | note.go:31-35 | "[x]" exactly for a done note, "[ ]" otherwise |
| NoteRecord.Print | note.go:26-49 | for every note, the printed line is the id, a space, the done marker, a space, the first line (cut to 30 characters plus "..." when longer), a tab, the priority and a tab, with no newline, followed by the creation time in layout 2006-01-02 15:04 |
| NoteRecord.PrintShowsShortTitle | note.go:37-46 | a first line of at most 30 characters is printed whole, between the marker and the tab-separated priority |
| NoteRecord.AddTag | main.go:268 | adds the tag exactly when it is absent, at the end of the tag list, reports whether it did, keeps the other tags and fields |
| NoteRecord.Without | main.go:288 | removes every copy of the tag and keeps every other tag |
| NoteRecord.RemoveTag | main.go:288 | removes the tag, reporting whether it was there; a note without it is unchanged |
| NoteRecord.ClearTags | main.go:252 | the note keeps every field but has no tags |
| NoteRecord.AddThenRemoveTag | main.go:256-294 | adding a new tag and removing it again gives the original note back |
| NoteRecord.WithoutAppended | main.go:288 | removing a tag appended to a list without it gives that list back |
| NoteRecord.EditInEditor | note.go:51-97 | the editor's text becomes the content; an unset $EDITOR or a failed run is an error; the update flag and the new update time follow exactly a change of the MD5 digest |
| NoteRecord.UnchangedEditIsNoUpdate | note.go:89-96 | saving the file unchanged is no update and leaves the note as it was |
| NoteRecord.EditUpdatesIffChanged | note.go:89-94 | with a collision-free digest, an edit is an update exactly when the text differs |
| NoteStore.WithTags | notes.go:71-74 | the note gains every default tag, keeps its own and gets no others; distinct defaults new to the note are appended in configuration order |
| NoteStore.AddNote | notes.go:68-77 | the new note gets id max_id + 1 and the default tags and is appended last; max_id itself stays as it was |
| NoteStore.AddNoteTwiceRepeatsId | notes.go:68-77 | two additions in a row hand out the same id and leave two notes sharing it |
| NoteStore.AddNoteFixed | notes.go:68-77 | the corrected addition also moves max_id to the new id |
| NoteStore.AddNoteFixedSameNotes | notes.go:68-77 | the corrected addition stores the same notes and returns the same id; only the counter differs, by one |
| NoteStore.AddNoteFixedKeepsIdsUnique | notes.go:68-77 | on a store with distinct ids bounded by max_id, the corrected addition keeps both properties, with a new id above every old one |
| NoteStore.AddNotesFixedKeepIdsUnique | notes.go:68-77 | any number of corrected additions keep ids distinct, and the counter grows by the number of notes |
| NoteStore.FindNote | notes.go:79-88 | finds the first note with the id, and finds none exactly when no note has it |
| NoteStore.FindNoteSameIds | notes.go:79-88 | lookup depends only on the ids in store order |
| NoteStore.GetMaxId | notes.go:90-99 | the largest id of any note, or 0 for an empty store |
| NoteStore.WithoutId | notes.go:101-110 | no note with the id is left; a store without it is unchanged |
| NoteStore.WithoutIdKeepsOthers | notes.go:101-110 | a note survives exactly when it was there and has another id |
| NoteStore.WithoutIdAppend | notes.go:101-110 | deleting distributes over concatenation, so store order is kept |
| NoteStore.DeleteNote | notes.go:101-116 | every note with the id is removed and the counter kept; an unknown id is the "Could not find note with given id" error |
| NoteStore.DeleteNoteLoop | notes.go:101-116 | the in-place loop that re-examines index i after a removal computes exactly `DeleteNote` |
| NoteStore.Tally | notes.go:122-129 | the inner loop adds one to a tag's count per occurrence and creates a key on first sight |
| NoteStore.TallyNotes | notes.go:120-130 | each tag's count grows by its uses across the notes |
| NoteStore.GetTags | notes.go:118-132 | the keys are exactly the tags in use, each mapped to the number of times it is used |
| NoteStore.TagKeysAreUsedTags | notes.go:118-132 | a tag is a key exactly when some note carries it |
| NoteStore.OccursIffPositive | notes.go:122-128 | a tag is in a list exactly when its count there is positive |
| NoteStore.ParseNotes | notes.go:293-315 | an empty file keeps the store; a decoded document replaces the notes and sets max_id to the last note's id; an unreadable or undecodable one is an error |
| NoteStore.ParseOfAscendingIsValid | notes.go:309-312 | on a document with ascending ids the last id is the largest and the parsed store satisfies the id invariant |
| NoteStore.ParseOfDescendingUndercounts | notes.go:309-312 | on ids 3, 2 the counter becomes 2, and the next addition reuses id 3 |
| NoteStore.ReloadDecision | notes.go:254-259 | as written, the local copy is kept exactly when the checksums match and parsing it FAILED |
| NoteStore.ReloadDecisionFixed | notes.go:254-259 | corrected, the local copy is kept exactly when the checksums match and it parsed |
| NoteStore.Reload | notes.go:253-291 | no download exactly when the checksums match and the local parse fails; otherwise a fetch error is returned, and a successful fetch updates the cached checksum and the parsed notes |
| NoteStore.ReloadTrustsMissingCache | notes.go:254-259 | with matching checksums and no local file, the remote notes are never fetched and the store stays empty |
| NoteStore.ReloadFixed | notes.go:253-291 | the corrected reload skips the download exactly when the checksums match and the local copy parses, and then uses that copy |
| NoteStore.ReloadFixedNeverTrustsMissingCache | notes.go:253-291 | the corrected reload fetches and uses the remote notes when the local file is missing |
| Config.NewConfiguration | configuration.go:25-36 | the defaults: time layout 02.01.2006 15:04, colours, priorities and due dates on, priority 3, no category |
| Config.NewConfigurationIsSane | configuration.go:25-36 | the defaults satisfy what every finished interview guarantees |
| Config.AnswerTimeFormat | configuration.go:87-96 | an answer longer than one character becomes the time layout, anything shorter restores the default; nothing else changes |
| Config.AnswerDueFormat | configuration.go:98-107 | as written: the due layout is always reset, and a longer answer overwrites the TIME layout |
| Config.DueAnswerIsLost | configuration.go:98-107 | answering 2006-01-02 leaves the due layout at its default and makes it the time layout |
| Config.AnswerDueFormatFixed | configuration.go:98-107 | corrected: a longer answer becomes the due layout, a shorter one the default; nothing else changes |
| Config.FixedFormatAnswersAreIndependent | configuration.go:87-107 | with the correction, the time and due answers each land in their own setting |
| Config.TrimAll | configuration.go:118-120 | each piece is trimmed, in order |
| Config.AnswerDefaultTags | configuration.go:109-123 | an empty answer keeps the tags; otherwise they become the trimmed comma-separated pieces, none containing a comma or starting with a space |
| Config.PlainTagAnswerRoundTrip | configuration.go:109-123 | tags written joined by bare commas come back exactly |
| Config.AnswerDefaultPriority | configuration.go:125-139 | an empty answer gives 3; a decimal number up to 5 is taken; anything else asks again; only the priority changes |
| Config.EveryOfferedPriorityAccepted | configuration.go:125-139 | each of 0 to 5 typed in decimal is accepted as that priority |
| Config.AnswerCategory | configuration.go:141-149 | only "", "prio" and "due" are accepted, and the accepted one becomes the category |
| Config.AskPriority | configuration.go:125-139 | the priority question ends exactly when some answer is acceptable, and the setting is the FIRST acceptable answer's priority, at most 5 |
| Config.AskCategory | configuration.go:141-149 | the category question ends exactly when some answer is acceptable, and the category is the FIRST acceptable answer |
| Config.Configure | configuration.go:56-152 | as written: the interview ends exactly when a priority answer and a category answer are acceptable; it sets the switches, the tags (kept on an empty answer, else the trimmed comma pieces), the first acceptable priority and category, keeps the checksum, resets the due layout, and takes a long due answer as the time layout |
| Config.ConfigureFixed | configuration.go:56-152 | corrected: the same interview, but each format answer sets its own layout |
| Config.ConfigureFixedDiffersInLayouts | configuration.go:87-107 | the as-written and corrected interviews end together and differ only in the two layouts |
| Config.AskRest | configuration.go:125-149 | the priority and category questions end exactly when both get an acceptable answer, take the first acceptable ones, and change nothing else |
| Printer.NewNotesPrinter | notes_printer.go:24-38 | header on, done notes skipped, done, created and title columns shown, width 30, colour, priority, due and time layout taken from the configuration |
| Printer.ColumnAt | notes_printer.go:60-79 | the columns have a fixed order, ID through UPDATED |
| Printer.RankInverse | notes_printer.go:60-79 | the column order is a bijection onto 0-6 |
| Printer.ColumnsFrom | notes_printer.go:60-79 | from a given position on, the shown columns in strictly increasing order, none missing |
| Printer.ColumnsStep | notes_printer.go:60-79 | one more position keeps the run increasing and complete |
| Printer.PrependIncreasing | notes_printer.go:60-79 | a column in front of later columns keeps the order increasing |
| Printer.Columns | notes_printer.go:60-79 | exactly the shown columns, in order, ID first and DONE or TITLE second |
| Printer.ColumnsStart | notes_printer.go:60-66 | ID always leads, followed by DONE when shown and TITLE otherwise |
| Printer.PriorityClass | notes_printer.go:134-150 | priorities 0-1 are green, 2-3 yellow, 4-5 red, anything higher uncoloured |
| Printer.PriorityColour | notes_printer.go:128-152 | no colour when colours are off, the priority's class otherwise |
| Printer.PriorityClassMonotone | notes_printer.go:134-150 | a higher priority never gets a lower class |
| Printer.HeaderCell | notes_printer.go:54-82 | cyan when colours are on; TITLE padded to the title width, every other label followed by a tab |
| Printer.Header | notes_printer.go:54-82 | one label per shown column, in column order |
| Printer.TitleText | notes_printer.go:97-105 | the title cell is exactly the title width, has no newline, starts with the preview (the whole first line when it fits, otherwise its first width - 3 characters and "..."), and is padded with spaces |
| Printer.RowCell | notes_printer.go:84-126 | each column prints its field: id, done marker, title, coloured priority, or due, created or updated time in the printer's layout |
| Printer.Row | notes_printer.go:84-126 | one cell per shown column, in column order, starting with the id |
| Printer.RowCells | notes_printer.go:84-126 | the cells follow the given columns one for one |
| Printer.RowMatchesHeader | notes_printer.go:40-126 | every row has the header's columns, in the same order |
| Printer.Listed | notes_printer.go:45-48 | all notes unless done ones are skipped, and then exactly the notes not done |
| Printer.ListedAppend | notes_printer.go:45-48 | listing keeps store order |
| Printer.ListedDependsOnSkip | notes_printer.go:45-48 | which notes are listed depends only on the skip-done switch |
| Printer.DoneNotesLeftOut | notes_printer.go:45-48 | with done notes skipped, a store of done notes lists nothing |
| Printer.Rows | notes_printer.go:44-51 | one row per listed note, in order |
| Printer.Print | notes_printer.go:40-52 | the header exactly when it is switched on, then the rows |
| Printer.DefaultPrinterListsOpenNotes | notes_printer.go:24-52 | the default printer lists exactly the open notes, one row each |
| Printer.FullNote | notes_printer.go:154-171 | the heading with the id, the priority only when priorities are on, the due time only when due dates are on, the created and updated times in the printer's layout, then the content between two rules |
| Printer.FullNoteShowsItsFields | notes_printer.go:154-171 | two notes look the same in full exactly when they agree on id, content, both times, and the priority and due date when shown |
| Session.CommandLettersAreLowerCase | gui.go:54-66 | the letters bound in the command view are exactly a to z |
| Session.NextIndex | gui.go:122-128 | moving down goes one further, back to the top after the last note |
| Session.PrevIndex | gui.go:130-136 | moving up goes one back, to the last note from the top |
| Session.MovesAreInverse | gui.go:122-136 | on a non-empty list both moves stay in range and undo each other |
| Session.MovesOnEmptyLeaveRange | gui.go:122-136 | on an empty list moving up gives index -1 |
| Session.PreviewPanel | gui.go:213-230 | id, priority when priorities are on, due when set and due dates are on, tags joined by ", " when present, created and updated, in that order, each line at its position |
| Session.PreviewPanelShowsItsFields | gui.go:213-230 | two notes give the same panel exactly when they agree on id, both times, the priority when shown, whether and which due date is shown, and whether and how the tags read joined |
| Session.Render | gui.go:182-245 | the redraw fails exactly on an out-of-range selection (unguarded); otherwise the command line shows the command, or the error once, and the preview shows the selected note |
| Session.Update | gui.go:182-245 | as written, the redraw crashes exactly when the selection is out of range |
| Session.UpdateGuarded | gui.go:182-245 | the corrected redraw never crashes |
| Session.UpdateGuardedAgrees | gui.go:182-245 | the corrected redraw agrees with the original wherever the original does not crash |
| Session.Execute | gui.go:147-171 | Enter on q or wq quits; any other non-empty command sets the invalid-command message; both return to the list view |
| Session.Transition | gui.go:36-79 | in the list view only j, k and ':' are bound, in the command view only Enter, Esc and a to z; the session ends exactly on Enter with q or wq after the ':'; with the guarded redraw only Enter on an empty command line crashes |
| Session.Step | gui.go:36-79 | a key handled with the original redraw, whenever it does not crash, has the effect it has with the guarded redraw |
| Session.StepGuarded | gui.go:36-79 | with the guarded redraw, no key in the list view or in a started command crashes |
| Session.Start | gui.go:26-93 | over a non-empty store the session starts redrawn in the list view on note 0 with an empty command and status line; over an empty store the first redraw crashes |
| Session.StartIsWellFormed | gui.go:26-93 | over a non-empty store the start is a well-formed redraw selecting note 0 |
| Session.StepPreservesWellFormed | gui.go:36-245 | from a well-formed state, no key crashes and every redraw is well formed |
| Session.ListViewKeys | gui.go:36-51 | j and k move the selection, ':' opens the command line, and every other key is unbound |
| Session.CommandViewKeys | gui.go:53-79 | Esc cancels the command and clears the command line; a character other than a to z is unbound |
| Session.InvalidCommandShownOnce | gui.go:237-242 | an unknown command's message appears on the next redraw and is gone on the one after |
| Session.EmptyCommandIsSilent | gui.go:160-163 | Enter on a bare ':' returns to the list view without a message |
| Session.StartCrashesOnEmpty | gui.go:196 | starting on an empty store crashes; the guarded redraw selects nothing instead |
| Session.Letters | gui.go:54-62 | a word becomes one key per character, in order |
| Session.TypingAppends | gui.go:54-62 | typing a lower-case word extends the command by that word and shows it |
| Session.TypeLetter | gui.go:55-59 | one letter is appended to the command and shown |
| Session.TypedCommand | gui.go:48-69 | ':' plus a word plus Enter acts as Enter on ":word" |
| Session.TypedQuitQuits | gui.go:150-155 | typing :q or :wq and Enter from the list view ends the session |
| Session.Run | gui.go:36-79 | no keys leave every key unbound, and one key is that key's step |
| Session.RunFrom | gui.go:36-79 | once a key has redrawn, the run's outcome is never "unbound" again |
| Session.LastCarried | gui.go:36-79 | the outcome carried into the key loop shows through only when no key of the run is bound |
| Session.QuitNeedsEnter | gui.go:48-79 | a run of keys ends the session only if Enter is among them |
| Session.RunFirst | gui.go:36-79 | a run continues from the first key's redraw, whose outcome stands while the later keys are unbound |
| Session.RunAppend | gui.go:36-79 | two runs of keys, the first neither quitting nor crashing, chain through the state the first settled in; the first's outcome stands when no key of the second is bound |
| Session.UnboundKeyIgnored | gui.go:36-79 | a trailing key that the settled state does not bind leaves the run's outcome, state included, unchanged |
| Session.MoveThenUnboundKeepsMove | gui.go:36-51 | on two or more notes, 'j' then the unbound 'x' leaves the session redrawn on the second note |
| Cli.GetNoteFromArg | main.go:13-21 | a note is found exactly when the argument parses and some note has that id; it is the first such note |
| Cli.HandleListArgs | main.go:23-49 | only the listing options change, and details are on exactly when "-la" is among the arguments |
| Cli.HandleListArgsFixed | main.go:23-49 | the same for the corrected `--prio` handling |
| Cli.LastPick | main.go:24-48 | the last argument position an option takes its value from, or none |
| Cli.ListArgsFollowLastFlag | main.go:24-48 | each option ends with the value after its last occurrence that has a value; "-la" anywhere turns details on |
| Cli.ListArgsDetails | main.go:45-47 | details are on exactly when "-la" occurs |
| Cli.ListArgsOrder | main.go:25-28 | the sort order is the comma-split value after the last `--order`/`-o` |
| Cli.ListArgsSearch | main.go:30-32 | the search text is the value after the last `--search`/`-s` |
| Cli.ListArgsTag | main.go:41-43 | the tag filter is the value after the last `--tag`/`-t` |
| Cli.ListArgsPrio | main.go:34-39 | the priority filter is the parser's value for the last `--prio`/`-p` argument taken |
| Cli.ValidPrioIgnored | main.go:34-39 | as written, `--prio 3` leaves the filter alone; corrected, it sets 3 |
| Cli.InvalidPrioStoresZero | main.go:34-39 | as written, `-p high` stores 0; corrected, it leaves the filter alone |
| Cli.FixedPrioTakesLastParsed | main.go:34-39 | corrected, the filter is the last priority that parsed |
| Cli.MissingMessage | main.go:133-136 | every too-few-arguments message starts with "Give note id", and is exactly that when the command needs only the id; the `due` message ends with the due layout |
| Cli.Enabled | main.go:183-184 | only `prio` and `due` can be switched off, and with priorities and due dates on every command is enabled |
| Cli.Lookup | main.go:153-160 | too few arguments give the command's message, an unknown id "Could not find note with id", and otherwise the first note with the id |
| Cli.Replace | main.go:157-163 | only the note at the given position changes |
| Cli.ClearNotes | main.go:96-108 | every note is removed and the counter kept |
| Cli.Fresh | main.go:82 | a new note is Go's zero note with the default priority |
| Cli.QuickAdd | main.go:68-77 | no words is the "Missing note content" error; otherwise the words joined by spaces are appended as a note with id max_id + 1, the counter is left as it was, and a save is asked for |
| Cli.AddWithEditor | main.go:79-93 | an editor error is reported; the edited text is appended as a note with id max_id + 1 (the counter left as it was), and a save asked for, exactly when the digest changed |
| Cli.CommandOf | main.go:66-342 | a word selects a case only if it is one of that case's spellings |
| Spellings.SpellingsSelect | main.go:66-342 | for every case, a word selects it exactly when the word is one of that case's spellings, so every listed spelling reaches its own case and nothing else does |
| Spellings.HelpSpellings | main.go:333-336 | both `h` and `help` select the help case |
| Spellings.RemoveTagSpellings | main.go:276-279 | both `rt` and `rtag` select the tag-removal case |
| Cli.OnNote | main.go:131-331 | a note command that fails changes nothing and asks for no save |
| Cli.OnStore | main.go:68-341 | the same for the commands on the whole store, dispatched to the as-written `AddNote`, `handleListArgs` and `Configure` |
| Cli.Command | main.go:63-344 | a word no case names is "Invalid command: " plus the word; failures change nothing |
| Cli.HandleArgs | main.go:51-345 | no arguments start the session; otherwise a failure changes nothing and an unknown word is "Invalid command" |
| Cli.CommandLine | main.go:63-64 | the first word selects the command and the rest are its arguments |
| Cli.QuickAddAppendsOneNote | main.go:68-77 | `qa` appends exactly one note with the next id and the joined words, and leaves the counter as it was |
| Cli.TooFewArgumentsRefused | main.go:153-155 | a note command with too few arguments gives that command's message and changes nothing |
| Cli.UnknownIdRefused | main.go:157-160 | a note command whose id matches no note is refused and changes nothing |
| Cli.DisabledCommandsAreUnknown | main.go:309-314 | `prio` with priorities off and `due` with due dates off are invalid commands |
| Cli.NamedNoteCommand | main.go:150-164 | a note command runs on the first note with the given id |
| Cli.StoreCommand | main.go:63-66 | a store command runs on the whole store |
| Cli.DoneMarksNamedNote | main.go:150-164 | `done` marks exactly the named note done and asks for a save; repeating it gives the same store |
| Cli.PrioSetsOrRefuses | main.go:180-200 | `prio` sets a priority of 0-5 on the named note and asks for a save; an unparsable or larger one is refused and changes nothing |
| Cli.RemoveDeletesNamedId | main.go:219-239 | `rm` deletes every note with the named id, keeps the others in order and asks for a save |
| Cli.TagAddsTag | main.go:256-274 | `tag` leaves the tag on the note and asks for a save exactly when it was new |
| Cli.UntagRemovesTag | main.go:276-294 | `rtag` leaves the note without the tag and asks for a save exactly when it had it |
| Cli.ClearTagsEmptiesTags | main.go:241-254 | `ctags` leaves the note without tags and asks for a save |
| Cli.TodoListsOpenNotes | main.go:120-128 | `todo` lists exactly the open notes, without the done column, with the options the as-written `handleListArgs` gives, and changes nothing |
| Cli.OpenNotesListed | notes_printer.go:40-52 | a printer that skips done notes and hides the done column lists exactly the open notes |
| Cli.NoDoneColumn | notes_printer.go:61-63 | with the done column off, no header label is DONE |
| Cli.ListListsAllNotes | main.go:110-117 | `list` prints one row per note, done or not, in store order, with the options the as-written `handleListArgs` gives, and changes nothing |
| Cli.AllNotesListed | notes_printer.go:45-51 | a printer that does not skip done notes prints every note in order |
| Cli.AddTakesEditedNote | main.go:79-93 | `add` appends the editor's text as a note with the next id, and asks for a save, exactly when the digest changed; the counter is left as it was |
| Cli.ClearNeedsConfirmation | main.go:96-108 | `clear` empties the store and asks for a save exactly when confirmed |
| Cli.TagsReportsUses | main.go:296-307 | `tags` reports every tag in use with its number of uses and changes nothing |
| Cli.HelpAndConfigKeepNotes | main.go:333-341 | `help` and `config` change no note and ask for no save; `config` runs the as-written interview, so a completed one resets the due layout and takes a long due answer as the time layout |
| Cli.ShowKeepsNotes | main.go:202-217 | `show` prints the named note in full and changes nothing |
| Cli.EditReplacesNamedNote | main.go:166-178 | `edit` stores the editor's text in the named note and asks for a save exactly when the digest changed |
| Cli.DueSetsOrRefuses | main.go:309-331 | `due` sets the due date read with the due layout, or refuses unreadable text |

## Left out

- Google Drive, OAuth, file and temporary-file I/O, JSON encoding and `SaveNotes`/`syncNotesFile` are not modelled. The downloaded document is a `Snapshot` parameter and the fetch a `Fetch` parameter.
- `Notes.Init`, `setUpDrive`, `Configuration.Init`, `Save`, `loadConfig` and `main` only wire these services together and are not modelled.
- Printing is modelled as data (cells, spans, a `Listing`). Colours are named, not rendered. Times are opaque `Time` values shown as `Stamp(time, layout)`, because Go's time formatting is outside the core.
- `Note.GetTitle`, `Note.OpenUrls` and `printHelp` are not part of this revision of the sources. They only produce messages or open a browser, so `urls` and `help` are modelled as changing nothing.
- The `Tags` field and the bodies of `Note.AddTag`, `Note.RemoveTag`, `Note.ClearTags` and `Notes.ClearNotes` are not part of this revision. They are reconstructed from their uses: add-if-absent, remove-every-copy, clear, and remove every note.
- `strconv.ParseUint` with base 0 (hex, octal, binary prefixes) is a parameter of type `UintParser`. Only its three outcomes are modelled: parsed, syntax error (value 0), range error (maximum value).
- Ids and priorities are unbounded naturals, so 64-bit `uint` wrap-around of `max_id + 1` is not modelled.
- Go's `len` counts bytes while the model counts characters, so multi-byte UTF-8 text is not modelled: the title cut of the preview, and the `len(format) > 1` tests of the time-format and due-format answers (a one-character answer such as "é" is two bytes, so Go takes it as the layout while Config.AnswerTimeFormat and Config.AnswerDueFormat restore the default).
- The question loops of `config` and `clear` retry until the terminal read succeeds. They are modelled as the recorded answers: `Answers`, and `confirmClear`.
- Cli.Output: a listing is described by the printer it is printed with (its rows are `Printer.Print` of the store), and `show` by the note it prints in full.
- Printer.TitleText requires a title width of at least 3, because a smaller width makes `preview[0:MaxTitleLength-3]` panic. Every printer the program builds has width 30.
- Session: only the key bindings are modelled, not gocui's views, layout and terminal drawing. `SaveModifications` is never set by the session, so `handleArgs` with no arguments is modelled as starting it.

## Findings

| source | as written | input that shows it | evidently intended | confidence | as-written member | corrected member |
|---|---|---|---|---|---|---|
| notes.go:254-259 | the cached copy is trusted when the checksums match and parsing it FAILS | matching checksums and no local file: the remote notes are never downloaded and the store stays empty | trust the cached copy only when it parses | high (not executed) | NoteStore.ReloadTrustsMissingCache | NoteStore.ReloadFixedNeverTrustsMissingCache |
| configuration.go:101-104 | a due-format answer is stored in `TimeFormat` and `DueFormat` is always reset | answer "2006-01-02" | store the answer in `DueFormat` | high (not executed) | Config.DueAnswerIsLost | Config.ConfigureFixed |
| main.go:35-38 | the priority filter is stored when parsing FAILS | `list --prio 3` ignores the 3; `list -p high` sets the priority filter to 0 (no printing code in this revision reads it) | store the filter when parsing succeeds | high (not executed) | Cli.InvalidPrioStoresZero | Cli.FixedPrioTakesLastParsed |
| notes.go:68-76 | `AddNote` never advances `max_id` | two `AddNote` calls on one collection both get id max_id + 1 (the command line adds at most one note per run and re-reads the counter from the document, so it does not reach this today) | advance `max_id` to the new id | medium (not executed) | NoteStore.AddNoteTwiceRepeatsId | NoteStore.AddNoteFixedKeepsIdsUnique |
| gui.go:196 | the redraw indexes the notes with the selection unconditionally | starting the session on an empty store | draw an empty list when there is nothing to select | high (not executed) | Session.StartCrashesOnEmpty | Session.UpdateGuardedAgrees |
