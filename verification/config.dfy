/** The configuration record (configuration.go): its defaults and how each
    answer of the interactive `config` interview becomes a setting or a
    repeated question. */
module Config {
  import opened Wrappers
  import opened Text

  datatype Configuration = Configuration(
    md5Checksum: string,
    timeFormat: string,
    dueFormat: string,
    color: bool,
    usePriority: bool,
    useDue: bool,
    defaultTags: seq<string>,
    defaultPriority: nat,
    defaultCategory: string)

  const DefaultTimeFormat: string := "02.01.2006 15:04"
  const DefaultDueFormat: string := "02.01.2006"
  const DefaultPriority: nat := 3
  const MaxPriority: nat := 5

  /** `NewConfiguration`: the settings a fresh installation starts from; the
      fields it does not name keep Go's zero values. */
  function NewConfiguration(): (c: Configuration)
    ensures c.timeFormat == DefaultTimeFormat
    ensures c.usePriority && c.color && c.useDue
    ensures c.defaultPriority == 3 && c.defaultCategory == ""
    ensures c.dueFormat == "" && c.defaultTags == [] && c.md5Checksum == ""
  {
    Configuration("", DefaultTimeFormat, "", true, true, true, [], DefaultPriority, "")
  }

  /** The settings every completed interview leaves: a priority in 0-5 and
      one of the three known categories. */
  predicate Sane(c: Configuration) {
    c.defaultPriority <= MaxPriority && c.defaultCategory in {"", "prio", "due"}
  }

  lemma NewConfigurationIsSane()
    ensures Sane(NewConfiguration())
  {
  }

  // ---------------------------------------------------------------------------
  // One answer each
  // ---------------------------------------------------------------------------

  /** The time-format question: an answer of more than one character is the
      new layout, anything shorter restores the default. */
  function AnswerTimeFormat(c: Configuration, answer: string): (r: Configuration)
    ensures r == c.(timeFormat := r.timeFormat)
    ensures |answer| > 1 ==> r.timeFormat == answer
    ensures |answer| <= 1 ==> r.timeFormat == DefaultTimeFormat
  {
    c.(timeFormat := if |answer| > 1 then answer else DefaultTimeFormat)
  }

  /** The due-format question as written: the due layout is always reset to
      its default, and an answer of more than one character is stored as the
      TIME layout instead. */
  function AnswerDueFormat(c: Configuration, answer: string): (r: Configuration)
    ensures r.dueFormat == DefaultDueFormat
    ensures |answer| > 1 ==> r == c.(dueFormat := DefaultDueFormat, timeFormat := answer)
    ensures |answer| <= 1 ==> r == c.(dueFormat := DefaultDueFormat)
  {
    var r := c.(dueFormat := DefaultDueFormat);
    if |answer| > 1 then r.(timeFormat := answer) else r
  }

  /** What the code does to a custom due layout: "2006-01-02" never reaches
      the due format and replaces the time format. */
  lemma DueAnswerIsLost(c: Configuration)
    ensures AnswerDueFormat(c, "2006-01-02").dueFormat != "2006-01-02"
    ensures AnswerDueFormat(c, "2006-01-02").timeFormat == "2006-01-02"
  {
  }

  /** The due-format question as the prompt describes it: a longer answer is
      the due layout, anything shorter the default, and nothing else moves. */
  function AnswerDueFormatFixed(c: Configuration, answer: string): (r: Configuration)
    ensures r == c.(dueFormat := r.dueFormat)
    ensures |answer| > 1 ==> r.dueFormat == answer
    ensures |answer| <= 1 ==> r.dueFormat == DefaultDueFormat
  {
    c.(dueFormat := if |answer| > 1 then answer else DefaultDueFormat)
  }

  /** The time and due questions, answered in turn with the corrected due
      rule, each set their own layout. */
  lemma FixedFormatAnswersAreIndependent(c: Configuration, time: string, due: string)
    requires |time| > 1 && |due| > 1
    ensures var r := AnswerDueFormatFixed(AnswerTimeFormat(c, time), due);
            r.timeFormat == time && r.dueFormat == due
  {
  }

  /** Each comma-separated piece of `s`, trimmed of spaces, in order. */
  function TrimAll(pieces: seq<string>): (r: seq<string>)
    ensures |r| == |pieces|
    ensures forall i :: 0 <= i < |r| ==> r[i] == Trim(pieces[i])
  {
    seq(|pieces|, i requires 0 <= i < |pieces| => Trim(pieces[i]))
  }

  /** The default-tags question: an empty answer keeps the list, any other
      answer replaces it with its comma-separated pieces, each trimmed. */
  function AnswerDefaultTags(c: Configuration, answer: string): (r: Configuration)
    ensures r == c.(defaultTags := r.defaultTags)
    ensures answer == "" ==> r == c
    ensures answer != "" ==> |r.defaultTags| == |Split(answer, ',')|
    ensures answer != "" ==> forall i :: 0 <= i < |r.defaultTags| ==>
              r.defaultTags[i] == Trim(Split(answer, ',')[i])
    ensures forall i :: 0 <= i < |r.defaultTags| && answer != "" ==>
              ',' !in r.defaultTags[i] && (r.defaultTags[i] == [] || r.defaultTags[i][0] != ' ')
  {
    if answer == "" then c
    else
      c.(defaultTags := TrimAll(Split(answer, ',')))
  }

  /** Tags written without spaces around the commas come back exactly. */
  lemma PlainTagAnswerRoundTrip(c: Configuration, tags: seq<string>)
    requires |tags| >= 1 && Join(tags, ",") != ""
    requires forall i :: 0 <= i < |tags| ==> ',' !in tags[i]
    requires forall i :: 0 <= i < |tags| ==> tags[i] == [] || (tags[i][0] != ' ' && tags[i][|tags[i]| - 1] != ' ')
    ensures AnswerDefaultTags(c, Join(tags, ",")).defaultTags == tags
  {
    SplitJoin(tags, ',');
  }

  /** Whether the default-priority question takes `answer`. */
  predicate PriorityAccepted(answer: string) {
    answer == "" || (AllDigits(answer) && DigitsValue(answer) <= MaxPriority)
  }

  /** The default-priority question: `None` means the question is asked
      again. An empty answer gives 3; a decimal number up to 5 is taken. */
  function AnswerDefaultPriority(c: Configuration, answer: string): (r: Option<Configuration>)
    ensures answer == "" ==> r == Some(c.(defaultPriority := DefaultPriority))
    ensures r.Some? <==> PriorityAccepted(answer)
    ensures r.Some? ==> r.value == c.(defaultPriority := r.value.defaultPriority)
    ensures r.Some? ==> r.value.defaultPriority <= MaxPriority
    ensures r.Some? && answer != "" ==> r.value.defaultPriority == DigitsValue(answer)
  {
    if answer == "" then Some(c.(defaultPriority := DefaultPriority))
    else
      match ParseUint10(answer, 64)
      case Some(i) =>
        if i <= MaxPriority then Some(c.(defaultPriority := i)) else None
      case None => None
  }

  /** Every priority the prompt offers is accepted as typed. */
  lemma EveryOfferedPriorityAccepted(c: Configuration, p: nat)
    requires p <= MaxPriority
    ensures AnswerDefaultPriority(c, Decimal(p)) == Some(c.(defaultPriority := p))
  {
    ParseDecimalRoundTrip(p, 64);
    assert p < Pow2(64) by {
      assert Pow2(3) == 8;
      PowMonotone(3, 64);
    }
  }

  lemma {:induction false} PowMonotone(a: nat, b: nat)
    requires a <= b
    ensures Pow2(a) <= Pow2(b)
    decreases b - a
  {
    if a < b {
      PowMonotone(a, b - 1);
    }
  }

  /** The category question: only "", "prio" and "due" are taken; `None`
      means the question is asked again. */
  function AnswerCategory(c: Configuration, answer: string): (r: Option<Configuration>)
    ensures r.Some? <==> answer in {"", "prio", "due"}
    ensures r.Some? ==> r.value == c.(defaultCategory := answer)
  {
    if |answer| == 0 || answer == "prio" || answer == "due" then Some(c.(defaultCategory := answer))
    else None
  }

  // ---------------------------------------------------------------------------
  // The whole interview
  // ---------------------------------------------------------------------------

  /** Whether answer `i` is the first one the priority question takes. */
  predicate FirstPriority(answers: seq<string>, i: int) {
    0 <= i < |answers| && PriorityAccepted(answers[i])
    && forall j :: 0 <= j < i ==> !PriorityAccepted(answers[j])
  }

  /** Whether answer `i` is the first one the category question takes. */
  predicate FirstCategory(answers: seq<string>, i: int) {
    0 <= i < |answers| && answers[i] in {"", "prio", "due"}
    && forall j :: 0 <= j < i ==> answers[j] !in {"", "prio", "due"}
  }

  /** The priority an accepted answer stands for. */
  function PriorityOf(answer: string): nat
    requires PriorityAccepted(answer)
  {
    if answer == "" then DefaultPriority else DigitsValue(answer)
  }

  /** The priority question asked until an answer is taken: the setting is
      the FIRST acceptable answer's; `None` if it would still be asking after
      all of them. */
  function AskPriority(c: Configuration, answers: seq<string>): (r: Option<Configuration>)
    ensures r.Some? <==> exists i :: 0 <= i < |answers| && PriorityAccepted(answers[i])
    ensures r.Some? ==> r.value.defaultPriority <= MaxPriority
    ensures r.Some? ==> r.value == c.(defaultPriority := r.value.defaultPriority)
    ensures r.Some? ==> exists i :: FirstPriority(answers, i) && r == AnswerDefaultPriority(c, answers[i])
                                    && r.value.defaultPriority == PriorityOf(answers[i])
  {
    if answers == [] then None
    else
      match AnswerDefaultPriority(c, answers[0])
      case Some(c') =>
        assert FirstPriority(answers, 0);
        Some(c')
      case None =>
        var r := AskPriority(c, answers[1..]);
        assert r.Some? ==> exists i :: FirstPriority(answers, i) && r == AnswerDefaultPriority(c, answers[i])
                                       && r.value.defaultPriority == PriorityOf(answers[i]) by {
          if r.Some? {
            var i :| FirstPriority(answers[1..], i) && r == AnswerDefaultPriority(c, answers[1..][i])
                     && r.value.defaultPriority == PriorityOf(answers[1..][i]);
            FirstPriorityShift(answers, i);
          }
        }
        r
  }

  /** A refused first answer moves the first taken one back by one. */
  lemma FirstPriorityShift(answers: seq<string>, i: int)
    requires answers != [] && !PriorityAccepted(answers[0]) && FirstPriority(answers[1..], i)
    ensures FirstPriority(answers, i + 1) && answers[i + 1] == answers[1..][i]
  {
    forall j | 0 <= j < i + 1 ensures !PriorityAccepted(answers[j]) {
      if j > 0 { assert answers[j] == answers[1..][j - 1]; }
    }
  }

  /** The category question asked until an answer is taken: the setting is
      the FIRST acceptable answer. */
  function AskCategory(c: Configuration, answers: seq<string>): (r: Option<Configuration>)
    ensures r.Some? <==> exists i :: 0 <= i < |answers| && answers[i] in {"", "prio", "due"}
    ensures r.Some? ==> r.value.defaultCategory in {"", "prio", "due"}
    ensures r.Some? ==> r.value == c.(defaultCategory := r.value.defaultCategory)
    ensures r.Some? ==> exists i :: FirstCategory(answers, i) && r.value.defaultCategory == answers[i]
  {
    if answers == [] then None
    else
      match AnswerCategory(c, answers[0])
      case Some(c') =>
        assert FirstCategory(answers, 0);
        Some(c')
      case None =>
        var r := AskCategory(c, answers[1..]);
        assert r.Some? ==> exists i :: FirstCategory(answers, i) && r.value.defaultCategory == answers[i] by {
          if r.Some? {
            var i :| FirstCategory(answers[1..], i) && r.value.defaultCategory == answers[1..][i];
            assert FirstCategory(answers, i + 1) by {
              forall j | 0 <= j < i + 1 ensures answers[j] !in {"", "prio", "due"} {
                if j > 0 { assert answers[j] == answers[1..][j - 1]; }
              }
            }
          }
        }
        r
  }

  /** The answers of one `config` run. The yes/no questions and the free-text
      questions are retried by the program until their prompt helper reports
      no error; only the answers that got through are recorded. */
  datatype Answers = Answers(
    color: bool,
    useDue: bool,
    usePriority: bool,
    timeFormat: string,
    dueFormat: string,
    tags: string,
    priorities: seq<string>,
    categories: seq<string>)

  /** What every completed interview sets the same way, whichever due rule
      it uses: the switches, the tags, and the first acceptable priority and
      category. */
  predicate Interviewed(c: Configuration, a: Answers, r: Configuration) {
    && Sane(r)
    && r.color == a.color && r.useDue == a.useDue && r.usePriority == a.usePriority
    && r.md5Checksum == c.md5Checksum
    && (a.tags == "" ==> r.defaultTags == c.defaultTags)
    && (a.tags != "" ==> r.defaultTags == TrimAll(Split(a.tags, ',')))
    && (exists i :: 0 <= i < |a.priorities| && FirstPriority(a.priorities, i) && r.defaultPriority == PriorityOf(a.priorities[i]))
    && (exists i :: 0 <= i < |a.categories| && FirstCategory(a.categories, i) && r.defaultCategory == a.categories[i])
  }

  /** Whether the interview ends: both retried questions get an acceptable
      answer. */
  predicate Completes(a: Answers) {
    && (exists i :: 0 <= i < |a.priorities| && PriorityAccepted(a.priorities[i]))
    && (exists i :: 0 <= i < |a.categories| && a.categories[i] in {"", "prio", "due"})
  }

  /** The priority and category questions, in program order, after the
      format and tag answers left `c4`. */
  function AskRest(c4: Configuration, a: Answers): (r: Option<Configuration>)
    ensures r.Some? <==> Completes(a)
    ensures r.Some? ==> r.value.(defaultPriority := c4.defaultPriority, defaultCategory := c4.defaultCategory) == c4
    ensures r.Some? ==> Sane(r.value)
    ensures r.Some? ==> (exists i :: FirstPriority(a.priorities, i) && r.value.defaultPriority == PriorityOf(a.priorities[i]))
    ensures r.Some? ==> (exists i :: FirstCategory(a.categories, i) && r.value.defaultCategory == a.categories[i])
  {
    match AskPriority(c4, a.priorities)
    case None => None
    case Some(c5) => AskCategory(c5, a.categories)
  }

  /** `Configuration.Configure` as written, questions in program order;
      `None` when the priority or category question would still be waiting
      for an acceptable answer. The due-format answer goes through
      `AnswerDueFormat`: a long answer replaces the TIME layout and the due
      layout is always reset. Saving the result to disk is not modelled. */
  function Configure(c: Configuration, a: Answers): (r: Option<Configuration>)
    ensures r.Some? <==> Completes(a)
    ensures r.Some? ==> Interviewed(c, a, r.value)
    ensures r.Some? ==> r.value.timeFormat == if |a.dueFormat| > 1 then a.dueFormat
                                             else if |a.timeFormat| > 1 then a.timeFormat
                                             else DefaultTimeFormat
    ensures r.Some? ==> r.value.dueFormat == DefaultDueFormat
  {
    var c1 := c.(color := a.color, useDue := a.useDue, usePriority := a.usePriority);
    var c2 := AnswerTimeFormat(c1, a.timeFormat);
    var c3 := AnswerDueFormat(c2, a.dueFormat);
    var c4 := AnswerDefaultTags(c3, a.tags);
    AskRest(c4, a)
  }

  /** The interview with the corrected due rule `AnswerDueFormatFixed`: each
      format answer sets its own layout. */
  function ConfigureFixed(c: Configuration, a: Answers): (r: Option<Configuration>)
    ensures r.Some? <==> Completes(a)
    ensures r.Some? ==> Interviewed(c, a, r.value)
    ensures r.Some? ==> r.value.timeFormat == if |a.timeFormat| > 1 then a.timeFormat else DefaultTimeFormat
    ensures r.Some? ==> r.value.dueFormat == if |a.dueFormat| > 1 then a.dueFormat else DefaultDueFormat
  {
    var c1 := c.(color := a.color, useDue := a.useDue, usePriority := a.usePriority);
    var c2 := AnswerTimeFormat(c1, a.timeFormat);
    var c3 := AnswerDueFormatFixed(c2, a.dueFormat);
    var c4 := AnswerDefaultTags(c3, a.tags);
    AskRest(c4, a)
  }

  /** The two interviews differ only in the two layouts. */
  lemma ConfigureFixedDiffersInLayouts(c: Configuration, a: Answers)
    ensures Configure(c, a).Some? <==> ConfigureFixed(c, a).Some?
    ensures Configure(c, a).Some? ==>
              Configure(c, a).value.(timeFormat := "", dueFormat := "")
              == ConfigureFixed(c, a).value.(timeFormat := "", dueFormat := "")
  {
  }
}
