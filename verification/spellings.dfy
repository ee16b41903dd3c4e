/** The converse of `Cli.CommandOf`'s contract: every spelling the switch of
    `handleArgs` lists selects its own case, so a word selects a case exactly
    when it is one of that case's spellings. */
module Spellings {
  import opened Wrappers
  import opened Cli

  /** A word selects `cmd` exactly when it is one of `cmd`'s spellings. */
  lemma SpellingsSelect(cmd: Cmd)
    ensures forall w :: CommandOf(w) == Some(cmd) <==> w in Names(cmd)
  {
    match cmd
    case QuickAddCmd => QuickAddSpellings();
    case AddCmd => AddSpellings();
    case ClearCmd => ClearSpellings();
    case ListCmd => ListSpellings();
    case TodoCmd => TodoSpellings();
    case UrlsCmd => UrlsSpellings();
    case DoneCmd => DoneSpellings();
    case EditCmd => EditSpellings();
    case PrioCmd => PrioSpellings();
    case ShowCmd => ShowSpellings();
    case RemoveCmd => RemoveSpellings();
    case ClearTagsCmd => ClearTagsSpellings();
    case TagCmd => TagSpellings();
    case RemoveTagCmd => RemoveTagSpellings();
    case TagsCmd => TagsSpellings();
    case DueCmd => DueSpellings();
    case HelpCmd => HelpSpellings();
    case ConfigCmd => ConfigSpellings();
  }

  lemma QuickAddSpellings()
    ensures CommandOf("qa") == Some(QuickAddCmd)
  {
  }

  lemma AddSpellings()
    ensures CommandOf("a") == Some(AddCmd) && CommandOf("add") == Some(AddCmd)
  {
  }

  lemma ClearSpellings()
    ensures CommandOf("clear") == Some(ClearCmd)
  {
  }

  lemma ListSpellings()
    ensures CommandOf("list") == Some(ListCmd) && CommandOf("ls") == Some(ListCmd)
  {
  }

  lemma TodoSpellings()
    ensures CommandOf("td") == Some(TodoCmd) && CommandOf("todo") == Some(TodoCmd)
  {
  }

  lemma UrlsSpellings()
    ensures CommandOf("urls") == Some(UrlsCmd) && CommandOf("u") == Some(UrlsCmd)
  {
  }

  lemma DoneSpellings()
    ensures CommandOf("done") == Some(DoneCmd) && CommandOf("md") == Some(DoneCmd)
  {
  }

  lemma EditSpellings()
    ensures CommandOf("e") == Some(EditCmd) && CommandOf("edit") == Some(EditCmd)
  {
  }

  lemma PrioSpellings()
    ensures CommandOf("p") == Some(PrioCmd) && CommandOf("prio") == Some(PrioCmd)
  {
  }

  lemma ShowSpellings()
    ensures CommandOf("s") == Some(ShowCmd) && CommandOf("show") == Some(ShowCmd)
  {
  }

  lemma RemoveSpellings()
    ensures CommandOf("rm") == Some(RemoveCmd) && CommandOf("remove") == Some(RemoveCmd)
  {
  }

  lemma ClearTagsSpellings()
    ensures CommandOf("ct") == Some(ClearTagsCmd) && CommandOf("ctags") == Some(ClearTagsCmd)
  {
  }

  lemma TagSpellings()
    ensures CommandOf("t") == Some(TagCmd) && CommandOf("tag") == Some(TagCmd)
  {
  }

  lemma RemoveTagSpellings()
    ensures CommandOf("rt") == Some(RemoveTagCmd) && CommandOf("rtag") == Some(RemoveTagCmd)
  {
  }

  lemma TagsSpellings()
    ensures CommandOf("tags") == Some(TagsCmd)
  {
  }

  lemma DueSpellings()
    ensures CommandOf("d") == Some(DueCmd) && CommandOf("due") == Some(DueCmd)
  {
  }

  lemma HelpSpellings()
    ensures CommandOf("h") == Some(HelpCmd) && CommandOf("help") == Some(HelpCmd)
  {
  }

  lemma ConfigSpellings()
    ensures CommandOf("config") == Some(ConfigCmd)
  {
  }
}
