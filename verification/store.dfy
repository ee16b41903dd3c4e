/** The in-memory note collection (notes.go): adding, finding, deleting and
    counting tags, the `max_id` rule applied after a parse, and the branch
    logic of the checksum-gated reload. */
module NoteStore {
  import opened Wrappers
  import opened NoteRecord

  /** The `Notes` value: the ordered notes and the `max_id` counter. The Drive
      service, the file handle and the configuration pointer are left out. */
  datatype Store = Store(notes: seq<Note>, maxId: nat)

  const EmptyStore: Store := Store([], 0)

  /** No two notes share an id, and `maxId` is at least every id. */
  ghost predicate Valid(s: Store) {
    && (forall i, j :: 0 <= i < j < |s.notes| ==> s.notes[i].id != s.notes[j].id)
    && (forall i :: 0 <= i < |s.notes| ==> s.notes[i].id <= s.maxId)
  }

  // ---------------------------------------------------------------------------
  // AddNote
  // ---------------------------------------------------------------------------

  /** The note after `AddTag` has been applied for each default tag, in
      order: distinct defaults the note lacks are appended in config order. */
  function WithTags(n: Note, defaults: seq<string>): (r: Note)
    ensures n.tags <= r.tags
    ensures forall t :: t in defaults ==> t in r.tags
    ensures forall t :: t in r.tags ==> t in n.tags || t in defaults
    ensures r == n.(tags := r.tags)
    ensures NewDefaults(n.tags, defaults) ==> r.tags == n.tags + defaults
    decreases |defaults|
  {
    if defaults == [] then n
    else
      var m := AddTag(n, defaults[0]).1;
      assert NewDefaults(n.tags, defaults) ==>
               NewDefaults(m.tags, defaults[1..]) && m.tags + defaults[1..] == n.tags + defaults by {
        if NewDefaults(n.tags, defaults) {
          NewDefaultsStep(n.tags, defaults);
        }
      }
      WithTags(m, defaults[1..])
  }

  /** Default tags that are pairwise distinct and none of which is in `tags`. */
  predicate NewDefaults(tags: seq<string>, defaults: seq<string>) {
    && (forall i, j :: 0 <= i < j < |defaults| ==> defaults[i] != defaults[j])
    && (forall t :: t in defaults ==> t !in tags)
  }

  /** After the first new default is appended, the rest are still new, and
      appending them gives the whole list appended. */
  lemma NewDefaultsStep(tags: seq<string>, defaults: seq<string>)
    requires defaults != [] && NewDefaults(tags, defaults)
    ensures NewDefaults(tags + [defaults[0]], defaults[1..])
    ensures tags + [defaults[0]] + defaults[1..] == tags + defaults
  {
    forall t | t in defaults[1..] ensures t !in tags + [defaults[0]] {
      var k :| 0 <= k < |defaults[1..]| && defaults[1..][k] == t;
      assert defaults[k + 1] == t;
    }
    assert defaults == [defaults[0]] + defaults[1..];
  }

  /** What `AddNote` hands back: the id it assigned and the store after it. */
  datatype Added = Added(id: nat, store: Store)

  /** `Notes.AddNote` as written: the note gets id `max_id + 1` and the default
      tags, and is appended; `max_id` itself is left as it was. */
  function AddNote(s: Store, n: Note, defaults: seq<string>): (r: Added)
    ensures r.id == s.maxId + 1
    ensures |r.store.notes| == |s.notes| + 1
    ensures r.store.notes[..|s.notes|] == s.notes
    ensures r.store.notes[|s.notes|] == WithTags(n, defaults).(id := r.id)
    ensures r.store.maxId == s.maxId
  {
    var added := WithTags(n, defaults).(id := s.maxId + 1);
    assert (s.notes + [added])[..|s.notes|] == s.notes;
    Added(s.maxId + 1, Store(s.notes + [added], s.maxId))
  }

  /** Because `AddNote` leaves `max_id` alone, two consecutive calls hand out
      the same id, and the store then holds two notes with that id. */
  lemma AddNoteTwiceRepeatsId(s: Store, a: Note, b: Note, defaults: seq<string>)
    ensures var first := AddNote(s, a, defaults);
            var second := AddNote(first.store, b, defaults);
            && second.id == first.id
            && second.store.notes[|s.notes|].id == second.store.notes[|s.notes| + 1].id
            && !Valid(second.store)
  {
    var first := AddNote(s, a, defaults);
    var second := AddNote(first.store, b, defaults);
    assert second.store.notes[|s.notes|] == first.store.notes[|s.notes|];
  }

  /** `AddNote` with the counter advanced to the id it hands out, as the
      comment-free intent of the code (and every caller's use of the id)
      requires. */
  function AddNoteFixed(s: Store, n: Note, defaults: seq<string>): (r: Added)
    ensures r.id == s.maxId + 1
    ensures r.store.notes == s.notes + [WithTags(n, defaults).(id := r.id)]
    ensures r.store.maxId == r.id
  {
    var added := WithTags(n, defaults).(id := s.maxId + 1);
    Added(s.maxId + 1, Store(s.notes + [added], s.maxId + 1))
  }

  /** Both versions hand out the same id and leave the same notes; they
      differ only in the counter. */
  lemma AddNoteFixedSameNotes(s: Store, n: Note, defaults: seq<string>)
    ensures AddNoteFixed(s, n, defaults).id == AddNote(s, n, defaults).id
    ensures AddNoteFixed(s, n, defaults).store.notes == AddNote(s, n, defaults).store.notes
    ensures AddNoteFixed(s, n, defaults).store.maxId == AddNote(s, n, defaults).store.maxId + 1
  {
    var a := AddNote(s, n, defaults).store.notes;
    assert a == a[..|s.notes|] + [a[|s.notes|]];
  }

  /** FindNote looks at ids only: two runs of notes with the same ids, one
      for one, give the same answer. */
  lemma FindNoteSameIds(a: seq<Note>, b: seq<Note>, id: nat)
    requires |a| == |b| && forall i :: 0 <= i < |a| ==> a[i].id == b[i].id
    ensures FindNote(a, id) == FindNote(b, id)
  {
  }

  /** The corrected `AddNote` keeps ids distinct and hands out an id above
      every id already held. */
  lemma AddNoteFixedKeepsIdsUnique(s: Store, n: Note, defaults: seq<string>)
    requires Valid(s)
    ensures var r := AddNoteFixed(s, n, defaults);
            && Valid(r.store)
            && forall i :: 0 <= i < |s.notes| ==> s.notes[i].id < r.id
  {
    var r := AddNoteFixed(s, n, defaults);
    forall i, j | 0 <= i < j < |r.store.notes|
      ensures r.store.notes[i].id != r.store.notes[j].id
    {
      if j == |s.notes| {
        assert r.store.notes[i] == s.notes[i];
      } else {
        assert r.store.notes[i] == s.notes[i] && r.store.notes[j] == s.notes[j];
      }
    }
  }

  /** Any run of corrected adds on a valid store leaves it valid, and the ids
      handed out strictly increase. */
  lemma {:induction false} AddNotesFixedKeepIdsUnique(s: Store, ns: seq<Note>, defaults: seq<string>)
    requires Valid(s)
    ensures Valid(AddAllFixed(s, ns, defaults))
    ensures AddAllFixed(s, ns, defaults).maxId == s.maxId + |ns|
    decreases |ns|
  {
    if ns != [] {
      AddNoteFixedKeepsIdsUnique(s, ns[0], defaults);
      AddNotesFixedKeepIdsUnique(AddNoteFixed(s, ns[0], defaults).store, ns[1..], defaults);
    }
  }

  /** The store after adding each of `ns` in turn with the corrected add. */
  function AddAllFixed(s: Store, ns: seq<Note>, defaults: seq<string>): Store
    decreases |ns|
  {
    if ns == [] then s else AddAllFixed(AddNoteFixed(s, ns[0], defaults).store, ns[1..], defaults)
  }

  // ---------------------------------------------------------------------------
  // FindNote and GetMaxId
  // ---------------------------------------------------------------------------

  /** `Notes.FindNote`: the position of the first note with `id`, or `None`
      (Go's nil) when no note has it. The position stands for the pointer the
      Go code returns. */
  function FindNote(notes: seq<Note>, id: nat): (r: Option<nat>)
    ensures r.None? <==> forall i :: 0 <= i < |notes| ==> notes[i].id != id
    ensures r.Some? ==> r.value < |notes| && notes[r.value].id == id
    ensures r.Some? ==> forall j :: 0 <= j < r.value ==> notes[j].id != id
  {
    if notes == [] then None
    else if notes[0].id == id then Some(0)
    else
      match FindNote(notes[1..], id)
      case None => None
      case Some(k) => Some(k + 1)
  }

  /** `Notes.GetMaxId`: the largest id, 0 for an empty store. */
  function GetMaxId(notes: seq<Note>): (r: nat)
    ensures forall i :: 0 <= i < |notes| ==> notes[i].id <= r
    ensures notes == [] ==> r == 0
    ensures r == 0 || exists i :: 0 <= i < |notes| && notes[i].id == r
  {
    if notes == [] then 0
    else
      var rest := GetMaxId(notes[1..]);
      if notes[0].id > rest then notes[0].id else rest
  }

  // ---------------------------------------------------------------------------
  // DeleteNote
  // ---------------------------------------------------------------------------

  /** The notes whose id is not `id`, in their original order. */
  function WithoutId(notes: seq<Note>, id: nat): (r: seq<Note>)
    ensures |r| <= |notes|
    ensures forall i :: 0 <= i < |r| ==> r[i].id != id
    ensures (forall i :: 0 <= i < |notes| ==> notes[i].id != id) ==> r == notes
  {
    if notes == [] then []
    else (if notes[0].id == id then [] else [notes[0]]) + WithoutId(notes[1..], id)
  }

  /** A note survives removal by id exactly when it was there and has
      another id. */
  lemma {:induction false} WithoutIdKeepsOthers(notes: seq<Note>, id: nat, n: Note)
    ensures n in WithoutId(notes, id) <==> n in notes && n.id != id
  {
    if notes != [] {
      WithoutIdKeepsOthers(notes[1..], id, n);
      assert notes == [notes[0]] + notes[1..];
    }
  }

  /** Removing by id commutes with concatenation: the survivors keep their
      relative order. */
  lemma {:induction false} WithoutIdAppend(a: seq<Note>, b: seq<Note>, id: nat)
    ensures WithoutId(a + b, id) == WithoutId(a, id) + WithoutId(b, id)
  {
    if a == [] {
      assert a + b == b;
    } else {
      var head := if a[0].id == id then [] else [a[0]];
      assert WithoutId(a + b, id) == head + WithoutId(a[1..] + b, id) by {
        assert (a + b)[0] == a[0];
        assert (a + b)[1..] == a[1..] + b;
      }
      WithoutIdAppend(a[1..], b, id);
      AppendAssoc(head, WithoutId(a[1..], id), WithoutId(b, id));
    }
  }

  lemma AppendAssoc<T>(a: seq<T>, b: seq<T>, c: seq<T>)
    ensures a + (b + c) == (a + b) + c
  {
  }

  const NotFoundMessage: string := "Could not find note with given id"

  /** `Notes.DeleteNote`: removes every note with `id`, keeping the order of
      the rest; fails, changing nothing, when no note has that id. */
  function DeleteNote(s: Store, id: nat): (r: Result<Store>)
    ensures r.Err? <==> forall i :: 0 <= i < |s.notes| ==> s.notes[i].id != id
    ensures r.Err? ==> r.msg == NotFoundMessage
    ensures r.Ok? ==> r.value == Store(WithoutId(s.notes, id), s.maxId)
    ensures r.Ok? ==> |r.value.notes| < |s.notes|
  {
    if FindNote(s.notes, id).None? then Err(NotFoundMessage)
    else
      CountWithoutId(s.notes, id, FindNote(s.notes, id).value);
      Ok(Store(WithoutId(s.notes, id), s.maxId))
  }

  lemma {:induction false} CountWithoutId(notes: seq<Note>, id: nat, k: nat)
    requires k < |notes| && notes[k].id == id
    ensures |WithoutId(notes, id)| < |notes|
  {
    if k > 0 {
      CountWithoutId(notes[1..], id, k - 1);
    }
  }

  /** The loop of `Notes.DeleteNote` itself: it walks the slice, cutting out
      each match and stepping back, and reports whether anything matched. It
      computes what `DeleteNote` states. */
  method DeleteNoteLoop(s: Store, id: nat) returns (r: Result<Store>)
    ensures r == DeleteNote(s, id)
  {
    var notes := s.notes;
    var found := false;
    var i: nat := 0;
    ghost var k: nat := 0;
    while i < |notes|
      invariant DeleteShape(s.notes, id, k, notes, i, found)
      decreases |s.notes| - k
    {
      notes, i, found := DeleteTurn(s.notes, id, k, notes, i, found);
      k := k + 1;
    }
    DeleteLoopEnd(s, id, k, notes, i, found);
    if !found {
      r := Err(NotFoundMessage);
    } else {
      r := Ok(Store(notes, s.maxId));
    }
  }

  /** The state of `DeleteNoteLoop` after the first `k` notes of `all` were
      looked at: the `i` survivors among them, then the notes not yet looked
      at; `found` records whether anything was cut out. */
  ghost predicate DeleteShape(all: seq<Note>, id: nat, k: nat, notes: seq<Note>, i: nat, found: bool) {
    && k <= |all|
    && i == |WithoutId(all[..k], id)|
    && notes == WithoutId(all[..k], id) + all[k..]
    && (found <==> i < k)
  }

  /** One turn of the loop in `DeleteNoteLoop`: a note with the id is cut
      out and the cursor stays, any other note is stepped over. */
  method DeleteTurn(ghost all: seq<Note>, id: nat, ghost k: nat, notes: seq<Note>, i: nat, found: bool)
      returns (notes': seq<Note>, i': nat, found': bool)
    requires DeleteShape(all, id, k, notes, i, found) && i < |notes|
    ensures DeleteShape(all, id, k + 1, notes', i', found')
  {
    DeleteLoopStep(all, id, k, notes, i, found);
    if notes[i].id == id {
      notes', i', found' := notes[..i] + notes[i + 1..], i, true;
    } else {
      notes', i', found' := notes, i + 1, found;
    }
  }

  /** One turn of the loop in `DeleteNoteLoop`: the note under the cursor is
      the next unconsumed one, and cutting it out (on a match) or stepping
      over it (otherwise) re-establishes the loop's shape. */
  lemma DeleteLoopStep(all: seq<Note>, id: nat, k: nat, notes: seq<Note>, i: nat, found: bool)
    requires DeleteShape(all, id, k, notes, i, found) && i < |notes|
    ensures k < |all| && notes[i] == all[k]
    ensures all[k].id == id ==> DeleteShape(all, id, k + 1, notes[..i] + notes[i + 1..], i, true)
    ensures all[k].id != id ==> DeleteShape(all, id, k + 1, notes, i + 1, found)
  {
    var kept := WithoutId(all[..k], id);
    assert notes[..i] == kept && notes[i..] == all[k..] by {
      assert notes == kept + all[k..];
    }
    assert notes[i] == all[k] by {
      assert notes[i] == notes[i..][0];
    }
    WithoutIdStep(all, k, id);
    if all[k].id == id {
      assert notes[i + 1..] == all[k + 1..] by {
        assert notes[i + 1..] == notes[i..][1..];
      }
    } else {
      KeepStep(kept, all[k..]);
    }
  }

  /** Moving the first unconsumed note over to the survivors. */
  lemma KeepStep<T>(kept: seq<T>, rest: seq<T>)
    requires rest != []
    ensures kept + rest == (kept + [rest[0]]) + rest[1..]
  {
    assert rest == [rest[0]] + rest[1..];
  }

  /** When the loop stops every note was looked at, and the flag tells
      whether some note had the id. */
  lemma DeleteLoopEnd(s: Store, id: nat, k: nat, notes: seq<Note>, i: nat, found: bool)
    requires DeleteShape(s.notes, id, k, notes, i, found) && i >= |notes|
    ensures DeleteNote(s, id) == if found then Ok(Store(notes, s.maxId)) else Err(NotFoundMessage)
  {
    assert k == |s.notes|;
    assert s.notes[..k] == s.notes && s.notes[k..] == [];
    assert notes == WithoutId(s.notes, id);
    if exists j :: 0 <= j < |s.notes| && s.notes[j].id == id {
      var j :| 0 <= j < |s.notes| && s.notes[j].id == id;
      CountWithoutId(s.notes, id, j);
      assert found;
    } else {
      assert !found;
    }
  }

  lemma WithoutIdStep(all: seq<Note>, k: nat, id: nat)
    requires k < |all|
    ensures WithoutId(all[..k + 1], id)
         == WithoutId(all[..k], id) + (if all[k].id == id then [] else [all[k]])
  {
    assert all[..k + 1] == all[..k] + [all[k]];
    WithoutIdAppend(all[..k], [all[k]], id);
    assert [all[k]][1..] == [];
  }

  // ---------------------------------------------------------------------------
  // GetTags
  // ---------------------------------------------------------------------------

  /** How many times `t` occurs in `tags`. */
  function Occurrences(tags: seq<string>, t: string): nat {
    if tags == [] then 0 else (if tags[0] == t then 1 else 0) + Occurrences(tags[1..], t)
  }

  /** How many times `t` occurs across all notes' tag lists. */
  function TagUses(notes: seq<Note>, t: string): nat {
    if notes == [] then 0 else Occurrences(notes[0].tags, t) + TagUses(notes[1..], t)
  }

  function CountOf(m: map<string, nat>, t: string): nat {
    if t in m then m[t] else 0
  }

  /** The inner loop of `GetTags`: one increment per tag of a note. */
  function Tally(m: map<string, nat>, tags: seq<string>): (r: map<string, nat>)
    ensures forall t :: CountOf(r, t) == CountOf(m, t) + Occurrences(tags, t)
    ensures forall t :: t in r <==> t in m || t in tags
    decreases |tags|
  {
    if tags == [] then m
    else Tally(m[tags[0] := CountOf(m, tags[0]) + 1], tags[1..])
  }

  /** The outer loop of `GetTags`: every note in turn. */
  function TallyNotes(m: map<string, nat>, notes: seq<Note>): (r: map<string, nat>)
    ensures forall t :: CountOf(r, t) == CountOf(m, t) + TagUses(notes, t)
    ensures forall t :: t in r <==> t in m || TagUses(notes, t) > 0
    decreases |notes|
  {
    if notes == [] then m
    else
      var m' := Tally(m, notes[0].tags);
      assert forall t :: t in notes[0].tags <==> Occurrences(notes[0].tags, t) > 0 by {
        forall t ensures t in notes[0].tags <==> Occurrences(notes[0].tags, t) > 0 {
          OccursIffPositive(notes[0].tags, t);
        }
      }
      TallyNotes(m', notes[1..])
  }

  lemma {:induction false} OccursIffPositive(tags: seq<string>, t: string)
    ensures t in tags <==> Occurrences(tags, t) > 0
  {
    if tags != [] {
      OccursIffPositive(tags[1..], t);
      assert tags == [tags[0]] + tags[1..];
    }
  }

  /** `Notes.GetTags`: each tag that occurs on some note, mapped to the number
      of its occurrences across all notes; no other key. */
  function GetTags(notes: seq<Note>): (r: map<string, nat>)
    ensures forall t :: t in r <==> TagUses(notes, t) > 0
    ensures forall t :: t in r ==> r[t] == TagUses(notes, t)
  {
    TallyNotes(map[], notes)
  }

  /** A tag occurs on some note exactly when it is a key of `GetTags`. */
  lemma {:induction false} TagKeysAreUsedTags(notes: seq<Note>, t: string)
    ensures t in GetTags(notes) <==> exists i :: 0 <= i < |notes| && t in notes[i].tags
  {
    if notes != [] {
      TagKeysAreUsedTags(notes[1..], t);
      OccursIffPositive(notes[0].tags, t);
      if t in notes[0].tags {
        assert t in notes[0].tags;
      } else if exists i :: 0 <= i < |notes[1..]| && t in notes[1..][i].tags {
        var i :| 0 <= i < |notes[1..]| && t in notes[1..][i].tags;
        assert t in notes[i + 1].tags;
      } else {
        forall i | 0 <= i < |notes| ensures t !in notes[i].tags {
          if i > 0 {
            assert notes[i] == notes[1..][i - 1];
          }
        }
      }
    }
  }

  // ---------------------------------------------------------------------------
  // parseNotes
  // ---------------------------------------------------------------------------

  /** What reading and decoding the local notes file came to. */
  datatype Snapshot =
    | Unreadable(reason: string)               // ioutil.ReadFile failed
    | EmptyFile                                // zero bytes
    | Undecodable(reason: string)              // json.Unmarshal failed
    | Decoded(notes: seq<Note>)                // a JSON array of notes

  /** `Notes.parseNotes`: an empty file leaves the store alone; a decoded
      document replaces the notes, and `max_id` becomes the id of the LAST
      note (not the largest), or stays when the document holds no note. */
  function ParseNotes(s: Store, snap: Snapshot): (r: Result<Store>)
    ensures r.Ok? <==> snap.EmptyFile? || snap.Decoded?
    ensures snap.EmptyFile? ==> r == Ok(s)
    ensures snap.Decoded? ==> r.value.notes == snap.notes
    ensures snap.Decoded? && snap.notes != [] ==> r.value.maxId == snap.notes[|snap.notes| - 1].id
    ensures snap.Decoded? && snap.notes == [] ==> r.value.maxId == s.maxId
  {
    match snap
    case Unreadable(reason) => Err(reason)
    case EmptyFile => Ok(s)
    case Undecodable(reason) => Err(reason)
    case Decoded(ns) => Ok(Store(ns, if |ns| > 0 then ns[|ns| - 1].id else s.maxId))
  }

  /** Ids in strictly increasing order, as `AddNote` appends them. */
  ghost predicate Ascending(notes: seq<Note>) {
    forall i, j :: 0 <= i < j < |notes| ==> notes[i].id < notes[j].id
  }

  /** On a document whose ids ascend, the last-id rule of `parseNotes` agrees
      with `GetMaxId` and yields a valid store. */
  lemma ParseOfAscendingIsValid(s: Store, ns: seq<Note>)
    requires Ascending(ns) && ns != []
    ensures ParseNotes(s, Decoded(ns)).value.maxId == GetMaxId(ns)
    ensures Valid(ParseNotes(s, Decoded(ns)).value)
  {
    var m := GetMaxId(ns);
    var last := ns[|ns| - 1].id;
    assert last <= m;
    if m != 0 {
      var i :| 0 <= i < |ns| && ns[i].id == m;
      assert m <= last;
    }
  }

  /** On a document whose ids do not ascend the last-id rule can leave
      `max_id` below an id that is present: a store holding ids 3 then 2
      gets `max_id` 2, and the next `AddNote` hands out 3 again. */
  lemma ParseOfDescendingUndercounts()
    ensures var ns := [BlankNote.(id := 3), BlankNote.(id := 2)];
            var s := ParseNotes(EmptyStore, Decoded(ns)).value;
            && s.maxId == 2 < GetMaxId(ns)
            && AddNote(s, BlankNote, []).id == ns[0].id
  {
    var ns := [BlankNote.(id := 3), BlankNote.(id := 2)];
    assert ns[0].id == 3;
  }

  // ---------------------------------------------------------------------------
  // reloadFromDrive
  // ---------------------------------------------------------------------------

  /** What the checksum test at the top of `reloadFromDrive` leads to. */
  datatype ReloadStep = KeepLocal | Download

  /** The branch taken, as written: with equal checksums a FAILED local parse
      returns success at once, while a successful one still downloads. */
  function ReloadDecision(checksumsEqual: bool, localParseOk: bool): (r: ReloadStep)
    ensures r == KeepLocal <==> checksumsEqual && !localParseOk
  {
    if checksumsEqual && !localParseOk then KeepLocal else Download
  }

  /** The branch the code evidently intends (a cache that still matches the
      remote is trusted): skip the download exactly when the checksums match
      and the local copy parsed. */
  function ReloadDecisionFixed(checksumsEqual: bool, localParseOk: bool): (r: ReloadStep)
    ensures r == KeepLocal <==> checksumsEqual && localParseOk
  {
    if checksumsEqual && localParseOk then KeepLocal else Download
  }

  /** What fetching the remote file came to: a failure before the local copy
      was written (download, temp file, read or write), or the snapshot then
      parsed from the fresh copy. */
  datatype Fetch = FetchFailed(reason: string) | Fetched(snap: Snapshot)

  /** The effect of `reloadFromDrive`: the store it leaves (the Go code mutates
      it in place even on failure), the error it returns, the checksum cached
      in the configuration afterwards, and whether it downloaded. */
  datatype Reloaded = Reloaded(store: Store, err: Option<string>, cachedChecksum: string, downloaded: bool)

  /** `Notes.reloadFromDrive` as written, with `local` what parsing the cached
      copy gives and `fetch` what the download gives. */
  function Reload(s: Store, remoteChecksum: string, cachedChecksum: string, local: Snapshot, fetch: Fetch)
    : (r: Reloaded)
    ensures !r.downloaded <==> remoteChecksum == cachedChecksum && ParseNotes(s, local).Err?
    ensures !r.downloaded ==> r == Reloaded(s, None, cachedChecksum, false)
    ensures r.downloaded && fetch.FetchFailed? ==> r.err == Some(fetch.reason) && r.cachedChecksum == cachedChecksum
    ensures r.downloaded && fetch.Fetched? ==> r.cachedChecksum == remoteChecksum
    ensures r.downloaded && fetch.Fetched? && ParseNotes(s, fetch.snap).Err? ==> r.err.Some?
    ensures r.downloaded && r.err.None? && fetch.Fetched? && fetch.snap.Decoded? ==> r.store.notes == fetch.snap.notes
  {
    var equal := remoteChecksum == cachedChecksum;
    var afterLocal := if equal then ParseNotes(s, local) else Ok(s);
    var base := if afterLocal.Ok? then afterLocal.value else s;
    match ReloadDecision(equal, afterLocal.Ok?)
    case KeepLocal => Reloaded(s, None, cachedChecksum, false)
    case Download =>
      match fetch
      case FetchFailed(reason) => Reloaded(base, Some(reason), cachedChecksum, true)
      case Fetched(snap) =>
        match ParseNotes(base, snap)
        case Ok(s') => Reloaded(s', None, remoteChecksum, true)
        case Err(reason) => Reloaded(base, Some(reason), remoteChecksum, true)
  }

  /** The data-loss path of the code as written: the checksums match, the
      cached copy is gone, and reload reports success without downloading,
      leaving an empty store in place of the remote notes. */
  lemma ReloadTrustsMissingCache(remote: seq<Note>, checksum: string)
    ensures Reload(EmptyStore, checksum, checksum, Unreadable("no such file"), Fetched(Decoded(remote)))
         == Reloaded(EmptyStore, None, checksum, false)
  {
  }

  /** `reloadFromDrive` with the intended test: the cached copy is used only
      when the checksums match and it parsed; otherwise the remote is
      downloaded and parsed. */
  function ReloadFixed(s: Store, remoteChecksum: string, cachedChecksum: string, local: Snapshot, fetch: Fetch)
    : (r: Reloaded)
    ensures !r.downloaded <==> remoteChecksum == cachedChecksum && ParseNotes(s, local).Ok?
    ensures !r.downloaded ==> r == Reloaded(ParseNotes(s, local).value, None, cachedChecksum, false)
    ensures r.downloaded && fetch.FetchFailed? ==> r.err == Some(fetch.reason)
    ensures r.downloaded && fetch.Fetched? ==> r.cachedChecksum == remoteChecksum
  {
    var equal := remoteChecksum == cachedChecksum;
    var afterLocal := if equal then ParseNotes(s, local) else Ok(s);
    match ReloadDecisionFixed(equal, afterLocal.Ok?)
    case KeepLocal => Reloaded(afterLocal.value, None, cachedChecksum, false)
    case Download =>
      match fetch
      case FetchFailed(reason) => Reloaded(s, Some(reason), cachedChecksum, true)
      case Fetched(snap) =>
        match ParseNotes(s, snap)
        case Ok(s') => Reloaded(s', None, remoteChecksum, true)
        case Err(reason) => Reloaded(s, Some(reason), remoteChecksum, true)
  }

  /** With the corrected test a successful reload always rests on a document
      that was actually read: an unreadable cache forces a download, and a
      successful download replaces the notes with the remote's. */
  lemma ReloadFixedNeverTrustsMissingCache(s: Store, checksum: string, reason: string, remote: seq<Note>)
    ensures var r := ReloadFixed(s, checksum, checksum, Unreadable(reason), Fetched(Decoded(remote)));
            r.downloaded && r.err.None? && r.store.notes == remote
  {
  }
}
