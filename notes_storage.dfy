/** The per-user notes store of src/utils/localStorage.js: the browser's
    key-value storage, keyed by "modstack_notes_" + user id, holding each
    user's notes newest-first. */
module NotesStorage {
  import opened Text

  datatype Option<T> = None | Some(value: T)

  /** `Date.now()` at creation: a number, compared with `===`. */
  type NoteId = int
  /** An ISO-8601 text as produced by `toISOString()`. */
  type Timestamp = string

  datatype Note = Note(id: NoteId, title: string, content: string, createdAt: Timestamp, updatedAt: Timestamp)

  /** The editable fields of a note: the creation draft, the card's edit
      buffer and the patch the dashboard forwards to `updateNote`. */
  datatype Draft = Draft(title: string, content: string)

  /** A storage value: a parsed array of notes, or text `JSON.parse` rejects. */
  datatype Stored = Parsed(notes: seq<Note>) | Corrupt

  /** The whole key-value storage of the origin. */
  type Storage = map<string, Stored>

  const NotesStoragePrefix: string := "modstack_notes_"

  function StorageKey(userId: string): string {
    NotesStoragePrefix + userId
  }

  /** Distinct users have distinct storage keys. */
  lemma StorageKeyInjective(a: string, b: string)
    ensures StorageKey(a) == StorageKey(b) <==> a == b
  {
    if StorageKey(a) == StorageKey(b) {
      assert a == StorageKey(a)[|NotesStoragePrefix|..];
      assert b == StorageKey(b)[|NotesStoragePrefix|..];
    }
  }

  /** What `getNotes` reads: nothing for an empty user id, an absent key or a
      corrupt value. */
  function ReadNotes(storage: Storage, userId: string): (r: seq<Note>)
    ensures userId == "" ==> r == []
    ensures r == [] || (StorageKey(userId) in storage && storage[StorageKey(userId)] == Parsed(r))
  {
    if userId == "" || StorageKey(userId) !in storage then []
    else match storage[StorageKey(userId)]
      case Parsed(notes) => notes
      case Corrupt => []
  }

  /** `getNotes` reads nothing for an empty user id, an absent key or a corrupt value. */
  lemma ReadMissingOrCorrupt(storage: Storage, userId: string)
    requires userId == "" || StorageKey(userId) !in storage || storage[StorageKey(userId)] == Corrupt
    ensures ReadNotes(storage, userId) == []
  {
  }

  /** After a successful `saveNotes(u, ns)`, `getNotes(u)` returns `ns`. */
  lemma ReadAfterSave(storage: Storage, userId: string, notes: seq<Note>)
    requires userId != ""
    ensures ReadNotes(storage[StorageKey(userId) := Parsed(notes)], userId) == notes
  {
  }

  /** Saving one user's notes leaves what every other user reads unchanged. */
  lemma SaveIsolation(storage: Storage, userId: string, other: string, notes: seq<Note>)
    requires other != userId
    ensures ReadNotes(storage[StorageKey(userId) := Parsed(notes)], other) == ReadNotes(storage, other)
  {
    StorageKeyInjective(userId, other);
  }

  predicate HasId(notes: seq<Note>, id: NoteId) {
    exists i :: 0 <= i < |notes| && notes[i].id == id
  }

  /** No two notes of the list share an id. */
  predicate UniqueIds(notes: seq<Note>) {
    forall i, j :: 0 <= i < j < |notes| ==> notes[i].id != notes[j].id
  }

  /** `notes.findIndex(note => note.id === id)`: the first index holding `id`, or -1. */
  function FindIndex(notes: seq<Note>, id: NoteId): (r: int)
    ensures -1 <= r < |notes|
    ensures r == -1 <==> !HasId(notes, id)
    ensures r >= 0 ==> notes[r].id == id && forall j :: 0 <= j < r ==> notes[j].id != id
  {
    if notes == [] then -1
    else if notes[0].id == id then 0
    else
      var k := FindIndex(notes[1..], id);
      if k == -1 then -1 else k + 1
  }

  /** `{...note, ...patch, updatedAt: now}` for a patch holding title and
      content only: the store's update and the copy the card sends to
      `onEdit` are both this spread. The id and the creation time are kept. */
  function ApplyPatch(note: Note, patch: Draft, now: Timestamp): (r: Note)
    ensures r.id == note.id && r.createdAt == note.createdAt
    ensures r.title == patch.title && r.content == patch.content && r.updatedAt == now
  {
    note.(title := patch.title, content := patch.content, updatedAt := now)
  }

  /** `a` is `b` with some entries dropped, the rest kept in order. */
  ghost predicate IsSubsequence<T>(a: seq<T>, b: seq<T>)
    decreases |b|
  {
    if a == [] then true
    else if b == [] then false
    else (a[0] == b[0] && IsSubsequence(a[1..], b[1..])) || IsSubsequence(a, b[1..])
  }

  /** `notes.filter(note => note.id !== id)`. */
  function RemoveId(notes: seq<Note>, id: NoteId): (r: seq<Note>)
    ensures forall n :: n in r <==> n in notes && n.id != id
    ensures IsSubsequence(r, notes)
    ensures !HasId(notes, id) ==> r == notes
    ensures UniqueIds(notes) ==> UniqueIds(r)
  {
    if notes == [] then []
    else if notes[0].id == id then RemoveId(notes[1..], id)
    else [notes[0]] + RemoveId(notes[1..], id)
  }

  /** `RemoveId` keeps every copy of every note with another id, and no copy
      of a note with the id. */
  lemma {:induction false} RemoveIdCounts(notes: seq<Note>, id: NoteId)
    ensures forall x :: multiset(RemoveId(notes, id))[x] == if x.id != id then multiset(notes)[x] else 0
  {
    if notes != [] {
      RemoveIdCounts(notes[1..], id);
      assert notes == [notes[0]] + notes[1..];
    }
  }

  /** Deleting twice is deleting once. */
  lemma RemoveIdIdempotent(notes: seq<Note>, id: NoteId)
    ensures RemoveId(RemoveId(notes, id), id) == RemoveId(notes, id)
  {
  }

  /** The search predicate: the lowercased query occurs somewhere in the
      lowercased title or in the lowercased content. */
  function Matches(note: Note, query: string): (b: bool)
    ensures b <==> (exists i :: OccursAt(Lower(note.title), Lower(query), i))
                   || (exists i :: OccursAt(Lower(note.content), Lower(query), i))
  {
    IncludesIffOccurs(Lower(note.title), Lower(query));
    IncludesIffOccurs(Lower(note.content), Lower(query));
    Includes(Lower(note.title), Lower(query)) || Includes(Lower(note.content), Lower(query))
  }

  /** `notes.filter(note => Matches(note, query))`. */
  function FilterMatching(notes: seq<Note>, query: string): (r: seq<Note>)
    ensures forall n :: n in r <==> n in notes && Matches(n, query)
    ensures IsSubsequence(r, notes)
  {
    if notes == [] then []
    else if Matches(notes[0], query) then [notes[0]] + FilterMatching(notes[1..], query)
    else FilterMatching(notes[1..], query)
  }

  /** `FilterMatching` keeps every copy of every matching note, and no copy
      of any other. */
  lemma {:induction false} FilterCounts(notes: seq<Note>, query: string)
    ensures forall x :: multiset(FilterMatching(notes, query))[x] == if Matches(x, query) then multiset(notes)[x] else 0
  {
    if notes != [] {
      FilterCounts(notes[1..], query);
      assert notes == [notes[0]] + notes[1..];
    }
  }

  /** The empty query matches every note, so the search keeps the whole list. */
  lemma {:induction false} FilterEmptyQuery(notes: seq<Note>)
    ensures FilterMatching(notes, "") == notes
  {
    if notes != [] {
      IncludesEmpty(Lower(notes[0].title));
      FilterEmptyQuery(notes[1..]);
    }
  }

  /** Ids stay unique when a note with a fresh id is prepended. */
  lemma PrependKeepsIdsUnique(notes: seq<Note>, note: Note)
    requires UniqueIds(notes) && !HasId(notes, note.id)
    ensures UniqueIds([note] + notes)
  {
    forall i, j | 0 <= i < j < |[note] + notes|
      ensures ([note] + notes)[i].id != ([note] + notes)[j].id
    {
      if i == 0 {
        assert ([note] + notes)[j] == notes[j - 1];
      }
    }
  }

  /** Ids stay unique when one entry is replaced by a note with the same id. */
  lemma ReplaceKeepsIdsUnique(notes: seq<Note>, i: nat, note: Note)
    requires UniqueIds(notes) && i < |notes| && note.id == notes[i].id
    ensures UniqueIds(notes[i := note])
  {
  }

  /** `notes.map(n => n.id === id ? note : n)`: the length and every entry
      with another id are kept, every entry with the id becomes `note`, and a
      list without the id comes back unchanged. */
  function ReplaceAllById(notes: seq<Note>, id: NoteId, note: Note): (r: seq<Note>)
    ensures |r| == |notes|
    ensures forall k :: 0 <= k < |notes| && notes[k].id != id ==> r[k] == notes[k]
    ensures forall k :: 0 <= k < |notes| && notes[k].id == id ==> r[k] == note
    ensures !HasId(notes, id) ==> r == notes
  {
    seq(|notes|, k requires 0 <= k < |notes| => if notes[k].id == id then note else notes[k])
  }

  /** With unique ids, replacing every entry holding `id` is replacing the
      first one, which is what the store's update does. */
  lemma ReplaceAllIsReplaceFirst(notes: seq<Note>, id: NoteId, note: Note)
    requires UniqueIds(notes) && HasId(notes, id)
    ensures ReplaceAllById(notes, id, note) == notes[FindIndex(notes, id) := note]
  {
    var i := FindIndex(notes, id);
    forall k | 0 <= k < |notes| && k != i ensures notes[k].id != id {
      if k < i {
      } else {
        assert notes[i].id != notes[k].id;
      }
    }
  }

  /** Every list is a subsequence of itself. */
  lemma {:induction false} SubsequenceReflexive<T>(s: seq<T>)
    ensures IsSubsequence(s, s)
  {
    if s != [] {
      SubsequenceReflexive(s[1..]);
    }
  }

  /** The storage, with the only operations the notes code performs on it:
      read one key and write one key. */
  class NotesStore {
    var storage: Storage

    constructor (initial: Storage)
      ensures storage == initial
    {
      storage := initial;
    }

    /** `getNotes(userId)`: nothing without a user, otherwise nothing or
        exactly the list parsed from the user's key. */
    function GetNotes(userId: string): (r: seq<Note>)
      reads this
      ensures userId == "" ==> r == []
      ensures r == [] || (StorageKey(userId) in storage && storage[StorageKey(userId)] == Parsed(r))
    {
      ReadNotes(storage, userId)
    }

    /** `saveNotes(userId, notes)`; `quotaOk` is false when `setItem` throws
        (storage quota exceeded), and then nothing is written. */
    method SaveNotes(userId: string, notes: seq<Note>, quotaOk: bool) returns (ok: bool)
      modifies this
      ensures ok <==> userId != "" && quotaOk
      ensures storage == if ok then old(storage)[StorageKey(userId) := Parsed(notes)] else old(storage)
      ensures ok ==> GetNotes(userId) == notes
      ensures forall other :: other != userId ==> GetNotes(other) == old(GetNotes(other))
    {
      if userId == "" {
        return false;
      }
      if !quotaOk {
        return false;
      }
      ReadAfterSave(storage, userId, notes);
      forall other | other != userId
        ensures ReadNotes(storage[StorageKey(userId) := Parsed(notes)], other) == ReadNotes(storage, other)
      {
        SaveIsolation(storage, userId, other, notes);
      }
      storage := storage[StorageKey(userId) := Parsed(notes)];
      ok := true;
    }

    /** `addNote(userId, draft)`: prepends a note stamped with the id and the
        two clock readings given, and returns it whether or not the save went through. */
    method AddNote(userId: string, draft: Draft, id: NoteId, createdAt: Timestamp, updatedAt: Timestamp, quotaOk: bool)
      returns (r: Option<Note>)
      modifies this
      ensures userId == "" ==> r == None && storage == old(storage)
      ensures userId != "" ==> r == Some(Note(id, draft.title, draft.content, createdAt, updatedAt))
      ensures storage == if userId != "" && quotaOk
                         then old(storage)[StorageKey(userId) := Parsed([r.value] + old(GetNotes(userId)))]
                         else old(storage)
      ensures userId != "" && quotaOk && UniqueIds(old(GetNotes(userId))) && !HasId(old(GetNotes(userId)), id) ==>
                UniqueIds(GetNotes(userId))
      ensures forall other :: other != userId ==> GetNotes(other) == old(GetNotes(other))
    {
      if userId == "" {
        return None;
      }
      var notes := GetNotes(userId);
      var newNote := Note(id, draft.title, draft.content, createdAt, updatedAt);
      if UniqueIds(notes) && !HasId(notes, id) {
        PrependKeepsIdsUnique(notes, newNote);
      }
      notes := [newNote] + notes;
      var _ := SaveNotes(userId, notes, quotaOk);
      r := Some(newNote);
    }

    /** `updateNote(userId, id, patch)`: the first note holding `id` takes the
        patch's title and content and the time `now`; `None` when there is no user
        or no such note, and then nothing is written. */
    method UpdateNote(userId: string, id: NoteId, patch: Draft, now: Timestamp, quotaOk: bool)
      returns (r: Option<Note>)
      modifies this
      ensures var notes := old(GetNotes(userId));
              r.None? <==> userId == "" || !HasId(notes, id)
      ensures r.None? ==> storage == old(storage)
      ensures r.Some? ==>
                var notes := old(GetNotes(userId));
                var i := FindIndex(notes, id);
                r.value.id == id && r.value.createdAt == notes[i].createdAt
                && r.value.title == patch.title && r.value.content == patch.content && r.value.updatedAt == now
                && storage == if quotaOk then old(storage)[StorageKey(userId) := Parsed(notes[i := r.value])]
                              else old(storage)
      ensures forall other :: other != userId ==> GetNotes(other) == old(GetNotes(other))
    {
      if userId == "" {
        return None;
      }
      var notes := GetNotes(userId);
      var noteIndex := FindIndex(notes, id);
      if noteIndex != -1 {
        notes := notes[noteIndex := ApplyPatch(notes[noteIndex], patch, now)];
        var _ := SaveNotes(userId, notes, quotaOk);
        return Some(notes[noteIndex]);
      }
      return None;
    }

    /** `deleteNote(userId, id)`: drops every note holding `id` and returns the
        survivors, saved or not. */
    method DeleteNote(userId: string, id: NoteId, quotaOk: bool) returns (r: seq<Note>)
      modifies this
      ensures r == RemoveId(old(GetNotes(userId)), id)
      ensures storage == if userId != "" && quotaOk
                         then old(storage)[StorageKey(userId) := Parsed(r)]
                         else old(storage)
      ensures forall other :: other != userId ==> GetNotes(other) == old(GetNotes(other))
    {
      if userId == "" {
        return [];
      }
      var notes := GetNotes(userId);
      var filteredNotes := RemoveId(notes, id);
      var _ := SaveNotes(userId, filteredNotes, quotaOk);
      r := filteredNotes;
    }

    /** `searchNotes(userId, query)`: the stored notes that match, in stored order. */
    function SearchNotes(userId: string, query: string): (r: seq<Note>)
      reads this
      ensures userId == "" ==> r == []
      ensures userId != "" ==> r == FilterMatching(GetNotes(userId), query)
      ensures forall n :: n in r <==> n in GetNotes(userId) && Matches(n, query)
      ensures IsSubsequence(r, GetNotes(userId))
    {
      if userId == "" then [] else FilterMatching(GetNotes(userId), query)
    }
  }
}
