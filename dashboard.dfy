/** The list controller of src/components/Dashboard.jsx: the session's copy
    of one user's notes, the filtered view, the creation draft and the
    search query, over a shared store. The two React effects become the
    explicit methods `Load` and `Recompute`. */
module DashboardPage {
  import opened Text
  import opened NotesStorage

  class Dashboard {
    const store: NotesStore
    /** `user?.sub`; "" when there is no signed-in user. */
    const userId: string
    var notes: seq<Note>
    var filteredNotes: seq<Note>
    var newNote: Draft
    var isCreating: bool
    var searchQuery: string

    /** The in-memory list mirrors the user's stored list. */
    ghost predicate Synced()
      reads this, store
    {
      userId != "" ==> notes == store.GetNotes(userId)
    }

    constructor (store: NotesStore, userId: string)
      ensures this.store == store && this.userId == userId
      ensures notes == [] && filteredNotes == [] && newNote == Draft("", "")
      ensures !isCreating && searchQuery == ""
    {
      this.store := store;
      this.userId := userId;
      notes := [];
      filteredNotes := [];
      newNote := Draft("", "");
      isCreating := false;
      searchQuery := "";
    }

    /** The mount effect (lines 27-33): with a user, both lists take the stored notes. */
    method Load()
      modifies this
      ensures userId == "" ==> unchanged(this)
      ensures userId != "" ==> notes == store.GetNotes(userId) && filteredNotes == notes
      ensures userId != "" ==> Synced()
      ensures newNote == old(newNote) && isCreating == old(isCreating) && searchQuery == old(searchQuery)
    {
      if userId != "" {
        var loadedNotes := store.GetNotes(userId);
        notes := loadedNotes;
        filteredNotes := loadedNotes;
      }
    }

    /** The filter effect (lines 36-45), to be run whenever `notes` or
        `searchQuery` changed: a blank query shows the in-memory list,
        any other query re-reads storage through the store's search, with
        the query as typed. */
    method Recompute()
      modifies this`filteredNotes
      ensures userId == "" ==> filteredNotes == old(filteredNotes)
      ensures userId != "" && IsBlank(searchQuery) ==> filteredNotes == notes
      ensures userId != "" && !IsBlank(searchQuery) ==>
                filteredNotes == store.SearchNotes(userId, searchQuery)
      ensures Synced() ==> IsSubsequence(filteredNotes, notes) || userId == ""
    {
      if userId != "" {
        if !IsBlank(searchQuery) {
          var filtered := store.SearchNotes(userId, searchQuery);
          filteredNotes := filtered;
        } else {
          filteredNotes := notes;
          SubsequenceReflexive(notes);
        }
      }
    }

    /** The search box's onChange. */
    method SetSearchQuery(query: string)
      modifies this`searchQuery
      ensures searchQuery == query
    {
      searchQuery := query;
    }

    /** The "New Note" button. */
    method OpenCreateForm()
      modifies this`isCreating
      ensures isCreating
    {
      isCreating := true;
    }

    /** The draft's title and content inputs. */
    method SetDraft(draft: Draft)
      modifies this`newNote
      ensures newNote == draft
    {
      newNote := draft;
    }

    /** The guard of `handleCreateNote`: a user, and a draft whose title and
        content each hold a character that is not whitespace. */
    function CanCreate(): (b: bool)
      reads this
      ensures b <==> userId != "" && !AllWhitespace(newNote.title) && !AllWhitespace(newNote.content)
    {
      BlankIffAllWhitespace(newNote.title);
      BlankIffAllWhitespace(newNote.content);
      userId != "" && !IsBlank(newNote.title) && !IsBlank(newNote.content)
    }

    /** `handleCreateNote`: with a user and a draft whose title and content are
        not blank, adds the note to the store and prepends the returned note
        to the in-memory list; otherwise does nothing. The id and the two
        timestamps are the clock readings the store takes. */
    method HandleCreateNote(id: NoteId, createdAt: Timestamp, updatedAt: Timestamp, quotaOk: bool)
      modifies this, store
      ensures !old(CanCreate()) ==> unchanged(this) && unchanged(store)
      ensures old(CanCreate()) ==>
                notes == [Note(id, old(newNote.title), old(newNote.content), createdAt, updatedAt)] + old(notes)
      ensures old(CanCreate()) ==>
                newNote == Draft("", "") && !isCreating
                && filteredNotes == old(filteredNotes) && searchQuery == old(searchQuery)
      ensures old(CanCreate()) && quotaOk ==>
                store.storage == old(store.storage)[StorageKey(userId) := Parsed([notes[0]] + old(store.GetNotes(userId)))]
      ensures !quotaOk ==> store.storage == old(store.storage)
      ensures old(Synced()) && quotaOk ==> Synced()
      ensures old(Synced()) && !quotaOk && old(CanCreate()) ==> !Synced()
      ensures UniqueIds(old(notes)) && !HasId(old(notes), id) ==> UniqueIds(notes)
    {
      if CanCreate() {
        var createdNote := store.AddNote(userId, newNote, id, createdAt, updatedAt, quotaOk);
        if UniqueIds(notes) && !HasId(notes, id) {
          PrependKeepsIdsUnique(notes, createdNote.value);
        }
        notes := [createdNote.value] + notes;
        newNote := Draft("", "");
        isCreating := false;
      }
    }

    /** `deleteNote(id)`: with a user, the in-memory list becomes whatever
        the store's delete returned, whether or not `id` was present. */
    method DeleteNote(id: NoteId, quotaOk: bool)
      modifies this, store
      ensures userId == "" ==> unchanged(this) && unchanged(store)
      ensures userId != "" ==>
                notes == RemoveId(old(store.GetNotes(userId)), id)
                && store.storage == (if quotaOk then old(store.storage)[StorageKey(userId) := Parsed(notes)]
                                     else old(store.storage))
                && filteredNotes == old(filteredNotes) && newNote == old(newNote)
                && isCreating == old(isCreating) && searchQuery == old(searchQuery)
      ensures quotaOk ==> Synced()
    {
      if userId != "" {
        var updatedNotes := store.DeleteNote(userId, id, quotaOk);
        notes := updatedNotes;
      }
    }

    /** `resetForm`: closes the creation form and clears the draft. */
    method ResetForm()
      modifies this`isCreating, this`newNote
      ensures !isCreating && newNote == Draft("", "")
    {
      isCreating := false;
      newNote := Draft("", "");
    }

    /** `updateNote(updated)`, the card's `onEdit`: forwards only the title and
        content to the store; on success every in-memory entry holding the id is
        replaced by the store's result and the filtered view is set to the same
        list; on `None` nothing in memory changes. */
    method UpdateNote(updated: Note, now: Timestamp, quotaOk: bool) returns (r: Option<Note>)
      modifies this, store
      ensures userId == "" ==> r == None && unchanged(this) && unchanged(store)
      ensures userId != "" ==>
                var stored := old(store.GetNotes(userId));
                (r.None? <==> !HasId(stored, updated.id))
                && (r.Some? ==>
                      var i := FindIndex(stored, updated.id);
                      r.value == ApplyPatch(stored[i], Draft(updated.title, updated.content), now)
                      && store.storage == (if quotaOk then old(store.storage)[StorageKey(userId) := Parsed(stored[i := r.value])]
                                           else old(store.storage)))
                && (r.None? ==> store.storage == old(store.storage))
      ensures r.Some? ==> notes == ReplaceAllById(old(notes), updated.id, r.value) && filteredNotes == notes
      ensures r.None? ==> notes == old(notes) && filteredNotes == old(filteredNotes)
      ensures newNote == old(newNote) && isCreating == old(isCreating) && searchQuery == old(searchQuery)
      ensures old(Synced()) && UniqueIds(old(notes)) && quotaOk ==> Synced() && UniqueIds(notes)
    {
      if userId == "" {
        return None;
      }
      ghost var stored := store.GetNotes(userId);
      r := store.UpdateNote(userId, updated.id, Draft(updated.title, updated.content), now, quotaOk);
      if r.Some? {
        var updatedNotes := ReplaceAllById(notes, updated.id, r.value);
        if old(Synced()) && UniqueIds(old(notes)) {
          ReplaceAllIsReplaceFirst(notes, updated.id, r.value);
          ReplaceKeepsIdsUnique(notes, FindIndex(notes, updated.id), r.value);
        }
        notes := updatedNotes;
        filteredNotes := updatedNotes;
      }
    }
  }
}
