/** The per-note card of src/components/NotesCard.jsx: a view modal, an
    edit mode with a buffer of the title and content, and a delete
    confirmation, over the note it is given and the two callbacks
    `onEdit` and `onDelete` of the list controller. */
module NotesCardView {
  import opened Text
  import opened NotesStorage

  /** The `name` of the input that fired `handleInputChange`. */
  datatype Field = Title | Content

  /** How `handleSave` ended: rejected by the title check, rejected by the
      content check, or after calling `onEdit` once with `sent`, which
      answered with a note or with null. */
  datatype SaveOutcome = TitleRejected | ContentRejected | EditFailed(sent: Note) | Saved(sent: Note)

  function DraftOf(note: Note): Draft {
    Draft(note.title, note.content)
  }

  class NotesCard {
    /** The `note` prop; a re-render with the same key hands a new value in. */
    var note: Note
    var isModalOpen: bool
    var isEditing: bool
    var isDeleteConfirmOpen: bool
    var editedNote: Draft

    /** Mounting: all three flags down, the buffer seeded from the note. */
    constructor (note: Note)
      ensures this.note == note
      ensures !isModalOpen && !isEditing && !isDeleteConfirmOpen
      ensures editedNote == DraftOf(note)
    {
      this.note := note;
      isModalOpen := false;
      isEditing := false;
      isDeleteConfirmOpen := false;
      editedNote := DraftOf(note);
    }

    /** A re-render of the same card with a new `note` prop: the state hooks
        keep their values. */
    method ReceiveNote(n: Note)
      modifies this`note
      ensures note == n
    {
      note := n;
    }

    method OpenModal()
      modifies this`isModalOpen
      ensures isModalOpen
    {
      isModalOpen := true;
    }

    /** `closeModal`: all three flags down and the buffer reset to the note's
        title and content. */
    method CloseModal()
      modifies this`isModalOpen, this`isEditing, this`isDeleteConfirmOpen, this`editedNote
      ensures !isModalOpen && !isEditing && !isDeleteConfirmOpen
      ensures editedNote == DraftOf(note)
    {
      isModalOpen := false;
      isEditing := false;
      isDeleteConfirmOpen := false;
      editedNote := DraftOf(note);
    }

    method HandleEdit()
      modifies this`isEditing
      ensures isEditing
    {
      isEditing := true;
    }

    /** The card's Edit button (lines 115-119): opens the modal in edit mode
        and leaves the buffer as it is. */
    method EditButton()
      modifies this`isModalOpen, this`isEditing
      ensures isModalOpen && isEditing
    {
      OpenModal();
      HandleEdit();
    }

    /** `handleInputChange`: the named buffer field takes the value, the other keeps its own. */
    method HandleInputChange(field: Field, value: string)
      modifies this`editedNote
      ensures field == Title ==> editedNote == old(editedNote).(title := value)
      ensures field == Content ==> editedNote == old(editedNote).(content := value)
    {
      match field
      case Title => editedNote := editedNote.(title := value);
      case Content => editedNote := editedNote.(content := value);
    }

    /** `handleSave`, as written: a blank title, then a blank content, rejects
        with no call and no change; otherwise `onEdit` is called once with the
        note patched by the buffer (the same spread as the store's update); a null answer leaves the card as it is, any other answer
        closes it through `closeModal`, which resets the buffer to the note of
        the render the handler came from, i.e. to the title and content from
        before the save. */
    method HandleSave(now: Timestamp, onEdit: Note -> Option<Note>) returns (outcome: SaveOutcome)
      modifies this`isModalOpen, this`isEditing, this`isDeleteConfirmOpen, this`editedNote
      ensures outcome == TitleRejected <==> IsBlank(old(editedNote.title))
      ensures outcome == ContentRejected <==> !IsBlank(old(editedNote.title)) && IsBlank(old(editedNote.content))
      ensures outcome.TitleRejected? || outcome.ContentRejected? ==> unchanged(this)
      ensures outcome.EditFailed? || outcome.Saved? ==>
                outcome.sent == ApplyPatch(note, old(editedNote), now)
                && (outcome.Saved? <==> onEdit(outcome.sent).Some?)
      ensures outcome.EditFailed? ==> unchanged(this)
      ensures outcome.Saved? ==>
                !isModalOpen && !isEditing && !isDeleteConfirmOpen && editedNote == DraftOf(note)
    {
      if IsBlank(editedNote.title) {
        return TitleRejected;
      }
      if IsBlank(editedNote.content) {
        return ContentRejected;
      }
      var updatedNote := ApplyPatch(note, editedNote, now);
      var result := onEdit(updatedNote);
      if result.None? {
        return EditFailed(updatedNote);
      }
      isEditing := false;
      CloseModal();
      outcome := Saved(updatedNote);
    }

    /** `handleSave` as evidently intended: the same checks and the same call,
        but a successful save leaves the buffer holding the saved title and
        content, which the note prop carries from the next render on. */
    method HandleSaveReseeding(now: Timestamp, onEdit: Note -> Option<Note>) returns (outcome: SaveOutcome)
      modifies this`isModalOpen, this`isEditing, this`isDeleteConfirmOpen, this`editedNote
      ensures outcome == TitleRejected <==> IsBlank(old(editedNote.title))
      ensures outcome == ContentRejected <==> !IsBlank(old(editedNote.title)) && IsBlank(old(editedNote.content))
      ensures outcome.TitleRejected? || outcome.ContentRejected? ==> unchanged(this)
      ensures outcome.EditFailed? || outcome.Saved? ==>
                outcome.sent == ApplyPatch(note, old(editedNote), now)
                && (outcome.Saved? <==> onEdit(outcome.sent).Some?)
      ensures outcome.EditFailed? ==> unchanged(this)
      ensures outcome.Saved? ==>
                !isModalOpen && !isEditing && !isDeleteConfirmOpen && editedNote == DraftOf(outcome.sent)
    {
      if IsBlank(editedNote.title) {
        return TitleRejected;
      }
      if IsBlank(editedNote.content) {
        return ContentRejected;
      }
      var updatedNote := ApplyPatch(note, editedNote, now);
      var result := onEdit(updatedNote);
      if result.None? {
        return EditFailed(updatedNote);
      }
      CloseModal();
      editedNote := DraftOf(updatedNote);
      outcome := Saved(updatedNote);
    }

    /** `handleDeleteConfirm`: raises only the confirmation flag. */
    method HandleDeleteConfirm()
      modifies this`isDeleteConfirmOpen
      ensures isDeleteConfirmOpen
    {
      isDeleteConfirmOpen := true;
    }

    /** `confirmDelete`: calls `onDelete` once with the note's id, returned
        here as `deleted`, then closes the card. */
    method ConfirmDelete() returns (deleted: NoteId)
      modifies this`isModalOpen, this`isEditing, this`isDeleteConfirmOpen, this`editedNote
      ensures deleted == note.id
      ensures !isModalOpen && !isEditing && !isDeleteConfirmOpen && editedNote == DraftOf(note)
    {
      deleted := note.id;
      CloseModal();
    }
  }
}
