/** Client runs of the store and the card, stated as methods whose
    postconditions follow from the components' contracts alone. */
module Scenarios {
  import opened Text
  import opened NotesStorage
  import opened NotesCardView

  /** Create, edit and delete one note of user "u1": after the edit the user
      holds exactly the edited note, after the delete nothing. */
  method CreateEditDelete() returns (store: NotesStore, afterEdit: seq<Note>)
    ensures |afterEdit| == 1 && afterEdit[0].title == "A2" && afterEdit[0].content == "B2"
    ensures afterEdit[0].createdAt == "2024-01-01T00:00:00.000Z"
    ensures store.GetNotes("u1") == []
  {
    store := new NotesStore(map[]);
    var created := store.AddNote("u1", Draft("A", "B"), 1, "2024-01-01T00:00:00.000Z", "2024-01-01T00:00:00.000Z", true);
    var edited := store.UpdateNote("u1", created.value.id, Draft("A2", "B2"), "2024-01-02T00:00:00.000Z", true);
    afterEdit := store.GetNotes("u1");
    var remaining := store.DeleteNote("u1", created.value.id, true);
  }

  /** Notes titled "Meeting Notes" and "Ideas": the query "meet" finds the
      first alone, case-insensitively, and "zzz" finds none. */
  lemma SearchMeetExample(meeting: Note, ideas: Note)
    requires meeting.title == "Meeting Notes" && ideas.title == "Ideas"
    requires ideas.content == "" && meeting.content == ""
    ensures FilterMatching([meeting, ideas], "meet") == [meeting]
    ensures FilterMatching([meeting, ideas], "zzz") == []
  {
    MeetingMatches(meeting);
    IdeasMatchesNeither(ideas);
    MeetingMissesZzz(meeting);
    assert [meeting, ideas][1..] == [ideas];
    assert [ideas][1..] == [];
  }

  lemma MeetingMatches(meeting: Note)
    requires meeting.title == "Meeting Notes"
    ensures Matches(meeting, "meet")
  {
    assert Lower("Meeting Notes")[..4] == "meet" == Lower("meet");
  }

  lemma IdeasMatchesNeither(ideas: Note)
    requires ideas.title == "Ideas" && ideas.content == ""
    ensures !Matches(ideas, "meet") && !Matches(ideas, "zzz")
  {
    assert Lower("Ideas") == "ideas";
    NotIncludedWithoutFirst("ideas", Lower("meet"));
    NotIncludedWithoutFirst("", Lower("meet"));
    NotIncludedWithoutFirst("ideas", Lower("zzz"));
    NotIncludedWithoutFirst("", Lower("zzz"));
  }

  lemma MeetingMissesZzz(meeting: Note)
    requires meeting.title == "Meeting Notes" && meeting.content == ""
    ensures !Matches(meeting, "zzz")
  {
    assert Lower("Meeting Notes") == "meeting notes";
    NotIncludedWithoutFirst("meeting notes", Lower("zzz"));
    NotIncludedWithoutFirst("", Lower("zzz"));
  }

  /** With the card as written: edit the title to "A2", save successfully,
      receive the saved note, press Edit again: the buffer shows the old title. */
  method StaleBufferAfterSave() returns (card: NotesCard)
    ensures card.isEditing && card.note.title == "A2" && card.editedNote.title == "A"
  {
    card := new NotesCard(Note(1, "A", "B", "t0", "t0"));
    card.EditButton();
    card.HandleInputChange(Title, "A2");
    var outcome := card.HandleSave("t1", n => Some(n));
    card.ReceiveNote(outcome.sent);
    card.EditButton();
  }

  /** The same run with the corrected save: the buffer shows the saved note. */
  method FreshBufferAfterSave() returns (card: NotesCard)
    ensures card.isEditing && card.note.title == "A2" && card.editedNote == DraftOf(card.note)
  {
    card := new NotesCard(Note(1, "A", "B", "t0", "t0"));
    card.EditButton();
    card.HandleInputChange(Title, "A2");
    var outcome := card.HandleSaveReseeding("t1", n => Some(n));
    card.ReceiveNote(outcome.sent);
    card.EditButton();
  }
}
