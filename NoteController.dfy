/** The note endpoints: the caller check, the cap of five notes per user checked
    before the insert, the owner taken from the token rather than the body, and the
    mapping of service results to 401/404/204. The request-validation chains are
    represented only by their verdict. */
module NoteController {
  import opened Common
  import opened NoteService

  const NoteLimit: nat := 5
  const LimitMessage: string := "Note limit reached (max 5 per user)"

  /** A create-request body: the two note fields and whatever `userId` it carries. */
  datatype NoteBody = NoteBody(note: Input<string>, dueDate: Input<nat>, userId: Input<int>)

  /** The responses of the note endpoints. */
  datatype Reply =
    | ValidationErrors
    | Message(status: int, text: string)
    | NoteReply(status: int, note: Note)
    | ListReply(status: int, notes: seq<Note>)
    | NoContent

  /** `{ ...req.body, userId }`: the authenticated id is spread last, so it wins. */
  function Spread(body: NoteBody, userId: int): (d: NoteData)
    ensures d.userId == userId
    ensures d.note == body.note && d.dueDate == body.dueDate
  {
    NoteData(body.note, body.dueDate, userId)
  }

  /** No user holds more than five notes. */
  ghost predicate CapHolds(rows: seq<Note>)
  {
    forall u :: CountNotes(rows, u) <= NoteLimit
  }

  /** `getAllNotes`: 401 without a caller, else the caller's notes. */
  method GetAllNotes(store: NoteTable, caller: Option<int>) returns (reply: Reply)
    ensures !Authorized(caller) ==> reply == Message(401, "Unauthorized")
    ensures Authorized(caller) ==> reply == ListReply(200, NoteService.GetAllNotes(store.rows, caller.value))
  {
    if caller.None? || caller.value == 0 {
      return Message(401, "Unauthorized");
    }
    reply := ListReply(200, NoteService.GetAllNotes(store.rows, caller.value));
  }

  /** `createNote`: validation, then the caller check, then the count, then the insert
      with the caller as owner. Only the last step changes the table. */
  method CreateNote(store: NoteTable, caller: Option<int>, body: NoteBody, validationFailed: bool)
    returns (reply: Reply)
    requires store.Valid()
    modifies store
    ensures store.Valid()
    ensures validationFailed ==> reply == ValidationErrors && unchanged(store)
    ensures !validationFailed && !Authorized(caller) ==>
              reply == Message(401, "Unauthorized") && unchanged(store)
    ensures !validationFailed && Authorized(caller) && CountNotes(old(store.rows), caller.value) >= NoteLimit ==>
              reply == Message(400, LimitMessage) && unchanged(store)
    ensures !validationFailed && Authorized(caller) && CountNotes(old(store.rows), caller.value) < NoteLimit ==>
              var n := Note(old(store.nextId), Column(body.note), Column(body.dueDate), caller.value);
              reply == NoteReply(201, n) && store.rows == old(store.rows) + [n]
    ensures reply.NoteReply? ==> reply.note.userId == caller.value
    ensures CapHolds(old(store.rows)) ==> CapHolds(store.rows)
  {
    if validationFailed {
      return ValidationErrors;
    }
    if caller.None? || caller.value == 0 {
      return Message(401, "Unauthorized");
    }
    var userId := caller.value;
    var existingNotes := CountNotes(store.rows, userId);
    if existingNotes >= NoteLimit {
      return Message(400, LimitMessage);
    }
    var data := Spread(body, userId);
    var newNote := store.CreateNote(data);
    reply := NoteReply(201, newNote);
  }

  /** `updateNote`: validation, then the caller check, then the update; both the null
      and the undefined service result become 404. */
  method UpdateNote(store: NoteTable, caller: Option<int>, id: int, patch: NotePatch, validationFailed: bool)
    returns (reply: Reply)
    requires store.Valid()
    modifies store
    ensures store.Valid()
    ensures validationFailed ==> reply == ValidationErrors && unchanged(store)
    ensures !validationFailed && !Authorized(caller) ==> reply == Message(401, "Unauthorized") && unchanged(store)
    ensures !validationFailed && Authorized(caller) && (forall c :: !Defined(patch, c)) ==>
              reply == Message(404, "Note not found") && store.rows == old(store.rows)
    ensures !validationFailed && Authorized(caller) && (exists c :: Defined(patch, c)) ==>
              exists cols :: (forall c :: c in cols <==> Defined(patch, c)) && Ascending(cols, Rank)
                && store.rows == UpdateOwned(old(store.rows), caller.value, id, cols, patch)
    ensures !validationFailed && Authorized(caller) && !(exists n :: n in old(store.rows) && Owned(n, caller.value, id)) ==>
              reply == Message(404, "Note not found")
    ensures reply.NoteReply? ==> reply.status == 200 && reply.note in store.rows && Owned(reply.note, caller.value, id)
    ensures (!validationFailed && Authorized(caller) && (exists c :: Defined(patch, c)) &&
             (exists n :: n in old(store.rows) && Owned(n, caller.value, id))) ==>
              reply.NoteReply?
    ensures CapHolds(old(store.rows)) ==> CapHolds(store.rows)
  {
    if validationFailed {
      return ValidationErrors;
    }
    if caller.None? || caller.value == 0 {
      return Message(401, "Unauthorized");
    }
    var updated := store.UpdateNote(caller.value, id, patch);
    if !updated.Updated? {
      return Message(404, "Note not found");
    }
    reply := NoteReply(200, updated.note);
  }

  /** `deleteNote`: validation, then the caller check, then the delete; nothing owned
      to delete is 404, a deletion is 204. */
  method DeleteNote(store: NoteTable, caller: Option<int>, id: int, validationFailed: bool)
    returns (reply: Reply)
    requires store.Valid()
    modifies store
    ensures store.Valid()
    ensures validationFailed ==> reply == ValidationErrors && unchanged(store)
    ensures !validationFailed && !Authorized(caller) ==> reply == Message(401, "Unauthorized") && unchanged(store)
    ensures !validationFailed && Authorized(caller) ==>
              && store.rows == DeleteOwned(old(store.rows), caller.value, id)
              && (reply == NoContent <==> exists n :: n in old(store.rows) && Owned(n, caller.value, id))
              && (reply != NoContent ==> reply == Message(404, "Note not found"))
    ensures reply == NoContent ==> CountNotes(store.rows, caller.value) < CountNotes(old(store.rows), caller.value)
    ensures CapHolds(old(store.rows)) ==> CapHolds(store.rows)
  {
    if validationFailed {
      return ValidationErrors;
    }
    if caller.None? || caller.value == 0 {
      return Message(401, "Unauthorized");
    }
    var deleted := store.DeleteNote(caller.value, id);
    if !deleted {
      return Message(404, "Note not found");
    }
    reply := NoContent;
  }

  /** A user at the cap who deletes one of their notes can create another straight after. */
  lemma DeleteFreesSlot(rows: seq<Note>, userId: int, id: int)
    requires CountNotes(rows, userId) <= NoteLimit
    requires exists n :: n in rows && Owned(n, userId, id)
    ensures CountNotes(DeleteOwned(rows, userId, id), userId) < NoteLimit
  {
    CountAfterDelete(rows, userId, id, userId);
  }

  /** The same, through the endpoints: at five notes, a 204 delete makes the next valid
      create succeed with status 201. */
  method DeleteThenCreate(store: NoteTable, userId: int, id: int, body: NoteBody)
    returns (deleteReply: Reply, createReply: Reply)
    requires store.Valid() && userId != 0
    requires CountNotes(store.rows, userId) == NoteLimit
    requires exists n :: n in store.rows && Owned(n, userId, id)
    modifies store
    ensures deleteReply == NoContent
    ensures createReply.NoteReply? && createReply.status == 201 && createReply.note.userId == userId
  {
    deleteReply := DeleteNote(store, Some(userId), id, false);
    createReply := CreateNote(store, Some(userId), body, false);
  }
}
