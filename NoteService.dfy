/** The Note table: the per-user list and count, creation, the partial update whose
    field list is built from the defined fields, and deletion, all filtered by owner. */
module NoteService {
  import opened Common
  import opened Ordering

  /** A row of the Note table; `note` and `dueDate` are nullable, dates are day numbers. */
  datatype Note = Note(id: int, note: Option<string>, dueDate: Option<nat>, userId: int)

  /** The argument of `createNote`: `{ note, dueDate, userId }`. */
  datatype NoteData = NoteData(note: Input<string>, dueDate: Input<nat>, userId: int)

  /** The fields of an update body, `Partial<{ note, dueDate }>`. */
  datatype NotePatch = NotePatch(note: Input<string>, dueDate: Input<nat>)

  /** The columns an update may set, standing for the fragments "[note] = @note" and
      "[dueDate] = @dueDate", ranked in the order they are pushed. */
  datatype NoteColumn = NoteTextColumn | DueDateColumn

  function Rank(c: NoteColumn): int
  {
    match c
    case NoteTextColumn => 0
    case DueDateColumn => 1
  }

  /** `field !== undefined`: an explicit null counts as defined. */
  predicate Defined(p: NotePatch, c: NoteColumn)
  {
    match c
    case NoteTextColumn => !p.note.Absent?
    case DueDateColumn => !p.dueDate.Absent?
  }

  predicate Owned(n: Note, userId: int, id: int)
  {
    n.id == id && n.userId == userId
  }

  /** `WHERE UserId = @userId`, in table order. */
  function NotesOf(rows: seq<Note>, userId: int): (r: seq<Note>)
    ensures forall n :: n in r <==> n in rows && n.userId == userId
  {
    if rows == [] then []
    else (if rows[0].userId == userId then [rows[0]] else []) + NotesOf(rows[1..], userId)
  }

  /** `SELECT COUNT(*) ... WHERE UserId = @userId`: as many as the list query returns. */
  function CountNotes(rows: seq<Note>, userId: int): (k: nat)
    ensures k == |NotesOf(rows, userId)|
    ensures k <= |rows|
  {
    if rows == [] then 0
    else (if rows[0].userId == userId then 1 else 0) + CountNotes(rows[1..], userId)
  }

  /** The sort key of `ORDER BY dueDate ASC`; NULL sorts first. */
  function DueKey(n: Note): int
  {
    match n.dueDate
    case None => 0
    case Some(d) => d + 1
  }

  /** `getAllNotes`: exactly the user's notes, by due date ascending. */
  function GetAllNotes(rows: seq<Note>, userId: int): (r: seq<Note>)
    ensures forall n :: n in r <==> n in rows && n.userId == userId
    ensures multiset(r) == multiset(NotesOf(rows, userId))
    ensures SortedBy(r, DueKey)
    ensures |r| == CountNotes(rows, userId)
  {
    var mine := NotesOf(rows, userId);
    var r := SortBy(mine, DueKey);
    assert |r| == |multiset(r)| == |multiset(mine)| == |mine|;
    assert forall n :: n in r <==> n in multiset(mine);
    r
  }

  /** One update fragment applied to a row. */
  function SetColumn(n: Note, c: NoteColumn, p: NotePatch): Note
  {
    match c
    case NoteTextColumn => n.(note := Column(p.note))
    case DueDateColumn => n.(dueDate := Column(p.dueDate))
  }

  /** `SET <fields>` applied to one row. */
  function ApplySet(n: Note, cols: seq<NoteColumn>, p: NotePatch): (r: Note)
    ensures r.id == n.id && r.userId == n.userId
    decreases cols
  {
    if cols == [] then n else ApplySet(SetColumn(n, cols[0], p), cols[1..], p)
  }

  /** The SET clause changes exactly the listed columns, to the bound values. */
  lemma {:induction false} ApplySetEffect(n: Note, cols: seq<NoteColumn>, p: NotePatch)
    ensures var r := ApplySet(n, cols, p);
      && r.id == n.id && r.userId == n.userId
      && r.note == (if NoteTextColumn in cols then Column(p.note) else n.note)
      && r.dueDate == (if DueDateColumn in cols then Column(p.dueDate) else n.dueDate)
    decreases cols
  {
    if cols != [] {
      ApplySetEffect(SetColumn(n, cols[0], p), cols[1..], p);
      assert cols == [cols[0]] + cols[1..];
    }
  }

  /** The UPDATE over the table: owned rows get the SET clause, others are untouched. */
  function UpdateOwned(rows: seq<Note>, userId: int, id: int, cols: seq<NoteColumn>, p: NotePatch): (r: seq<Note>)
    ensures |r| == |rows|
    ensures forall i :: 0 <= i < |rows| && !Owned(rows[i], userId, id) ==> r[i] == rows[i]
    ensures forall i :: 0 <= i < |rows| && Owned(rows[i], userId, id) ==> r[i] == ApplySet(rows[i], cols, p)
  {
    seq(|rows|, i requires 0 <= i < |rows| =>
      if Owned(rows[i], userId, id) then ApplySet(rows[i], cols, p) else rows[i])
  }

  /** The UPDATE keeps every row's key and owner, so it matches the same rows after as before. */
  lemma UpdateOwnedKeepsKeys(rows: seq<Note>, userId: int, id: int, cols: seq<NoteColumn>, p: NotePatch)
    ensures var r := UpdateOwned(rows, userId, id, cols, p);
      forall i :: 0 <= i < |rows| ==> r[i].id == rows[i].id && r[i].userId == rows[i].userId
  {
    forall i | 0 <= i < |rows| {
      ApplySetEffect(rows[i], cols, p);
    }
  }

  /** The rows matched by `WHERE [Id] = @id AND [UserId] = @userId`. */
  function FindOwned(rows: seq<Note>, userId: int, id: int): (r: seq<Note>)
    ensures forall n :: n in r <==> n in rows && Owned(n, userId, id)
  {
    if rows == [] then []
    else (if Owned(rows[0], userId, id) then [rows[0]] else []) + FindOwned(rows[1..], userId, id)
  }

  /** The DELETE: every owned row goes, every other row stays in order. */
  function DeleteOwned(rows: seq<Note>, userId: int, id: int): (r: seq<Note>)
    ensures forall n :: n in r <==> n in rows && !Owned(n, userId, id)
  {
    if rows == [] then []
    else (if Owned(rows[0], userId, id) then [] else [rows[0]]) + DeleteOwned(rows[1..], userId, id)
  }

  /** Inserting a note raises its owner's count by one and no one else's. */
  lemma {:induction false} CountAfterInsert(rows: seq<Note>, n: Note, userId: int)
    ensures CountNotes(rows + [n], userId) == CountNotes(rows, userId) + (if n.userId == userId then 1 else 0)
  {
    if rows == [] {
      assert rows + [n] == [n];
    } else {
      assert (rows + [n])[1..] == rows[1..] + [n];
      CountAfterInsert(rows[1..], n, userId);
    }
  }

  /** Deleting never raises anyone's count, and lowers the owner's count when the note
      was there to delete. */
  lemma {:induction false} CountAfterDelete(rows: seq<Note>, userId: int, id: int, who: int)
    ensures CountNotes(DeleteOwned(rows, userId, id), who) <= CountNotes(rows, who)
    ensures who == userId && (exists n :: n in rows && Owned(n, userId, id)) ==>
              CountNotes(DeleteOwned(rows, userId, id), who) < CountNotes(rows, who)
  {
    if rows != [] {
      var rest := DeleteOwned(rows[1..], userId, id);
      CountAfterDelete(rows[1..], userId, id, who);
      if Owned(rows[0], userId, id) {
        assert DeleteOwned(rows, userId, id) == rest;
      } else {
        assert DeleteOwned(rows, userId, id) == [rows[0]] + rest;
        assert ([rows[0]] + rest)[1..] == rest;
        if exists n :: n in rows && Owned(n, userId, id) {
          var n :| n in rows && Owned(n, userId, id);
          assert n in rows[1..];
        }
      }
    }
  }

  /** The Note table with its identity counter. */
  class NoteTable {
    var rows: seq<Note>
    var nextId: int

    ghost predicate Valid()
      reads this
    {
      forall n :: n in rows ==> n.id < nextId
    }

    constructor ()
      ensures Valid() && rows == []
    {
      rows := [];
      nextId := 1;
    }

    /** `createNote`: one INSERT of the given note, due date and owner. */
    method CreateNote(data: NoteData) returns (n: Note)
      requires Valid()
      modifies this
      ensures Valid()
      ensures n == Note(old(nextId), Column(data.note), Column(data.dueDate), data.userId)
      ensures rows == old(rows) + [n] && nextId == old(nextId) + 1
      ensures forall u :: CountNotes(rows, u) == CountNotes(old(rows), u) + (if u == data.userId then 1 else 0)
    {
      n := Note(nextId, Column(data.note), Column(data.dueDate), data.userId);
      forall u ensures CountNotes(rows + [n], u) == CountNotes(rows, u) + (if u == data.userId then 1 else 0) {
        CountAfterInsert(rows, n, u);
      }
      rows := rows + [n];
      nextId := nextId + 1;
    }

    /** The update list: one push per defined field, note before dueDate. */
    static method BuildFields(p: NotePatch) returns (fields: seq<NoteColumn>)
      ensures forall c :: c in fields <==> Defined(p, c)
      ensures Ascending(fields, Rank)
    {
      fields := [];
      if !p.note.Absent? {
        fields := fields + [NoteTextColumn];
      }
      if !p.dueDate.Absent? {
        fields := fields + [DueDateColumn];
      }
    }

    /** `updateNote`: null with no defined field and no query; otherwise the UPDATE of
        the owned row, `undefined` when no row matched. */
    method UpdateNote(userId: int, noteId: int, p: NotePatch) returns (r: NoteUpdate)
      requires Valid()
      modifies this
      ensures Valid() && nextId == old(nextId)
      ensures (forall c :: !Defined(p, c)) <==> r == NoFields
      ensures r == NoFields ==> rows == old(rows)
      ensures r != NoFields ==>
        exists cols :: (forall c :: c in cols <==> Defined(p, c)) && Ascending(cols, Rank)
          && rows == UpdateOwned(old(rows), userId, noteId, cols, p)
      ensures r.Updated? ==> r.note in rows && Owned(r.note, userId, noteId)
      ensures r == NoMatch <==> (exists c :: Defined(p, c)) && !exists n :: n in old(rows) && Owned(n, userId, noteId)
      ensures forall u :: CountNotes(rows, u) == CountNotes(old(rows), u)
    {
      var fields := BuildFields(p);
      if |fields| == 0 {
        return NoFields;
      }
      assert Defined(p, fields[0]);
      UpdateOwnedKeepsKeys(rows, userId, noteId, fields, p);
      rows := UpdateOwned(rows, userId, noteId, fields, p);
      forall u ensures CountNotes(rows, u) == CountNotes(old(rows), u) {
        UpdateKeepsCounts(old(rows), rows, u);
      }
      var matched := FindOwned(rows, userId, noteId);
      if matched == [] {
        r := NoMatch;
        forall i | 0 <= i < |old(rows)|
          ensures !Owned(old(rows)[i], userId, noteId)
        {
          assert rows[i] in rows;
        }
      } else {
        assert matched[0] in matched;
        r := Updated(matched[0]);
        var i :| 0 <= i < |rows| && rows[i] == matched[0];
        assert old(rows)[i] in old(rows);
      }
      forall n | n in rows ensures n.id < nextId {
        var i :| 0 <= i < |rows| && rows[i] == n;
        assert old(rows)[i] in old(rows);
      }
    }

    /** `deleteNote`: true exactly when an owned row existed; only owned rows go. */
    method DeleteNote(userId: int, noteId: int) returns (deleted: bool)
      requires Valid()
      modifies this
      ensures Valid() && nextId == old(nextId)
      ensures deleted <==> exists n :: n in old(rows) && Owned(n, userId, noteId)
      ensures rows == DeleteOwned(old(rows), userId, noteId)
      ensures forall u :: CountNotes(rows, u) <= CountNotes(old(rows), u)
      ensures deleted ==> CountNotes(rows, userId) < CountNotes(old(rows), userId)
    {
      forall u ensures CountNotes(DeleteOwned(rows, userId, noteId), u) <= CountNotes(rows, u) {
        CountAfterDelete(rows, userId, noteId, u);
      }
      CountAfterDelete(rows, userId, noteId, userId);
      var affected := FindOwned(rows, userId, noteId);
      if affected != [] {
        assert affected[0] in affected;
      }
      deleted := |affected| > 0;
      rows := DeleteOwned(rows, userId, noteId);
    }
  }

  /** An update leaves every owner's count alone: it changes no row's owner. */
  lemma {:induction false} UpdateKeepsCounts(before: seq<Note>, after: seq<Note>, userId: int)
    requires |after| == |before|
    requires forall i :: 0 <= i < |before| ==> after[i].userId == before[i].userId
    ensures CountNotes(after, userId) == CountNotes(before, userId)
  {
    if before != [] {
      UpdateKeepsCounts(before[1..], after[1..], userId);
    }
  }

  /** The three results of `updateNote`: null (nothing to set), undefined (no owned
      row), or the updated row. */
  datatype NoteUpdate = NoFields | NoMatch | Updated(note: Note)
}
