/** The Transactions table: ownership-filtered reads, creation with a default type,
    the partial update whose SET list is built from the defined fields, and deletion. */
module TransactionService {
  import opened Common

  /** A row of the Transactions table. Nullable columns are Options; `date` and the
      timestamps are opaque clock values; `amount` is exact. */
  datatype Transaction = Transaction(
    id: int,
    userId: int,
    categoryId: Option<int>,
    date: Option<int>,
    description: Option<string>,
    amount: Option<real>,
    kind: Option<string>,
    createdAt: int,
    updatedAt: int)

  /** A row joined with its category's name (`JOIN TransactionCategories ... AS CategoryName`). */
  datatype TransactionView = TransactionView(row: Transaction, categoryName: string)

  /** The fields of a request body, `Partial<Transaction>`. */
  datatype TransactionPatch = TransactionPatch(
    categoryId: Input<int>,
    date: Input<int>,
    description: Input<string>,
    amount: Input<real>,
    kind: Input<string>)

  /** The columns an update may set, standing for the SET fragments
      "CategoryId = @categoryId", "Date = @date", "Description = @description",
      "Amount = @amount" and "Type = @type", ranked in the order they are pushed. */
  datatype TxColumn = CategoryIdColumn | DateColumn | DescriptionColumn | AmountColumn | TypeColumn

  function Rank(c: TxColumn): (r: int)
    ensures 0 <= r < 5
  {
    match c
    case CategoryIdColumn => 0
    case DateColumn => 1
    case DescriptionColumn => 2
    case AmountColumn => 3
    case TypeColumn => 4
  }

  /** `field !== undefined`: an explicit null counts as defined. */
  predicate Defined(p: TransactionPatch, c: TxColumn)
  {
    match c
    case CategoryIdColumn => !p.categoryId.Absent?
    case DateColumn => !p.date.Absent?
    case DescriptionColumn => !p.description.Absent?
    case AmountColumn => !p.amount.Absent?
    case TypeColumn => !p.kind.Absent?
  }

  /** The SET list after the pushes of every column ranked below `k`. */
  ghost predicate BuiltBelow(updates: seq<TxColumn>, p: TransactionPatch, k: int)
  {
    (forall c :: c in updates <==> Defined(p, c) && Rank(c) < k) && Ascending(updates, Rank)
  }

  /** One `if (field !== undefined) updates.push(...)` step keeps the SET list built so far. */
  lemma PushStep(updates: seq<TxColumn>, p: TransactionPatch, c: TxColumn)
    requires BuiltBelow(updates, p, Rank(c))
    ensures BuiltBelow(if Defined(p, c) then updates + [c] else updates, p, Rank(c) + 1)
  {
    if Defined(p, c) {
      AscendingPush(updates, c, Rank);
    }
  }

  /** The row a query addressed by (Id, UserId) touches. */
  predicate Owned(t: Transaction, userId: int, id: int)
  {
    t.id == id && t.userId == userId
  }

  /** `type || "income"`: a missing, null or empty type is stored as "income". */
  function TypeOrIncome(kind: Input<string>): (s: string)
    ensures s != ""
    ensures Truthy(kind) ==> s == kind.value
    ensures !Truthy(kind) ==> s == "income"
  {
    if Truthy(kind) then kind.value else "income"
  }

  /** The rows of one user (`WHERE t.UserId = @userId`), in table order. */
  function RowsOf(rows: seq<Transaction>, userId: int): (r: seq<Transaction>)
    ensures forall t :: t in r <==> t in rows && t.userId == userId
  {
    if rows == [] then []
    else (if rows[0].userId == userId then [rows[0]] else []) + RowsOf(rows[1..], userId)
  }

  /** The inner join with the category names: a row whose category is missing drops out. */
  function JoinCategories(rows: seq<Transaction>, categories: map<int, string>): (r: seq<TransactionView>)
    ensures forall v :: v in r <==>
      v.row in rows && v.row.categoryId.Some? && v.row.categoryId.value in categories
      && v.categoryName == categories[v.row.categoryId.value]
  {
    if rows == [] then []
    else
      var t := rows[0];
      (if t.categoryId.Some? && t.categoryId.value in categories
       then [TransactionView(t, categories[t.categoryId.value])] else [])
      + JoinCategories(rows[1..], categories)
  }

  /** `getAllTransactions`: the user's rows joined with their category names. */
  function GetAllTransactions(rows: seq<Transaction>, categories: map<int, string>, userId: int): (r: seq<TransactionView>)
    ensures forall v :: v in r <==>
      v.row in rows && v.row.userId == userId && v.row.categoryId.Some? && v.row.categoryId.value in categories
      && v.categoryName == categories[v.row.categoryId.value]
  {
    JoinCategories(RowsOf(rows, userId), categories)
  }

  /** `getTransactionById`: `recordset[0] || null` of the (Id, UserId) lookup. */
  function GetTransactionById(rows: seq<Transaction>, categories: map<int, string>, userId: int, id: int): (r: Option<TransactionView>)
    ensures r.Some? ==> r.value.row in rows && Owned(r.value.row, userId, id)
    ensures r.Some? ==> r.value.row.categoryId.Some? && r.value.row.categoryId.value in categories
                        && r.value.categoryName == categories[r.value.row.categoryId.value]
    ensures r.None? <==> !exists t :: t in rows && Owned(t, userId, id) && t.categoryId.Some? && t.categoryId.value in categories
  {
    var found := JoinCategories(FindOwned(rows, userId, id), categories);
    assert forall t :: t in rows && Owned(t, userId, id) && t.categoryId.Some? && t.categoryId.value in categories
             ==> TransactionView(t, categories[t.categoryId.value]) in found;
    if found == [] then None else
      assert found[0] in found;
      Some(found[0])
  }

  /** The rows matched by `WHERE Id = @id AND UserId = @userId`. */
  function FindOwned(rows: seq<Transaction>, userId: int, id: int): (r: seq<Transaction>)
    ensures forall t :: t in r <==> t in rows && Owned(t, userId, id)
  {
    if rows == [] then []
    else (if Owned(rows[0], userId, id) then [rows[0]] else []) + FindOwned(rows[1..], userId, id)
  }

  /** One SET fragment applied to a row. */
  function SetColumn(t: Transaction, c: TxColumn, p: TransactionPatch): Transaction
  {
    match c
    case CategoryIdColumn => t.(categoryId := Column(p.categoryId))
    case DateColumn => t.(date := Column(p.date))
    case DescriptionColumn => t.(description := Column(p.description))
    case AmountColumn => t.(amount := Column(p.amount))
    case TypeColumn => t.(kind := Column(p.kind))
  }

  /** `SET <fragments>, UpdatedAt = GETDATE()` applied to one row. */
  function ApplySet(t: Transaction, cols: seq<TxColumn>, p: TransactionPatch, now: int): (r: Transaction)
    ensures r.id == t.id && r.userId == t.userId && r.createdAt == t.createdAt && r.updatedAt == now
    decreases cols
  {
    if cols == [] then t.(updatedAt := now)
    else ApplySet(SetColumn(t, cols[0], p), cols[1..], p, now)
  }

  /** The SET clause changes exactly the listed columns, to the values bound for them,
      plus UpdatedAt; the key, the owner and the creation time stay. */
  lemma {:induction false} ApplySetEffect(t: Transaction, cols: seq<TxColumn>, p: TransactionPatch, now: int)
    ensures var r := ApplySet(t, cols, p, now);
      && r.id == t.id && r.userId == t.userId && r.createdAt == t.createdAt && r.updatedAt == now
      && r.categoryId == (if CategoryIdColumn in cols then Column(p.categoryId) else t.categoryId)
      && r.date == (if DateColumn in cols then Column(p.date) else t.date)
      && r.description == (if DescriptionColumn in cols then Column(p.description) else t.description)
      && r.amount == (if AmountColumn in cols then Column(p.amount) else t.amount)
      && r.kind == (if TypeColumn in cols then Column(p.kind) else t.kind)
    decreases cols
  {
    if cols != [] {
      ApplySetEffect(SetColumn(t, cols[0], p), cols[1..], p, now);
      assert cols == [cols[0]] + cols[1..];
    }
  }

  /** The UPDATE statement over the table: owned rows get the SET clause, all other rows
      are untouched. */
  function UpdateOwned(rows: seq<Transaction>, userId: int, id: int, cols: seq<TxColumn>,
                       p: TransactionPatch, now: int): (r: seq<Transaction>)
    ensures |r| == |rows|
    ensures forall i :: 0 <= i < |rows| && !Owned(rows[i], userId, id) ==> r[i] == rows[i]
    ensures forall i :: 0 <= i < |rows| && Owned(rows[i], userId, id) ==> r[i] == ApplySet(rows[i], cols, p, now)
  {
    seq(|rows|, i requires 0 <= i < |rows| =>
      if Owned(rows[i], userId, id) then ApplySet(rows[i], cols, p, now) else rows[i])
  }

  /** The UPDATE never changes a row's key or owner, so it matches the same rows after
      as before. */
  lemma UpdateOwnedKeepsKeys(rows: seq<Transaction>, userId: int, id: int, cols: seq<TxColumn>,
                             p: TransactionPatch, now: int)
    ensures var r := UpdateOwned(rows, userId, id, cols, p, now);
      forall i :: 0 <= i < |rows| ==> r[i].id == rows[i].id && r[i].userId == rows[i].userId
  {
    forall i | 0 <= i < |rows| {
      ApplySetEffect(rows[i], cols, p, now);
    }
  }

  /** The DELETE statement: every owned row goes, every other row stays in order. */
  function DeleteOwned(rows: seq<Transaction>, userId: int, id: int): (r: seq<Transaction>)
    ensures forall t :: t in r <==> t in rows && !Owned(t, userId, id)
    ensures |r| <= |rows|
  {
    if rows == [] then []
    else (if Owned(rows[0], userId, id) then [] else [rows[0]]) + DeleteOwned(rows[1..], userId, id)
  }

  /** Deletion shrinks the table exactly when an owned row existed. */
  lemma {:induction false} DeleteOwnedShrinks(rows: seq<Transaction>, userId: int, id: int)
    ensures |DeleteOwned(rows, userId, id)| < |rows| <==> exists t :: t in rows && Owned(t, userId, id)
  {
    if rows != [] {
      DeleteOwnedShrinks(rows[1..], userId, id);
      assert rows == [rows[0]] + rows[1..];
    }
  }

  /** The Transactions table with its identity counter. */
  class TransactionTable {
    var rows: seq<Transaction>
    var nextId: int

    ghost predicate Valid()
      reads this
    {
      forall t :: t in rows ==> t.id < nextId
    }

    constructor ()
      ensures Valid() && rows == []
    {
      rows := [];
      nextId := 1;
    }

    /** `createTransaction`: one INSERT of the given fields, with the type defaulted. */
    method CreateTransaction(userId: int, p: TransactionPatch, now: int) returns (t: Transaction)
      requires Valid()
      modifies this
      ensures Valid()
      ensures rows == old(rows) + [t] && nextId == old(nextId) + 1
      ensures t == Transaction(old(nextId), userId, Column(p.categoryId), Column(p.date),
                               Column(p.description), Column(p.amount), Some(TypeOrIncome(p.kind)), now, now)
      ensures forall u :: u in old(rows) ==> u.id != t.id
    {
      t := Transaction(nextId, userId, Column(p.categoryId), Column(p.date), Column(p.description),
                       Column(p.amount), Some(TypeOrIncome(p.kind)), now, now);
      rows := rows + [t];
      nextId := nextId + 1;
    }

    /** The SET list: one push per defined field, in the fixed column order. */
    static method BuildUpdates(p: TransactionPatch) returns (updates: seq<TxColumn>)
      ensures forall c :: c in updates <==> Defined(p, c)
      ensures Ascending(updates, Rank)
    {
      updates := [];
      PushStep(updates, p, CategoryIdColumn);
      if !p.categoryId.Absent? {
        updates := updates + [CategoryIdColumn];
      }
      PushStep(updates, p, DateColumn);
      if !p.date.Absent? {
        updates := updates + [DateColumn];
      }
      PushStep(updates, p, DescriptionColumn);
      if !p.description.Absent? {
        updates := updates + [DescriptionColumn];
      }
      PushStep(updates, p, AmountColumn);
      if !p.amount.Absent? {
        updates := updates + [AmountColumn];
      }
      PushStep(updates, p, TypeColumn);
      if !p.kind.Absent? {
        updates := updates + [TypeColumn];
      }
    }

    /** `updateTransaction`: with no defined field, null and no change; otherwise the
        UPDATE of the owned row and `recordset[0] || null`. */
    method UpdateTransaction(userId: int, id: int, p: TransactionPatch, now: int) returns (r: Option<Transaction>)
      requires Valid()
      modifies this
      ensures Valid() && nextId == old(nextId)
      ensures (forall c :: !Defined(p, c)) ==> r == None && rows == old(rows)
      ensures (exists c :: Defined(p, c)) ==>
        exists cols :: (forall c :: c in cols <==> Defined(p, c)) && Ascending(cols, Rank)
          && rows == UpdateOwned(old(rows), userId, id, cols, p, now)
      ensures r.Some? ==> r.value in rows && Owned(r.value, userId, id) && r.value.updatedAt == now
      ensures r.None? && (exists c :: Defined(p, c)) ==> !exists t :: t in old(rows) && Owned(t, userId, id)
    {
      var updates := BuildUpdates(p);
      if |updates| == 0 {
        return None;
      }
      assert Defined(p, updates[0]);
      UpdateOwnedKeepsKeys(rows, userId, id, updates, p, now);
      rows := UpdateOwned(rows, userId, id, updates, p, now);
      var matched := FindOwned(rows, userId, id);
      if matched == [] {
        r := None;
        forall i | 0 <= i < |old(rows)|
          ensures !Owned(old(rows)[i], userId, id)
        {
          assert rows[i] in rows;
        }
      } else {
        assert matched[0] in matched;
        r := Some(matched[0]);
        var i :| 0 <= i < |rows| && rows[i] == matched[0];
        ApplySetEffect(old(rows)[i], updates, p, now);
      }
    }

    /** `deleteTransaction`: true exactly when an owned row existed; only owned rows go. */
    method DeleteTransaction(userId: int, id: int) returns (deleted: bool)
      requires Valid()
      modifies this
      ensures Valid() && nextId == old(nextId)
      ensures deleted <==> exists t :: t in old(rows) && Owned(t, userId, id)
      ensures rows == DeleteOwned(old(rows), userId, id)
    {
      DeleteOwnedShrinks(rows, userId, id);
      var remaining := DeleteOwned(rows, userId, id);
      deleted := |remaining| < |rows|;
      rows := remaining;
    }
  }
}
