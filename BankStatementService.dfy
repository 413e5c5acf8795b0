/** Bank statement lines: the per-user balance aggregation, the two date-ordered list
    queries, the insert with its NULL defaults and the single-row delete. Values are
    exact reals; the `Decimal(18, 10)` rounding and `parseFloat` are not modelled. */
module BankStatementService {
  import opened Common
  import opened Ordering

  /** A row of BankStatement. `entryType` is the one-character kind ('C' credit, 'D'
      debit, anything else or NULL); `date` is a timestamp. Every column but the keys
      is nullable. */
  datatype Statement = Statement(
    id: int,
    userId: int,
    entryId: Option<int>,
    entryType: Option<char>,
    value: Option<real>,
    description: Option<string>,
    date: Option<nat>)

  /** The `Partial<BankStatement>` body of a create. */
  datatype StatementData = StatementData(
    entryId: Input<int>,
    entryType: Input<char>,
    value: Input<real>,
    description: Input<string>,
    date: Input<nat>)

  /** The figures `getBalanceByUser` returns. */
  datatype Report = Report(userId: int, totalCredits: real, totalDebits: real, balance: real)

  /** `WHERE UserId = @userId`, in table order. */
  function StatementsOf(rows: seq<Statement>, userId: int): (r: seq<Statement>)
    ensures forall s :: s in r <==> s in rows && s.userId == userId
    ensures |r| <= |rows|
  {
    if rows == [] then []
    else (if rows[0].userId == userId then [rows[0]] else []) + StatementsOf(rows[1..], userId)
  }

  /** `WHERE EntryId = @entryId AND UserId = @userId`: a NULL EntryId never matches. */
  function StatementsOfEntry(rows: seq<Statement>, entryId: int, userId: int): (r: seq<Statement>)
    ensures forall s :: s in r <==> s in rows && s.entryId == Some(entryId) && s.userId == userId
    ensures |r| <= |rows|
  {
    if rows == [] then []
    else (if rows[0].entryId == Some(entryId) && rows[0].userId == userId then [rows[0]] else [])
         + StatementsOfEntry(rows[1..], entryId, userId)
  }

  /** A NULL value is skipped by SUM, so it adds nothing. */
  function ValueOf(s: Statement): real
  {
    if s.value.Some? then s.value.value else 0.0
  }

  /** `CASE WHEN EntryType = k THEN Value ELSE 0 END`. */
  function ValueIfType(s: Statement, k: char): (v: real)
    ensures s.entryType != Some(k) || s.value.None? ==> v == 0.0
    ensures s.entryType == Some(k) && s.value.Some? ==> v == s.value.value
  {
    if s.entryType == Some(k) then ValueOf(s) else 0.0
  }

  /** The credits column: `CASE WHEN EntryType = 'C' THEN Value ELSE 0 END`. */
  function CreditOf(s: Statement): real
  {
    ValueIfType(s, 'C')
  }

  /** The debits column: `CASE WHEN EntryType = 'D' THEN Value ELSE 0 END`. */
  function DebitOf(s: Statement): real
  {
    ValueIfType(s, 'D')
  }

  /** `CASE WHEN EntryType = 'C' THEN Value ELSE -Value END`: a NULL type falls to ELSE. */
  function SignedOf(s: Statement): (v: real)
    ensures v == CreditOf(s) - DebitOf(s) - OtherOf(s)
    ensures s.entryType != Some('C') ==> v == -ValueOf(s)
  {
    if s.entryType == Some('C') then ValueOf(s) else -ValueOf(s)
  }

  /** What a row of neither kind takes away from the balance. */
  function OtherOf(s: Statement): real
  {
    if s.entryType == Some('C') || s.entryType == Some('D') then 0.0 else ValueOf(s)
  }

  /** `SUM(...)` over the selected rows, with `|| 0` turning the NULL of an empty or
      all-NULL sum into 0. */
  function Sum(s: seq<Statement>, f: Statement -> real): (total: real)
    ensures s == [] ==> total == 0.0
  {
    if s == [] then 0.0 else f(s[0]) + Sum(s[1..], f)
  }

  /** `getBalanceByUser`: the three sums over the user's rows. */
  function GetBalanceByUser(rows: seq<Statement>, userId: int): (r: Report)
    ensures r.userId == userId
  {
    var mine := StatementsOf(rows, userId);
    Report(userId, Sum(mine, CreditOf), Sum(mine, DebitOf), Sum(mine, SignedOf))
  }

  /** A sum over a concatenation is the sum of the parts. */
  lemma {:induction false} SumAppend(a: seq<Statement>, b: seq<Statement>, f: Statement -> real)
    ensures Sum(a + b, f) == Sum(a, f) + Sum(b, f)
  {
    if a == [] {
      assert a + b == b;
    } else {
      assert (a + b)[1..] == a[1..] + b;
      SumAppend(a[1..], b, f);
    }
  }

  /** Row by row, the signed value is the credit, less the debit, less the value of a
      row of any other kind. */
  lemma {:induction false} BalanceDecomposes(s: seq<Statement>)
    ensures Sum(s, SignedOf) == Sum(s, CreditOf) - Sum(s, DebitOf) - Sum(s, OtherOf)
  {
    if s != [] {
      BalanceDecomposes(s[1..]);
    }
  }

  /** Rows of neither kind, NULL included, are subtracted from the balance and counted
      in neither total. */
  lemma BalanceCountsOthersAsDebits(rows: seq<Statement>, userId: int)
    ensures var r := GetBalanceByUser(rows, userId);
      r.balance == r.totalCredits - r.totalDebits - Sum(StatementsOf(rows, userId), OtherOf)
  {
    BalanceDecomposes(StatementsOf(rows, userId));
  }

  /** Nothing is left out of the balance when every row is a credit or a debit. */
  lemma {:induction false} NoOthers(s: seq<Statement>)
    requires forall i :: 0 <= i < |s| ==> s[i].entryType == Some('C') || s[i].entryType == Some('D')
    ensures Sum(s, OtherOf) == 0.0
  {
    if s != [] {
      NoOthers(s[1..]);
    }
  }

  /** When each of the user's rows is 'C' or 'D', balance is credits minus debits. */
  lemma BalanceWhenAllCreditOrDebit(rows: seq<Statement>, userId: int)
    requires forall s :: s in rows && s.userId == userId ==> s.entryType == Some('C') || s.entryType == Some('D')
    ensures var r := GetBalanceByUser(rows, userId);
      r.balance == r.totalCredits - r.totalDebits
  {
    var mine := StatementsOf(rows, userId);
    assert forall i :: 0 <= i < |mine| ==> mine[i] in rows && mine[i].userId == userId by {
      forall i | 0 <= i < |mine| ensures mine[i] in rows && mine[i].userId == userId {
        assert mine[i] in mine;
      }
    }
    NoOthers(mine);
    BalanceDecomposes(mine);
  }

  /** A user with no rows gets zero for all three figures. */
  lemma NoRowsAllZero(rows: seq<Statement>, userId: int)
    requires forall s :: s in rows ==> s.userId != userId
    ensures GetBalanceByUser(rows, userId) == Report(userId, 0.0, 0.0, 0.0)
  {
    var mine := StatementsOf(rows, userId);
    if mine != [] {
      HeadIsMember(mine);
      assert false;
    }
  }

  /** Filtering a table grown by one row. */
  lemma {:induction false} StatementsOfAppend(rows: seq<Statement>, s: Statement, userId: int)
    ensures StatementsOf(rows + [s], userId)
         == StatementsOf(rows, userId) + (if s.userId == userId then [s] else [])
  {
    var tail := if s.userId == userId then [s] else [];
    if rows == [] {
      assert rows + [s] == [s];
      assert StatementsOf([s], userId) == tail + StatementsOf([], userId);
    } else {
      var head := if rows[0].userId == userId then [rows[0]] else [];
      assert (rows + [s])[0] == rows[0];
      assert (rows + [s])[1..] == rows[1..] + [s];
      StatementsOfAppend(rows[1..], s, userId);
      assert StatementsOf(rows + [s], userId) == head + (StatementsOf(rows[1..], userId) + tail);
      assert head + (StatementsOf(rows[1..], userId) + tail) == (head + StatementsOf(rows[1..], userId)) + tail;
    }
  }

  /** A new row changes only its owner's report, and changes it by its own credit,
      debit and signed value; every other user's report stays as it was. */
  lemma AppendChangesOnlyOwner(rows: seq<Statement>, s: Statement, userId: int)
    ensures var before := GetBalanceByUser(rows, userId);
      var after := GetBalanceByUser(rows + [s], userId);
      if s.userId == userId then
        after == Report(userId, before.totalCredits + CreditOf(s), before.totalDebits + DebitOf(s),
                        before.balance + SignedOf(s))
      else
        after == before
  {
    StatementsOfAppend(rows, s, userId);
    var mine := StatementsOf(rows, userId);
    if s.userId == userId {
      SumAppend(mine, [s], CreditOf);
      SumAppend(mine, [s], DebitOf);
      SumAppend(mine, [s], SignedOf);
    } else {
      assert mine + [] == mine;
    }
  }

  /** The sort key of `ORDER BY Date DESC`: later dates first, NULL dates last. */
  function DateDescKey(s: Statement): int
  {
    match s.date
    case None => 0
    case Some(d) => -(d + 1)
  }

  /** Newest first: a dated row never follows an undated one, and dates never increase. */
  ghost predicate NewestFirst(r: seq<Statement>)
  {
    forall i, j :: 0 <= i < j < |r| && r[j].date.Some? ==>
      r[i].date.Some? && r[i].date.value >= r[j].date.value
  }

  lemma SortedByDateIsNewestFirst(r: seq<Statement>)
    requires SortedBy(r, DateDescKey)
    ensures NewestFirst(r)
  {
    forall i, j | 0 <= i < j < |r| && r[j].date.Some?
      ensures r[i].date.Some? && r[i].date.value >= r[j].date.value
    {
      assert DateDescKey(r[i]) <= DateDescKey(r[j]);
    }
  }

  /** `listByUser`: all the user's rows, newest first. The entry id it is given takes
      no part in the selection. */
  function ListByUser(rows: seq<Statement>, entryId: int, userId: int): (r: seq<Statement>)
    ensures forall s :: s in r <==> s in rows && s.userId == userId
    ensures multiset(r) == multiset(StatementsOf(rows, userId))
    ensures NewestFirst(r)
  {
    var mine := StatementsOf(rows, userId);
    var r := SortBy(mine, DateDescKey);
    assert forall s :: s in r <==> s in multiset(mine);
    SortedByDateIsNewestFirst(r);
    r
  }

  /** `listByEntryAndUser`: the user's rows of that entry, newest first. */
  function ListByEntryAndUser(rows: seq<Statement>, entryId: int, userId: int): (r: seq<Statement>)
    ensures forall s :: s in r <==> s in rows && s.entryId == Some(entryId) && s.userId == userId
    ensures multiset(r) == multiset(StatementsOfEntry(rows, entryId, userId))
    ensures NewestFirst(r)
  {
    var mine := StatementsOfEntry(rows, entryId, userId);
    var r := SortBy(mine, DateDescKey);
    assert forall s :: s in r <==> s in multiset(mine);
    SortedByDateIsNewestFirst(r);
    r
  }

  /** The entry filter only narrows the user filter, duplicates included. */
  lemma {:induction false} EntryListWithinUserList(rows: seq<Statement>, entryId: int, userId: int)
    ensures multiset(StatementsOfEntry(rows, entryId, userId)) <= multiset(StatementsOf(rows, userId))
  {
    if rows != [] {
      EntryListWithinUserList(rows[1..], entryId, userId);
    }
  }

  /** The rows of `listByEntryAndUser` are among those of `listByUser`, each at most as
      often, whatever entry id `listByUser` is passed. */
  lemma ListsNest(rows: seq<Statement>, entryId: int, anyEntryId: int, userId: int)
    ensures multiset(ListByEntryAndUser(rows, entryId, userId)) <= multiset(ListByUser(rows, anyEntryId, userId))
  {
    EntryListWithinUserList(rows, entryId, userId);
  }

  /** The row `createBankStatement` inserts: an absent or null field is stored as NULL. */
  function NewStatement(id: int, userId: int, data: StatementData): (s: Statement)
    ensures s.id == id && s.userId == userId
    ensures (data.entryType.Absent? || data.entryType.Null?) <==> s.entryType.None?
    ensures (data.description.Absent? || data.description.Null?) <==> s.description.None?
    ensures data.value.Given? <==> s.value.Some?
    ensures data.date.Given? <==> s.date.Some?
    ensures data.entryId.Given? <==> s.entryId.Some?
    ensures data.entryId.Given? ==> s.entryId == Some(data.entryId.value)
    ensures data.entryType.Given? ==> s.entryType == Some(data.entryType.value)
    ensures data.value.Given? ==> s.value == Some(data.value.value)
    ensures data.description.Given? ==> s.description == Some(data.description.value)
    ensures data.date.Given? ==> s.date == Some(data.date.value)
  {
    Statement(id, userId, Column(data.entryId), Column(data.entryType), Column(data.value),
              Column(data.description), Column(data.date))
  }

  /** The `WHERE` of `deleteStatement`: a row with a NULL EntryId or Date never matches. */
  predicate Matches(s: Statement, userId: int, entryId: int, date: nat)
  {
    s.userId == userId && s.entryId == Some(entryId) && s.date == Some(date)
  }

  /** The BankStatement table with its identity counter. */
  class StatementTable {
    var rows: seq<Statement>
    var nextId: int

    ghost predicate Valid()
      reads this
    {
      forall s :: s in rows ==> s.id < nextId
    }

    constructor ()
      ensures Valid() && rows == [] && nextId == 1
    {
      rows := [];
      nextId := 1;
    }

    /** `createBankStatement`: one INSERT of the new row, which is returned. */
    method CreateBankStatement(userId: int, data: StatementData) returns (s: Statement)
      requires Valid()
      modifies this
      ensures Valid()
      ensures s == NewStatement(old(nextId), userId, data)
      ensures rows == old(rows) + [s] && nextId == old(nextId) + 1
    {
      s := NewStatement(nextId, userId, data);
      rows := rows + [s];
      nextId := nextId + 1;
    }

    /** `deleteStatement`: `DELETE TOP (1)` removes one matching row, or none when no
        row matches, and reports whether it removed one. Which of several matching rows
        goes is not fixed by the statement, so the contract names none. */
    method DeleteStatement(userId: int, entryId: int, date: nat) returns (deleted: bool)
      requires Valid()
      modifies this
      ensures Valid() && nextId == old(nextId)
      ensures deleted <==> exists s :: s in old(rows) && Matches(s, userId, entryId, date)
      ensures deleted ==>
        exists k :: 0 <= k < |old(rows)| && Matches(old(rows)[k], userId, entryId, date) &&
          rows == old(rows)[..k] + old(rows)[k + 1..]
      ensures !deleted ==> rows == old(rows)
    {
      var k := 0;
      while k < |rows| && !Matches(rows[k], userId, entryId, date)
        invariant 0 <= k <= |rows|
        invariant forall i :: 0 <= i < k ==> !Matches(rows[i], userId, entryId, date)
      {
        k := k + 1;
      }
      if k == |rows| {
        deleted := false;
        return;
      }
      ghost var before := rows;
      rows := rows[..k] + rows[k + 1..];
      deleted := true;
      assert forall s :: s in rows ==> s in before;
    }
  }
}
