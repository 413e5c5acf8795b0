/** Values shared by every part of the model: optional columns, JSON request fields,
    JavaScript's `startsWith`, and ordered column lists. */
module Common {

  /** A nullable column or an optional result: None is SQL NULL / JavaScript null. */
  datatype Option<T> = None | Some(value: T)

  /** A field of a JSON request body: missing (`undefined`), an explicit `null`, or a value. */
  datatype Input<T> = Absent | Null | Given(value: T)

  /** What a nullable column receives when a request field is bound as a query
      parameter: both `undefined` and `null` are bound as NULL. */
  function Column<T>(f: Input<T>): (c: Option<T>)
    ensures c.Some? <==> f.Given?
    ensures f.Given? ==> c.value == f.value
  {
    match f
    case Given(v) => Some(v)
    case _ => None
  }

  /** JavaScript truthiness of a string-valued field: present, not null, not "". */
  predicate Truthy(f: Input<string>)
  {
    f.Given? && f.value != ""
  }

  /** `req.user?.userId` is truthy: an authenticated identity whose id is not 0. */
  predicate Authorized(userId: Option<int>)
  {
    userId.Some? && userId.value != 0
  }

  /** `s.startsWith(p)`: exact, case-sensitive comparison of the first |p| characters. */
  predicate StartsWith(s: string, p: string)
  {
    |p| <= |s| && s[..|p|] == p
  }

  lemma StartsWithConcat(p: string, t: string)
    ensures StartsWith(p + t, p) && (p + t)[|p|..] == t
  {
    assert (p + t)[..|p|] == p;
  }

  /** The elements of `s` appear in strictly increasing rank: the order in which a
      builder pushes fragments, each at most once. */
  ghost predicate Ascending<C>(s: seq<C>, rank: C -> int)
  {
    forall i, j :: 0 <= i < j < |s| ==> rank(s[i]) < rank(s[j])
  }

  /** Pushing an element of higher rank than everything pushed so far keeps the order. */
  lemma AscendingPush<C>(s: seq<C>, x: C, rank: C -> int)
    requires Ascending(s, rank)
    requires forall y :: y in s ==> rank(y) < rank(x)
    ensures Ascending(s + [x], rank)
  {
    forall i, j | 0 <= i < j < |s + [x]|
      ensures rank((s + [x])[i]) < rank((s + [x])[j])
    {
      assert (s + [x])[i] == s[i] && s[i] in s;
      if j < |s| {
        assert (s + [x])[j] == s[j];
      }
    }
  }

  /** Two lists in ascending rank with the same members are the same list: the
      membership and order postconditions of a builder determine its result. */
  lemma {:induction false} AscendingUnique<C>(a: seq<C>, b: seq<C>, rank: C -> int)
    requires Ascending(a, rank) && Ascending(b, rank)
    requires forall c :: c in a <==> c in b
    ensures a == b
  {
    if a != [] && b != [] {
      HeadsAgree(a, b, rank);
      forall c
        ensures c in a[1..] <==> c in b[1..]
      {
        if c in a[1..] {
          TailMember(a, b, rank, c);
        }
        if c in b[1..] {
          TailMember(b, a, rank, c);
        }
      }
      AscendingUnique(a[1..], b[1..], rank);
      assert a == [a[0]] + a[1..];
      assert b == [b[0]] + b[1..];
    } else if a != [] || b != [] {
      HeadIsMember(if a != [] then a else b);
      assert false;
    }
  }

  /** Both lists start with the member of least rank. */
  lemma HeadsAgree<C>(a: seq<C>, b: seq<C>, rank: C -> int)
    requires Ascending(a, rank) && Ascending(b, rank)
    requires forall c :: c in a <==> c in b
    requires a != [] && b != []
    ensures a[0] == b[0]
  {
    assert a[0] in b;
    var k :| 0 <= k < |b| && b[k] == a[0];
    assert b[0] in a;
    var m :| 0 <= m < |a| && a[m] == b[0];
    assert rank(a[0]) <= rank(a[m]);
    assert rank(b[0]) <= rank(b[k]);
  }

  /** A member past the shared head of one list is past the head of the other. */
  lemma TailMember<C>(a: seq<C>, b: seq<C>, rank: C -> int, c: C)
    requires Ascending(a, rank) && Ascending(b, rank)
    requires forall x :: x in a <==> x in b
    requires a != [] && b != [] && a[0] == b[0]
    requires c in a[1..]
    ensures c in b[1..]
  {
    var i :| 1 <= i < |a| && a[i] == c;
    assert rank(a[0]) < rank(c);
    assert c in b;
    var j :| 0 <= j < |b| && b[j] == c;
    assert b[1..][j - 1] == c;
  }

  lemma HeadIsMember<C>(s: seq<C>)
    requires s != []
    ensures s[0] in s
  {
  }
}
