/** An ORM table as an in-memory sequence of rows, each with a
    store-assigned id and creation time. */
module Tables {

  import opened Options

  datatype Row<+T> = Row(id: nat, createdAt: int, data: T)

  /** Rows in insertion order; `nextId` is the id the next insert gets. */
  datatype Table<+T> = Table(rows: seq<Row<T>>, nextId: nat)

  function Empty<T>(): Table<T>
  {
    Table([], 0)
  }

  /** Ids are unique and all below `nextId`. */
  predicate Valid<T>(t: Table<T>)
  {
    && (forall i :: 0 <= i < |t.rows| ==> t.rows[i].id < t.nextId)
    && (forall i, j :: 0 <= i < j < |t.rows| ==> t.rows[i].id != t.rows[j].id)
  }

  predicate HasId<T>(t: Table<T>, id: nat)
  {
    exists i :: 0 <= i < |t.rows| && t.rows[i].id == id
  }

  /** `create`: appends exactly one row carrying `data`, stamped with `now`
      and a fresh id. */
  function Insert<T>(t: Table<T>, data: T, now: int): (r: (Table<T>, Row<T>))
    ensures r.0.rows == t.rows + [r.1]
    ensures r.1.data == data && r.1.createdAt == now
    ensures Valid(t) ==> !HasId(t, r.1.id) && Valid(r.0)
  {
    var row := Row(t.nextId, now, data);
    (Table(t.rows + [row], t.nextId + 1), row)
  }

  /** The first element whose key is `id`: `Array.prototype.find` on a
      key, and the lookup behind a join on a unique key. */
  function FindBy<T>(xs: seq<T>, key: T -> string, id: string): (r: Option<T>)
    ensures r.None? <==> forall i :: 0 <= i < |xs| ==> key(xs[i]) != id
    ensures r.Some? ==> exists i :: 0 <= i < |xs| && xs[i] == r.value && key(r.value) == id
                                  && forall j :: 0 <= j < i ==> key(xs[j]) != id
  {
    if |xs| == 0 then None
    else if key(xs[0]) == id then Some(xs[0])
    else
      var rest := FindBy(xs[1..], key, id);
      assert forall i :: 0 < i < |xs| ==> xs[i] == xs[1..][i - 1];
      rest
  }

  /** Position of the row with id `id`, if any. */
  function IndexOf<T>(rows: seq<Row<T>>, id: nat): (r: Option<nat>)
    ensures r.Some? ==> r.value < |rows| && rows[r.value].id == id
    ensures r.None? ==> forall i :: 0 <= i < |rows| ==> rows[i].id != id
  {
    if |rows| == 0 then None
    else if rows[0].id == id then Some(0)
    else match IndexOf(rows[1..], id)
      case Some(k) => Some(k + 1)
      case None => None
  }

  /** `delete({ where: { id } })`: removes the row with that id, or fails
      (the ORM throws) when there is none. */
  function Delete<T>(t: Table<T>, id: nat): (r: Option<Table<T>>)
    ensures r.None? <==> !HasId(t, id)
    ensures r.Some? ==> |r.value.rows| == |t.rows| - 1 && r.value.nextId == t.nextId
    ensures r.Some? ==> exists k :: 0 <= k < |t.rows| && t.rows[k].id == id
                                  && r.value.rows == t.rows[..k] + t.rows[k + 1..]
    ensures r.Some? && Valid(t) ==> Valid(r.value) && !HasId(r.value, id)
  {
    match IndexOf(t.rows, id)
    case None => None
    case Some(k) =>
      var rows := t.rows[..k] + t.rows[k + 1..];
      assert forall i :: 0 <= i < |rows| ==> rows[i] == (if i < k then t.rows[i] else t.rows[i + 1]);
      Some(Table(rows, t.nextId))
  }

  // ---------------------------------------------------------------------
  // `orderBy: { createdAt: 'desc' }`

  /** Every row is at least as new as every row after it. */
  predicate NewestFirstOrder<T>(rows: seq<Row<T>>)
  {
    forall i, j :: 0 <= i < j < |rows| ==> rows[i].createdAt >= rows[j].createdAt
  }

  /** Neighbouring rows are in non-increasing creation order. */
  predicate AdjacentNewestFirst<T>(rows: seq<Row<T>>)
  {
    forall i :: 0 < i < |rows| ==> rows[i - 1].createdAt >= rows[i].createdAt
  }

  lemma {:induction false} AdjacentOrderIsOrder<T>(rows: seq<Row<T>>)
    requires AdjacentNewestFirst(rows)
    ensures NewestFirstOrder(rows)
    decreases |rows|
  {
    if |rows| > 1 {
      AdjacentOrderIsOrder(rows[1..]);
      forall j | 0 < j < |rows|
        ensures rows[0].createdAt >= rows[j].createdAt
      {
        if j > 1 {
          assert rows[1..][0] == rows[1] && rows[1..][j - 1] == rows[j];
        }
      }
    }
  }

  /** Inserts `x` into rows already in newest-first order. */
  function InsertNewestFirst<T>(x: Row<T>, sorted: seq<Row<T>>): (r: seq<Row<T>>)
    requires AdjacentNewestFirst(sorted)
    ensures AdjacentNewestFirst(r)
    ensures multiset(r) == multiset(sorted) + multiset{x}
    ensures |r| > 0 && (r[0] == x || (|sorted| > 0 && r[0] == sorted[0]))
  {
    if |sorted| == 0 then [x]
    else if x.createdAt >= sorted[0].createdAt then [x] + sorted
    else
      assert sorted == [sorted[0]] + sorted[1..];
      [sorted[0]] + InsertNewestFirst(x, sorted[1..])
  }

  /** The rows of a table as `findMany` returns them: all of them, newest
      first. Rows with equal creation times may come in any order. */
  function NewestFirst<T>(rows: seq<Row<T>>): (r: seq<Row<T>>)
    ensures AdjacentNewestFirst(r)
    ensures multiset(r) == multiset(rows)
  {
    if |rows| == 0 then []
    else
      assert rows == [rows[0]] + rows[1..];
      InsertNewestFirst(rows[0], NewestFirst(rows[1..]))
  }

  /** A listing holds exactly the stored rows, in newest-first order. */
  lemma ListingIsOrderedPermutation<T>(rows: seq<Row<T>>)
    ensures NewestFirstOrder(NewestFirst(rows))
    ensures multiset(NewestFirst(rows)) == multiset(rows)
    ensures |NewestFirst(rows)| == |rows|
  {
    var r := NewestFirst(rows);
    AdjacentOrderIsOrder(r);
    assert |r| == |multiset(r)| == |multiset(rows)| == |rows|;
  }
}
