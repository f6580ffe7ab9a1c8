/** The two handlers the blogs and videos routes share, each route passing
    its own failure message. */
module Routes {

  import opened Http
  import opened Tables

  /** A `GET` handler: every row, newest first, or a 500 when the store
      cannot be reached. */
  function List<T>(t: Table<T>, reachable: bool, failed: string): (r: Reply<seq<Row<T>>>)
    ensures !reachable <==> r == Failure(StatusServerError, failed)
    ensures r.Ok() <==> reachable
    ensures r.Ok() ==>
      && r.body.Data?
      && multiset(r.body.value) == multiset(t.rows)
      && NewestFirstOrder(r.body.value)
  {
    if !reachable then Failure(StatusServerError, failed)
    else
      ListingIsOrderedPermutation(t.rows);
      Success(NewestFirst(t.rows))
  }

  /** A `DELETE /[id]` handler (lines 4-19 of `src/app/api/blogs/[id]/route.ts`
      and of `src/app/api/videos/[id]/route.ts`): the ORM throws when no row
      has that id, and the throw, like an unreachable store, ends in a 500.
      The ok reply's JSON body `{ success: true }` is modelled as the value
      of its one field, `Data(true)`. */
  function Remove<T>(t: Table<T>, id: nat, reachable: bool, failed: string): (r: Handled<bool, Table<T>>)
    ensures r.reply.Ok() <==> reachable && HasId(t, id)
    ensures r.reply.Ok() ==>
      r.reply.body == Data(true) && |r.store.rows| == |t.rows| - 1
      && (Valid(t) ==> Valid(r.store) && !HasId(r.store, id))
    ensures r.reply.Ok() ==> exists k :: 0 <= k < |t.rows| && t.rows[k].id == id
                                      && r.store.rows == t.rows[..k] + t.rows[k + 1..]
    ensures !r.reply.Ok() ==> r.store == t && r.reply == Failure(StatusServerError, failed)
  {
    if !reachable then Handled(Failure(StatusServerError, failed), t)
    else match Tables.Delete(t, id)
      case None => Handled(Failure(StatusServerError, failed), t)
      case Some(t') => Handled(Success(true), t')
  }
}
