/** The blogs routes: `POST` checks title, description and date and creates
    one post; `GET` lists every post newest first; `DELETE /[id]` removes
    one post. */
module BlogsApi {

  import opened Options
  import opened JsValues
  import opened Http
  import opened Tables
  import Routes

  /** A blog post; the date is the display string the client sent. */
  datatype Blog = Blog(title: string, description: string, date: string)

  const FieldsRequired := "All fields are required"
  const CreateFailed := "Failed to create blog"
  const FetchFailed := "Failed to fetch blogs"
  const DeleteFailed := "Failed to delete blog"

  predicate MissingRequired(fields: map<string, JsValue>)
  {
    || !Truthy(Field(fields, "title"))
    || !Truthy(Field(fields, "description"))
    || !Truthy(Field(fields, "date"))
  }

  /** The `data` of the create call; `None` when a value is not a string
      and the ORM refuses it. */
  function BlogData(fields: map<string, JsValue>): (r: Option<Blog>)
    ensures r.Some? <==>
      Field(fields, "title").Str? && Field(fields, "description").Str? && Field(fields, "date").Str?
    ensures r.Some? ==>
      && Field(fields, "title") == Str(r.value.title)
      && Field(fields, "description") == Str(r.value.description)
      && Field(fields, "date") == Str(r.value.date)
  {
    match (AsString(Field(fields, "title")), AsString(Field(fields, "description")), AsString(Field(fields, "date")))
    case (Some(title), Some(description), Some(date)) => Some(Blog(title, description, date))
    case _ => None
  }

  /** `POST /api/blogs`; `now` is the creation time the store stamps. */
  function Post(blogs: Table<Blog>, req: RequestBody, now: int, reachable: bool): (r: Handled<Row<Blog>, Table<Blog>>)
    ensures r.reply.status == StatusBadRequest <==> req.JsonObject? && MissingRequired(req.fields)
    ensures r.reply.status == StatusBadRequest ==> r.reply.body == ErrorMessage(FieldsRequired)
    ensures r.reply.status == StatusServerError <==> !r.reply.Ok() && r.reply.status != StatusBadRequest
    ensures r.reply.status == StatusServerError ==> r.reply.body == ErrorMessage(CreateFailed)
    ensures !r.reply.Ok() ==> r.store == blogs
    ensures r.reply.Ok() <==>
      req.JsonObject? && !MissingRequired(req.fields) && reachable && BlogData(req.fields).Some?
    ensures r.reply.Ok() ==>
      && r.reply.status == StatusOk
      && r.reply.body.Data?
      && var row := r.reply.body.value;
      && r.store.rows == blogs.rows + [row]
      && row.createdAt == now
      && BlogData(req.fields) == Some(row.data)
      && (Valid(blogs) ==> Valid(r.store) && !HasId(blogs, row.id))
  {
    match req
    case NotJson => Handled(Failure(StatusServerError, CreateFailed), blogs)
    case JsonNull => Handled(Failure(StatusServerError, CreateFailed), blogs)
    case JsonObject(fields) =>
      if !Truthy(Field(fields, "title")) || !Truthy(Field(fields, "description")) || !Truthy(Field(fields, "date")) then
        Handled(Failure(StatusBadRequest, FieldsRequired), blogs)
      else match BlogData(fields)
        case None => Handled(Failure(StatusServerError, CreateFailed), blogs)
        case Some(blog) =>
          if !reachable then Handled(Failure(StatusServerError, CreateFailed), blogs)
          else
            var (t, row) := Insert(blogs, blog, now);
            Handled(Success(row), t)
  }

  /** `GET /api/blogs`. */
  function Get(blogs: Table<Blog>, reachable: bool): (r: Reply<seq<Row<Blog>>>)
    ensures !reachable <==> r == Failure(StatusServerError, FetchFailed)
    ensures r.Ok() <==> reachable
    ensures r.Ok() ==>
      && r.body.Data?
      && multiset(r.body.value) == multiset(blogs.rows)
      && NewestFirstOrder(r.body.value)
  {
    Routes.List(blogs, reachable, FetchFailed)
  }

  /** `DELETE /api/blogs/[id]`: the ORM throws when no row has that id;
      the ok body `{ success: true }` is modelled as `Data(true)`. */
  function Delete(blogs: Table<Blog>, id: nat, reachable: bool): (r: Handled<bool, Table<Blog>>)
    ensures r.reply.Ok() <==> reachable && HasId(blogs, id)
    ensures r.reply.Ok() ==>
      r.reply.body == Data(true) && |r.store.rows| == |blogs.rows| - 1
      && (Valid(blogs) ==> Valid(r.store) && !HasId(r.store, id))
    ensures r.reply.Ok() ==> exists k :: 0 <= k < |blogs.rows| && blogs.rows[k].id == id
                                      && r.store.rows == blogs.rows[..k] + blogs.rows[k + 1..]
    ensures !r.reply.Ok() ==> r.store == blogs && r.reply == Failure(StatusServerError, DeleteFailed)
  {
    Routes.Remove(blogs, id, reachable, DeleteFailed)
  }

  /** Fields other than title, description and date are ignored: two bodies
      that agree on those three get the same answer and the same store. */
  lemma ExtraFieldsIgnored(blogs: Table<Blog>, f1: map<string, JsValue>, f2: map<string, JsValue>, now: int, reachable: bool)
    requires forall k | k in ["title", "description", "date"] :: Field(f1, k) == Field(f2, k)
    ensures Post(blogs, JsonObject(f1), now, reachable) == Post(blogs, JsonObject(f2), now, reachable)
  {
    assert Field(f1, "title") == Field(f2, "title");
    assert Field(f1, "description") == Field(f2, "description");
    assert Field(f1, "date") == Field(f2, "date");
  }

  /** A post that was just created is in the next listing, unchanged. */
  lemma CreatedBlogIsListed(blogs: Table<Blog>, req: RequestBody, now: int)
    requires Post(blogs, req, now, true).reply.Ok()
    ensures var p := Post(blogs, req, now, true);
            p.reply.body.value in Get(p.store, true).body.value
  {
    var p := Post(blogs, req, now, true);
    var row := p.reply.body.value;
    assert p.store.rows[|blogs.rows|] == row;
    assert row in multiset(p.store.rows);
  }
}
