/** The videos routes: `POST` checks title, YouTube URL and description and
    creates one video; `GET` lists every video newest first;
    `DELETE /[id]` removes one video. */
module VideosApi {

  import opened Options
  import opened JsValues
  import opened Http
  import opened Tables
  import Routes

  /** A video; `youtubeUrl` is stored exactly as sent, a bare id or a URL. */
  datatype Video = Video(title: string, youtubeUrl: string, description: string)

  const FieldsRequired := "All fields are required"
  const CreateFailed := "Failed to create video"
  const FetchFailed := "Failed to fetch videos"
  const DeleteFailed := "Failed to delete video"

  predicate MissingRequired(fields: map<string, JsValue>)
  {
    || !Truthy(Field(fields, "title"))
    || !Truthy(Field(fields, "youtubeUrl"))
    || !Truthy(Field(fields, "description"))
  }

  /** The `data` of the create call; `None` when a value is not a string
      and the ORM refuses it. */
  function VideoData(fields: map<string, JsValue>): (r: Option<Video>)
    ensures r.Some? <==>
      Field(fields, "title").Str? && Field(fields, "youtubeUrl").Str? && Field(fields, "description").Str?
    ensures r.Some? ==>
      && Field(fields, "title") == Str(r.value.title)
      && Field(fields, "youtubeUrl") == Str(r.value.youtubeUrl)
      && Field(fields, "description") == Str(r.value.description)
  {
    match (AsString(Field(fields, "title")), AsString(Field(fields, "youtubeUrl")), AsString(Field(fields, "description")))
    case (Some(title), Some(url), Some(description)) => Some(Video(title, url, description))
    case _ => None
  }

  /** `POST /api/videos`; `now` is the creation time the store stamps. */
  function Post(videos: Table<Video>, req: RequestBody, now: int, reachable: bool): (r: Handled<Row<Video>, Table<Video>>)
    ensures r.reply.status == StatusBadRequest <==> req.JsonObject? && MissingRequired(req.fields)
    ensures r.reply.status == StatusBadRequest ==> r.reply.body == ErrorMessage(FieldsRequired)
    ensures r.reply.status == StatusServerError <==> !r.reply.Ok() && r.reply.status != StatusBadRequest
    ensures r.reply.status == StatusServerError ==> r.reply.body == ErrorMessage(CreateFailed)
    ensures !r.reply.Ok() ==> r.store == videos
    ensures r.reply.Ok() <==>
      req.JsonObject? && !MissingRequired(req.fields) && reachable && VideoData(req.fields).Some?
    ensures r.reply.Ok() ==>
      && r.reply.status == StatusOk
      && r.reply.body.Data?
      && var row := r.reply.body.value;
      && r.store.rows == videos.rows + [row]
      && row.createdAt == now
      && VideoData(req.fields) == Some(row.data)
      && (Valid(videos) ==> Valid(r.store) && !HasId(videos, row.id))
  {
    match req
    case NotJson => Handled(Failure(StatusServerError, CreateFailed), videos)
    case JsonNull => Handled(Failure(StatusServerError, CreateFailed), videos)
    case JsonObject(fields) =>
      if !Truthy(Field(fields, "title")) || !Truthy(Field(fields, "youtubeUrl")) || !Truthy(Field(fields, "description")) then
        Handled(Failure(StatusBadRequest, FieldsRequired), videos)
      else match VideoData(fields)
        case None => Handled(Failure(StatusServerError, CreateFailed), videos)
        case Some(video) =>
          if !reachable then Handled(Failure(StatusServerError, CreateFailed), videos)
          else
            var (t, row) := Insert(videos, video, now);
            Handled(Success(row), t)
  }

  /** `GET /api/videos`. */
  function Get(videos: Table<Video>, reachable: bool): (r: Reply<seq<Row<Video>>>)
    ensures !reachable <==> r == Failure(StatusServerError, FetchFailed)
    ensures r.Ok() <==> reachable
    ensures r.Ok() ==>
      && r.body.Data?
      && multiset(r.body.value) == multiset(videos.rows)
      && NewestFirstOrder(r.body.value)
  {
    Routes.List(videos, reachable, FetchFailed)
  }

  /** `DELETE /api/videos/[id]`: the ORM throws when no row has that id;
      the ok body `{ success: true }` is modelled as `Data(true)`. */
  function Delete(videos: Table<Video>, id: nat, reachable: bool): (r: Handled<bool, Table<Video>>)
    ensures r.reply.Ok() <==> reachable && HasId(videos, id)
    ensures r.reply.Ok() ==>
      r.reply.body == Data(true) && |r.store.rows| == |videos.rows| - 1
      && (Valid(videos) ==> Valid(r.store) && !HasId(r.store, id))
    ensures r.reply.Ok() ==> exists k :: 0 <= k < |videos.rows| && videos.rows[k].id == id
                                      && r.store.rows == videos.rows[..k] + videos.rows[k + 1..]
    ensures !r.reply.Ok() ==> r.store == videos && r.reply == Failure(StatusServerError, DeleteFailed)
  {
    Routes.Remove(videos, id, reachable, DeleteFailed)
  }

  /** The URL is stored verbatim: whatever string was sent, bare id or full
      URL, is the stored `youtubeUrl`. */
  lemma UrlStoredVerbatim(videos: Table<Video>, title: string, url: string, description: string, now: int)
    requires title != "" && url != "" && description != ""
    ensures var body := JsonObject(map["title" := Str(title), "youtubeUrl" := Str(url), "description" := Str(description)]);
            var p := Post(videos, body, now, true);
            p.reply.Ok() && p.reply.body.value.data == Video(title, url, description)
  {
    var fields := map["title" := Str(title), "youtubeUrl" := Str(url), "description" := Str(description)];
    assert Field(fields, "title") == Str(title);
    assert Field(fields, "youtubeUrl") == Str(url);
    assert Field(fields, "description") == Str(description);
  }
}
