/** The admin dashboard: the mount-time login check, the three lists it
    fetches, the blog and video forms that post to the API, the
    confirm-gated deletes and the three counters at the top. The server is
    the three route models taken together; `online` says whether `fetch`
    reached it at all (when it does not, the handlers' `catch` only logs). */
module AdminPage {

  import opened Options
  import opened Http
  import opened Tables
  import opened JsValues
  import Auth
  import BookingsApi
  import BlogsApi
  import VideosApi

  /** What `response.json()` stores in a list: the array of a successful
      listing, or the `{ error }` object of a failed one. */
  datatype Listing<+T> = Listed(items: seq<T>) | ErrorObject(error: string)

  function FromReply<T>(r: Reply<seq<T>>): (l: Listing<T>)
    ensures r.body.Data? <==> l.Listed?
    ensures l.Listed? ==> l.items == r.body.value
    ensures l.ErrorObject? ==> l.error == r.body.error
  {
    match r.body
    case Data(items) => Listed(items)
    case ErrorMessage(e) => ErrorObject(e)
  }

  datatype Server = Server(
    db: BookingsApi.Db,
    blogs: Table<BlogsApi.Blog>,
    videos: Table<VideosApi.Video>,
    reachable: bool)

  predicate ValidServer(server: Server)
  {
    BookingsApi.Valid(server.db) && Tables.Valid(server.blogs) && Tables.Valid(server.videos)
  }

  datatype BlogForm = BlogForm(title: string, description: string, date: string)

  datatype VideoForm = VideoForm(title: string, youtubeUrl: string, description: string)

  datatype SuccessContent = SuccessContent(title: string, kind: string, details: string)

  datatype AdminState = AdminState(
    auth: Auth.AdminAuth,
    loading: bool,
    bookings: Listing<BookingsApi.BookingView>,
    blogs: Listing<Row<BlogsApi.Blog>>,
    videos: Listing<Row<VideosApi.Video>>,
    blogForm: BlogForm,
    videoForm: VideoForm,
    showBlogSuccess: bool,
    showVideoSuccess: bool,
    success: SuccessContent)

  /** An empty blog form; its date is today's date as the page formats it. */
  function EmptyBlogForm(today: string): (f: BlogForm)
    ensures f.title == "" && f.description == "" && f.date == today
  {
    BlogForm("", "", today)
  }

  const EmptyVideoForm := VideoForm("", "", "")

  /** The state before the first effect runs: the list state starts out
      loading. */
  function Initial(today: string): (s: AdminState)
    ensures s.auth == Auth.InitialAdminAuth && s.loading
    ensures !s.showBlogSuccess && !s.showVideoSuccess
  {
    AdminState(Auth.InitialAdminAuth, true, Listed([]), Listed([]), Listed([]),
               EmptyBlogForm(today), EmptyVideoForm, false, false, SuccessContent("", "", ""))
  }

  // ---------------------------------------------------------------------
  // Loading the lists

  /** `fetchData`: the three listings replace the lists, and loading ends
      whichever way the requests went. */
  function FetchData(s: AdminState, server: Server, online: bool): (r: AdminState)
    ensures !r.loading
    ensures r == s.(loading := false, bookings := r.bookings, blogs := r.blogs, videos := r.videos)
    ensures !online ==> r == s.(loading := false)
    ensures online && !server.reachable ==>
      && r.bookings == ErrorObject(BookingsApi.FetchFailed)
      && r.blogs == ErrorObject(BlogsApi.FetchFailed)
      && r.videos == ErrorObject(VideosApi.FetchFailed)
    ensures online && server.reachable && ValidServer(server) ==>
      && r.bookings.Listed? && r.blogs.Listed? && r.videos.Listed?
      && multiset(BookingsApi.RowsOf(r.bookings.items)) == multiset(server.db.bookings.rows)
      && multiset(r.blogs.items) == multiset(server.blogs.rows)
      && multiset(r.videos.items) == multiset(server.videos.rows)
      && NewestFirstOrder(BookingsApi.RowsOf(r.bookings.items))
      && NewestFirstOrder(r.blogs.items) && NewestFirstOrder(r.videos.items)
  {
    if !online then s.(loading := false)
    else
      s.(loading := false,
         bookings := FromReply(BookingsApi.Get(server.db, server.reachable)),
         blogs := FromReply(BlogsApi.Get(server.blogs, server.reachable)),
         videos := FromReply(VideosApi.Get(server.videos, server.reachable)))
  }

  /** The effect on mount: check the stored flag, and fetch only when it is
      set. */
  function Mount(storage: Auth.Storage, server: Server, online: bool, today: string): (r: (AdminState, Auth.AuthEffect))
    ensures r.0.auth.authChecked
    ensures r.0.auth.isAuthenticated <==> Auth.FlagSet(storage)
    ensures r.1 == Auth.FetchData <==> Auth.FlagSet(storage)
    ensures !Auth.FlagSet(storage) ==> r.0 == Initial(today).(auth := Auth.AdminAuth(false, true))
    ensures Auth.FlagSet(storage) ==>
      r.0 == FetchData(Initial(today).(auth := Auth.AdminAuth(true, true)), server, online)
  {
    var (auth, effect) := Auth.CheckAuth(storage);
    var s := Initial(today).(auth := auth);
    if effect == Auth.FetchData then (FetchData(s, server, online), effect) else (s, effect)
  }

  // ---------------------------------------------------------------------
  // What is drawn

  datatype View =
    | CheckingAuthentication
    | LoadingSkeleton
    | Crashed
    | Dashboard(totalBookings: nat, blogPosts: nat, videoCount: nat)

  /** Every list holds an array. */
  predicate AllListed(s: AdminState)
  {
    s.bookings.Listed? && s.blogs.Listed? && s.videos.Listed?
  }

  /** The page before the check, the skeleton while loading, and the
      dashboard with its three counters after. The dashboard's body calls
      `map` on all three lists whichever tab is active, so an error object
      in any of them makes the render throw and nothing is drawn. */
  function Render(s: AdminState): (v: View)
    ensures v == CheckingAuthentication <==> !s.auth.authChecked
    ensures v == LoadingSkeleton <==> s.auth.authChecked && s.loading
    ensures v == Crashed <==> s.auth.authChecked && !s.loading && !AllListed(s)
    ensures v.Dashboard? ==>
      && AllListed(s)
      && v.totalBookings == |s.bookings.items|
      && v.blogPosts == |s.blogs.items|
      && v.videoCount == |s.videos.items|
  {
    if !s.auth.authChecked then CheckingAuthentication
    else if s.loading then LoadingSkeleton
    else if !AllListed(s) then Crashed
    else Dashboard(|s.bookings.items|, |s.blogs.items|, |s.videos.items|)
  }

  /** After a successful load the counters are the numbers of rows in the
      store. */
  lemma CountersMatchStore(s: AdminState, server: Server)
    requires s.auth.authChecked
    requires server.reachable && ValidServer(server)
    ensures Render(FetchData(s, server, true)) ==
      Dashboard(|server.db.bookings.rows|, |server.blogs.rows|, |server.videos.rows|)
  {
    var r := FetchData(s, server, true);
    var rows := BookingsApi.RowsOf(r.bookings.items);
    assert |rows| == |r.bookings.items|;
    assert |multiset(rows)| == |multiset(server.db.bookings.rows)|;
    assert |multiset(r.blogs.items)| == |multiset(server.blogs.rows)|;
    assert |multiset(r.videos.items)| == |multiset(server.videos.rows)|;
  }

  /** A visitor without the flag is sent away while the skeleton stays up:
      nothing is fetched, so loading never ends. */
  lemma VisitorSeesOnlySkeleton(storage: Auth.Storage, server: Server, online: bool, today: string)
    requires !Auth.FlagSet(storage)
    ensures var (s, effect) := Mount(storage, server, online, today);
            effect == Auth.RedirectToLogin && Render(s) == LoadingSkeleton
  {
  }

  /** The listing routes answer an unreachable store with an error
      object, which `fetchData` stores without looking at the status: a
      logged-in administrator then gets no dashboard at all. */
  lemma UnreachableStoreCrashesDashboard(storage: Auth.Storage, server: Server, today: string)
    requires Auth.FlagSet(storage) && !server.reachable
    ensures Render(Mount(storage, server, true, today).0) == Crashed
  {
  }

  /** When `fetch` itself fails the lists keep their initial empty arrays,
      so the dashboard shows three zero counters. */
  lemma OfflineDashboardIsEmpty(storage: Auth.Storage, server: Server, today: string)
    requires Auth.FlagSet(storage)
    ensures Render(Mount(storage, server, false, today).0) == Dashboard(0, 0, 0)
  {
  }

  // ---------------------------------------------------------------------
  // Creating a blog post

  /** `JSON.stringify(blogForm)` as the route receives it. */
  function BlogRequest(form: BlogForm): (req: RequestBody)
    ensures req.JsonObject?
    ensures Field(req.fields, "title") == Str(form.title)
    ensures Field(req.fields, "description") == Str(form.description)
    ensures Field(req.fields, "date") == Str(form.date)
  {
    JsonObject(map["title" := Str(form.title), "description" := Str(form.description), "date" := Str(form.date)])
  }

  function BlogSuccess(title: string): SuccessContent
  {
    SuccessContent(title, "blog",
      "Your blog post \"" + title + "\" has been successfully published and is now live on the website.")
  }

  /** The form's `required` inputs: the browser refuses to submit while one
      is empty. The date has no input. */
  predicate BlogFormSubmittable(form: BlogForm)
  {
    form.title != "" && form.description != ""
  }

  /** `handleBlogSubmit`: post the form; only an ok response shows the
      success modal, resets the form and reloads the lists. Any other
      outcome leaves the page as it was. `today` is the date the reset
      form gets. */
  function SubmitBlog(s: AdminState, server: Server, now: int, today: string, online: bool): (r: (AdminState, Server))
    ensures r.1.db == server.db && r.1.videos == server.videos && r.1.reachable == server.reachable
    ensures !BlogFormSubmittable(s.blogForm) || !online ==> r == (s, server)
    ensures BlogFormSubmittable(s.blogForm) && online ==>
      var p := BlogsApi.Post(server.blogs, BlogRequest(s.blogForm), now, server.reachable);
      && r.1.blogs == p.store
      && (p.reply.Ok() ==>
            && r.0.blogForm == EmptyBlogForm(today)
            && r.0.showBlogSuccess
            && r.0.success.title == s.blogForm.title
            && r.0 == FetchData(s.(blogForm := EmptyBlogForm(today), showBlogSuccess := true,
                                   success := BlogSuccess(s.blogForm.title)), r.1, online))
      && (!p.reply.Ok() ==> r.0 == s)
  {
    if !BlogFormSubmittable(s.blogForm) || !online then (s, server)
    else
      var p := BlogsApi.Post(server.blogs, BlogRequest(s.blogForm), now, server.reachable);
      var server' := server.(blogs := p.store);
      if p.reply.Ok() then
        var s' := s.(blogForm := EmptyBlogForm(today), showBlogSuccess := true,
                     success := BlogSuccess(s.blogForm.title));
        (FetchData(s', server', online), server')
      else (s, server')
  }

  /** A filled-in form sent to a working server is published: the new post
      is stored with the form's fields, the form is cleared and the counter
      goes up by one. */
  lemma {:induction false} FilledBlogFormPublishes(s: AdminState, server: Server, now: int, today: string)
    requires BlogFormSubmittable(s.blogForm) && s.blogForm.date != ""
    requires server.reachable && ValidServer(server) && s.auth.authChecked
    ensures var (s', server') := SubmitBlog(s, server, now, today, true);
            && |server'.blogs.rows| == |server.blogs.rows| + 1
            && server'.blogs.rows[|server.blogs.rows|].data ==
                 BlogsApi.Blog(s.blogForm.title, s.blogForm.description, s.blogForm.date)
            && s'.blogForm == EmptyBlogForm(today) && s'.showBlogSuccess
            && Render(s').blogPosts == |server.blogs.rows| + 1
  {
    var req := BlogRequest(s.blogForm);
    assert !BlogsApi.MissingRequired(req.fields);
    var p := BlogsApi.Post(server.blogs, req, now, true);
    assert p.reply.Ok();
    var server' := server.(blogs := p.store);
    var s1 := s.(blogForm := EmptyBlogForm(today), showBlogSuccess := true,
                 success := BlogSuccess(s.blogForm.title));
    assert SubmitBlog(s, server, now, today, true) == (FetchData(s1, server', true), server');
    assert |p.store.rows| == |server.blogs.rows| + 1;
    assert ValidServer(server');
    CountersMatchStore(s1, server');
  }

  /** A rejected post, from an empty date or a failing store, keeps the
      form as typed so nothing is lost. */
  lemma RejectedBlogKeepsForm(s: AdminState, server: Server, now: int, today: string)
    requires BlogFormSubmittable(s.blogForm)
    requires s.blogForm.date == "" || !server.reachable
    ensures SubmitBlog(s, server, now, today, true).0 == s
    ensures SubmitBlog(s, server, now, today, true).1 == server
  {
    var req := BlogRequest(s.blogForm);
    if s.blogForm.date == "" {
      assert BlogsApi.MissingRequired(req.fields);
    }
  }

  // ---------------------------------------------------------------------
  // Creating a video

  function VideoRequest(form: VideoForm): (req: RequestBody)
    ensures req.JsonObject?
    ensures Field(req.fields, "title") == Str(form.title)
    ensures Field(req.fields, "youtubeUrl") == Str(form.youtubeUrl)
    ensures Field(req.fields, "description") == Str(form.description)
  {
    JsonObject(map["title" := Str(form.title), "youtubeUrl" := Str(form.youtubeUrl), "description" := Str(form.description)])
  }

  function VideoSuccess(title: string): SuccessContent
  {
    SuccessContent(title, "video",
      "Your video \"" + title + "\" has been successfully added and is now available on the website.")
  }

  /** All three video inputs are `required`. */
  predicate VideoFormSubmittable(form: VideoForm)
  {
    form.title != "" && form.youtubeUrl != "" && form.description != ""
  }

  /** `handleVideoSubmit`, shaped like the blog handler. */
  function SubmitVideo(s: AdminState, server: Server, now: int, online: bool): (r: (AdminState, Server))
    ensures r.1.db == server.db && r.1.blogs == server.blogs && r.1.reachable == server.reachable
    ensures !VideoFormSubmittable(s.videoForm) || !online ==> r == (s, server)
    ensures VideoFormSubmittable(s.videoForm) && online ==>
      var p := VideosApi.Post(server.videos, VideoRequest(s.videoForm), now, server.reachable);
      && r.1.videos == p.store
      && (p.reply.Ok() ==>
            && r.0.videoForm == EmptyVideoForm
            && r.0.showVideoSuccess
            && r.0.success.title == s.videoForm.title
            && r.0 == FetchData(s.(videoForm := EmptyVideoForm, showVideoSuccess := true,
                                   success := VideoSuccess(s.videoForm.title)), r.1, online))
      && (!p.reply.Ok() ==> r.0 == s)
  {
    if !VideoFormSubmittable(s.videoForm) || !online then (s, server)
    else
      var p := VideosApi.Post(server.videos, VideoRequest(s.videoForm), now, server.reachable);
      var server' := server.(videos := p.store);
      if p.reply.Ok() then
        var s' := s.(videoForm := EmptyVideoForm, showVideoSuccess := true,
                     success := VideoSuccess(s.videoForm.title));
        (FetchData(s', server', online), server')
      else (s, server')
  }

  /** A filled-in video form on a working server is always accepted: the
      browser has already made every field non-empty. */
  lemma {:induction false} FilledVideoFormAdds(s: AdminState, server: Server, now: int)
    requires VideoFormSubmittable(s.videoForm)
    requires server.reachable && ValidServer(server) && s.auth.authChecked
    ensures var (s', server') := SubmitVideo(s, server, now, true);
            && |server'.videos.rows| == |server.videos.rows| + 1
            && server'.videos.rows[|server.videos.rows|].data ==
                 VideosApi.Video(s.videoForm.title, s.videoForm.youtubeUrl, s.videoForm.description)
            && s'.videoForm == EmptyVideoForm && s'.showVideoSuccess
            && Render(s').videoCount == |server.videos.rows| + 1
  {
    var req := VideoRequest(s.videoForm);
    assert !VideosApi.MissingRequired(req.fields);
    var p := VideosApi.Post(server.videos, req, now, true);
    assert p.reply.Ok();
    var server' := server.(videos := p.store);
    var s1 := s.(videoForm := EmptyVideoForm, showVideoSuccess := true,
                 success := VideoSuccess(s.videoForm.title));
    assert SubmitVideo(s, server, now, true) == (FetchData(s1, server', true), server');
    assert |p.store.rows| == |server.videos.rows| + 1;
    assert ValidServer(server');
    CountersMatchStore(s1, server');
  }

  /** Which success modal a close button belongs to. */
  datatype ModalKind = BlogModal | VideoModal

  /** A success modal's close button hides that modal only. */
  function CloseSuccess(s: AdminState, kind: ModalKind): (r: AdminState)
    ensures kind == BlogModal ==> !r.showBlogSuccess && r.showVideoSuccess == s.showVideoSuccess
    ensures kind == VideoModal ==> !r.showVideoSuccess && r.showBlogSuccess == s.showBlogSuccess
    ensures r.(showBlogSuccess := s.showBlogSuccess, showVideoSuccess := s.showVideoSuccess) == s
  {
    match kind
    case BlogModal => s.(showBlogSuccess := false)
    case VideoModal => s.(showVideoSuccess := false)
  }

  // ---------------------------------------------------------------------
  // Deleting

  /** `deleteBlog`: nothing happens unless the dialog is confirmed; an ok
      response reloads the lists. */
  function DeleteBlog(s: AdminState, server: Server, id: nat, confirmed: bool, online: bool): (r: (AdminState, Server))
    ensures !confirmed || !online ==> r == (s, server)
    ensures r.1.db == server.db && r.1.videos == server.videos && r.1.reachable == server.reachable
    ensures confirmed && online ==>
      var d := BlogsApi.Delete(server.blogs, id, server.reachable);
      && r.1.blogs == d.store
      && r.0 == (if d.reply.Ok() then FetchData(s, r.1, online) else s)
  {
    if !confirmed || !online then (s, server)
    else
      var d := BlogsApi.Delete(server.blogs, id, server.reachable);
      var server' := server.(blogs := d.store);
      if d.reply.Ok() then (FetchData(s, server', online), server') else (s, server')
  }

  /** `deleteVideo`. */
  function DeleteVideo(s: AdminState, server: Server, id: nat, confirmed: bool, online: bool): (r: (AdminState, Server))
    ensures !confirmed || !online ==> r == (s, server)
    ensures r.1.db == server.db && r.1.blogs == server.blogs && r.1.reachable == server.reachable
    ensures confirmed && online ==>
      var d := VideosApi.Delete(server.videos, id, server.reachable);
      && r.1.videos == d.store
      && r.0 == (if d.reply.Ok() then FetchData(s, r.1, online) else s)
  {
    if !confirmed || !online then (s, server)
    else
      var d := VideosApi.Delete(server.videos, id, server.reachable);
      var server' := server.(videos := d.store);
      if d.reply.Ok() then (FetchData(s, server', online), server') else (s, server')
  }

  /** A confirmed delete of a listed post on a working server removes it
      from the store and the counter goes down by one; a cancelled one
      changes nothing. */
  lemma ConfirmedDeleteRemoves(s: AdminState, server: Server, id: nat)
    requires HasId(server.blogs, id) && server.reachable && ValidServer(server) && s.auth.authChecked
    ensures var (s', server') := DeleteBlog(s, server, id, true, true);
            && !HasId(server'.blogs, id)
            && Render(s').blogPosts == |server.blogs.rows| - 1
    ensures DeleteBlog(s, server, id, false, true) == (s, server)
  {
    var (s', server') := DeleteBlog(s, server, id, true, true);
    assert ValidServer(server');
    CountersMatchStore(s, server');
  }

  /** The same for videos. */
  lemma ConfirmedVideoDeleteRemoves(s: AdminState, server: Server, id: nat)
    requires HasId(server.videos, id) && server.reachable && ValidServer(server) && s.auth.authChecked
    ensures var (s', server') := DeleteVideo(s, server, id, true, true);
            && !HasId(server'.videos, id)
            && Render(s').videoCount == |server.videos.rows| - 1
    ensures DeleteVideo(s, server, id, false, true) == (s, server)
  {
    var (s', server') := DeleteVideo(s, server, id, true, true);
    assert !HasId(server'.videos, id);
    assert ValidServer(server');
    CountersMatchStore(s, server');
  }
}
