/** The bookings route: `POST` validates the six required fields and
    creates one booking joined with its exam type and time slot; `GET`
    lists every booking, joined, newest first. */
module BookingsApi {

  import opened Options
  import opened JsValues
  import opened Http
  import opened Tables

  datatype ExamType = ExamType(id: string, name: string, duration: string, fee: string)

  datatype TimeSlot = TimeSlot(id: string, time: string)

  /** A booking row: two references into the reference tables, the date as
      a timestamp, the contact fields and the optional notes. */
  datatype Booking = Booking(
    examTypeId: string,
    timeSlotId: string,
    date: int,
    name: string,
    email: string,
    phone: string,
    notes: Option<string>)

  /** The three tables the route touches. */
  datatype Db = Db(examTypes: seq<ExamType>, timeSlots: seq<TimeSlot>, bookings: Table<Booking>)

  /** A booking as returned with `include: { examType: true, timeSlot: true }`. */
  datatype BookingView = BookingView(row: Row<Booking>, examType: ExamType, timeSlot: TimeSlot)

  const MissingFields := "Missing required fields"
  const CreateFailed := "Failed to create booking"
  const FetchFailed := "Failed to fetch bookings"

  /** The fields whose falsy value rejects a request. */
  const RequiredKeys: seq<string> := ["examTypeId", "timeSlotId", "date", "name", "email", "phone"]

  predicate MissingRequired(fields: map<string, JsValue>)
  {
    exists i :: 0 <= i < |RequiredKeys| && !Truthy(Field(fields, RequiredKeys[i]))
  }

  /** The keys the two joins look up. */
  function ExamTypeKey(e: ExamType): string { e.id }
  function TimeSlotKey(s: TimeSlot): string { s.id }

  /** `notes` is an optional string column: absent and `null` store no
      notes, a string is stored as given, anything else is refused. */
  function NotesValue(v: JsValue): (r: Option<Option<string>>)
    ensures (v.Undefined? || v.Null?) ==> r == Some(None)
    ensures v.Str? ==> r == Some(Some(v.s))
    ensures r.None? <==> !(v.Undefined? || v.Null? || v.Str?)
  {
    match v
    case Undefined => Some(None)
    case Null => Some(None)
    case Str(s) => Some(Some(s))
    case _ => None
  }

  /** The `data` of the create call, or `None` when the ORM would refuse a
      value: a non-string id or contact field, a notes value that is not a
      string, or a date that `new Date(date)` cannot turn into a valid
      timestamp (`toDate` stands for that conversion). */
  function BookingData(fields: map<string, JsValue>, toDate: JsValue -> Option<int>): (r: Option<Booking>)
    ensures r.Some? ==>
      && Field(fields, "examTypeId") == Str(r.value.examTypeId)
      && Field(fields, "timeSlotId") == Str(r.value.timeSlotId)
      && toDate(Field(fields, "date")) == Some(r.value.date)
      && Field(fields, "name") == Str(r.value.name)
      && Field(fields, "email") == Str(r.value.email)
      && Field(fields, "phone") == Str(r.value.phone)
      && NotesValue(Field(fields, "notes")) == Some(r.value.notes)
    ensures r.None? <==>
      || !Field(fields, "examTypeId").Str?
      || !Field(fields, "timeSlotId").Str?
      || toDate(Field(fields, "date")).None?
      || !Field(fields, "name").Str?
      || !Field(fields, "email").Str?
      || !Field(fields, "phone").Str?
      || NotesValue(Field(fields, "notes")).None?
  {
    var examTypeId := AsString(Field(fields, "examTypeId"));
    var timeSlotId := AsString(Field(fields, "timeSlotId"));
    var date := toDate(Field(fields, "date"));
    var name := AsString(Field(fields, "name"));
    var email := AsString(Field(fields, "email"));
    var phone := AsString(Field(fields, "phone"));
    var notes := NotesValue(Field(fields, "notes"));
    if examTypeId.Some? && timeSlotId.Some? && date.Some? && name.Some? && email.Some? && phone.Some? && notes.Some? then
      Some(Booking(examTypeId.value, timeSlotId.value, date.value, name.value, email.value, phone.value, notes.value))
    else None
  }

  /** The create succeeds: the data is well-typed and both references
      resolve. */
  predicate Creatable(db: Db, fields: map<string, JsValue>, toDate: JsValue -> Option<int>)
  {
    match BookingData(fields, toDate)
    case None => false
    case Some(b) => FindBy(db.examTypes, ExamTypeKey, b.examTypeId).Some? && FindBy(db.timeSlots, TimeSlotKey, b.timeSlotId).Some?
  }

  /** `POST /api/bookings`. `now` is the creation time the store stamps;
      `reachable` is false when the database cannot be reached. */
  function Post(db: Db, req: RequestBody, now: int, toDate: JsValue -> Option<int>, reachable: bool): (r: Handled<BookingView, Db>)
    // The 400 answer is given exactly for a parsed body with a falsy required field.
    ensures r.reply.status == StatusBadRequest <==> req.JsonObject? && MissingRequired(req.fields)
    ensures r.reply.status == StatusBadRequest ==> r.reply.body == ErrorMessage(MissingFields)
    // Any failure of parsing or of the create is a 500 with a fixed message.
    ensures r.reply.status == StatusServerError <==> !r.reply.Ok() && r.reply.status != StatusBadRequest
    ensures r.reply.status == StatusServerError ==> r.reply.body == ErrorMessage(CreateFailed)
    // A rejected request writes nothing.
    ensures !r.reply.Ok() ==> r.store == db
    // Success exactly when the body is complete, the store is up and the create is accepted.
    ensures r.reply.Ok() <==>
      req.JsonObject? && !MissingRequired(req.fields) && reachable && Creatable(db, req.fields, toDate)
    // On success exactly one row is appended, and it is what is returned.
    ensures r.reply.Ok() ==>
      && r.reply.status == StatusOk
      && r.reply.body.Data?
      && var v := r.reply.body.value;
      && r.store.examTypes == db.examTypes
      && r.store.timeSlots == db.timeSlots
      && r.store.bookings.rows == db.bookings.rows + [v.row]
      && v.row.createdAt == now
      && BookingData(req.fields, toDate) == Some(v.row.data)
      && v.examType in db.examTypes && v.examType.id == v.row.data.examTypeId
      && v.timeSlot in db.timeSlots && v.timeSlot.id == v.row.data.timeSlotId
  {
    match req
    case NotJson => Handled(Failure(StatusServerError, CreateFailed), db)
    case JsonNull => Handled(Failure(StatusServerError, CreateFailed), db)
    case JsonObject(fields) =>
      if || !Truthy(Field(fields, "examTypeId"))
         || !Truthy(Field(fields, "timeSlotId"))
         || !Truthy(Field(fields, "date"))
         || !Truthy(Field(fields, "name"))
         || !Truthy(Field(fields, "email"))
         || !Truthy(Field(fields, "phone"))
      then
        assert MissingRequired(fields) by {
          if !Truthy(Field(fields, "examTypeId")) { assert RequiredKeys[0] == "examTypeId"; }
          else if !Truthy(Field(fields, "timeSlotId")) { assert RequiredKeys[1] == "timeSlotId"; }
          else if !Truthy(Field(fields, "date")) { assert RequiredKeys[2] == "date"; }
          else if !Truthy(Field(fields, "name")) { assert RequiredKeys[3] == "name"; }
          else if !Truthy(Field(fields, "email")) { assert RequiredKeys[4] == "email"; }
          else { assert RequiredKeys[5] == "phone"; }
        }
        Handled(Failure(StatusBadRequest, MissingFields), db)
      else
        assert !MissingRequired(fields) by {
          forall i | 0 <= i < |RequiredKeys| ensures Truthy(Field(fields, RequiredKeys[i])) {
            assert RequiredKeys[i] in ["examTypeId", "timeSlotId", "date", "name", "email", "phone"];
          }
        }
        match BookingData(fields, toDate)
        case None => Handled(Failure(StatusServerError, CreateFailed), db)
        case Some(booking) =>
          var examType := FindBy(db.examTypes, ExamTypeKey, booking.examTypeId);
          var timeSlot := FindBy(db.timeSlots, TimeSlotKey, booking.timeSlotId);
          if !reachable || examType.None? || timeSlot.None? then
            Handled(Failure(StatusServerError, CreateFailed), db)
          else
            var (bookings, row) := Insert(db.bookings, booking, now);
            Handled(Success(BookingView(row, examType.value, timeSlot.value)), db.(bookings := bookings))
  }

  // ---------------------------------------------------------------------
  // GET

  /** The rows underneath a listing. */
  function RowsOf(views: seq<BookingView>): (rows: seq<Row<Booking>>)
    ensures |rows| == |views|
    ensures forall i :: 0 <= i < |views| ==> rows[i] == views[i].row
  {
    seq(|views|, i requires 0 <= i < |views| => views[i].row)
  }

  /** Both references of a row resolve. */
  predicate Resolves(db: Db, row: Row<Booking>)
  {
    FindBy(db.examTypes, ExamTypeKey, row.data.examTypeId).Some? && FindBy(db.timeSlots, TimeSlotKey, row.data.timeSlotId).Some?
  }

  /** The join a row gets in a listing. */
  function Joined(db: Db, row: Row<Booking>): (v: BookingView)
    requires Resolves(db, row)
    ensures v.row == row
    ensures v.examType in db.examTypes && v.examType.id == row.data.examTypeId
    ensures v.timeSlot in db.timeSlots && v.timeSlot.id == row.data.timeSlotId
  {
    BookingView(row, FindBy(db.examTypes, ExamTypeKey, row.data.examTypeId).value,
                FindBy(db.timeSlots, TimeSlotKey, row.data.timeSlotId).value)
  }

  /** Joins every row, or fails when a required relation comes back empty
      (the ORM reports an inconsistent query result). */
  function JoinAll(db: Db, rows: seq<Row<Booking>>): (r: Option<seq<BookingView>>)
    ensures r.Some? <==> forall i :: 0 <= i < |rows| ==> Resolves(db, rows[i])
    ensures r.Some? ==> |r.value| == |rows| && forall i :: 0 <= i < |rows| ==> r.value[i] == Joined(db, rows[i])
  {
    if |rows| == 0 then Some([])
    else if !Resolves(db, rows[0]) then None
    else match JoinAll(db, rows[1..])
      case None =>
        assert !Resolves(db, rows[1..][0]) || exists i :: 0 <= i < |rows[1..]| && !Resolves(db, rows[1..][i]);
        None
      case Some(rest) => Some([Joined(db, rows[0])] + rest)
  }

  /** Referential integrity of the store, plus unique ids. */
  predicate Valid(db: Db)
  {
    && Tables.Valid(db.bookings)
    && forall i :: 0 <= i < |db.bookings.rows| ==> Resolves(db, db.bookings.rows[i])
  }

  /** In a valid store every row of any rearrangement of the bookings
      resolves. */
  lemma ValidRowsResolve(db: Db, rows: seq<Row<Booking>>)
    requires multiset(rows) == multiset(db.bookings.rows)
    ensures Valid(db) ==> forall i :: 0 <= i < |rows| ==> Resolves(db, rows[i])
  {
    if Valid(db) {
      forall i | 0 <= i < |rows| ensures Resolves(db, rows[i]) {
        assert rows[i] in multiset(db.bookings.rows);
      }
    }
  }

  /** `GET /api/bookings`. */
  function Get(db: Db, reachable: bool): (r: Reply<seq<BookingView>>)
    ensures !reachable ==> r == Failure(StatusServerError, FetchFailed)
    ensures !r.Ok() ==> r == Failure(StatusServerError, FetchFailed)
    ensures reachable && Valid(db) ==> r.Ok()
    ensures r.Ok() ==>
      && r.body.Data?
      && var rows := RowsOf(r.body.value);
      && multiset(rows) == multiset(db.bookings.rows)
      && NewestFirstOrder(rows)
      && forall i :: 0 <= i < |r.body.value| ==> Resolves(db, rows[i]) && r.body.value[i] == Joined(db, rows[i])
  {
    if !reachable then Failure(StatusServerError, FetchFailed)
    else
      var sorted := NewestFirst(db.bookings.rows);
      ListingIsOrderedPermutation(db.bookings.rows);
      ValidRowsResolve(db, sorted);
      match JoinAll(db, sorted)
      case None => Failure(StatusServerError, FetchFailed)
      case Some(views) =>
        assert RowsOf(views) == sorted;
        Success(views)
  }

  // ---------------------------------------------------------------------
  // Properties relating several calls

  /** A successful POST keeps the store valid. */
  lemma PostPreservesValid(db: Db, req: RequestBody, now: int, toDate: JsValue -> Option<int>, reachable: bool)
    requires Valid(db)
    ensures Valid(Post(db, req, now, toDate, reachable).store)
  {
    var r := Post(db, req, now, toDate, reachable);
    if r.reply.Ok() {
      var v := r.reply.body.value;
      var (t, row) := Insert(db.bookings, v.row.data, now);
      assert r.store.bookings.rows == t.rows;
      assert Resolves(r.store, v.row);
      forall i | 0 <= i < |r.store.bookings.rows| ensures Resolves(r.store, r.store.bookings.rows[i]) {
        if i < |db.bookings.rows| {
          assert r.store.bookings.rows[i] == db.bookings.rows[i];
        }
      }
    }
  }

  /** A booking created by POST is listed by the next GET with the same
      fields and the same joined exam type and time slot. */
  lemma {:induction false} CreatedBookingIsListed(db: Db, req: RequestBody, now: int, toDate: JsValue -> Option<int>)
    requires Valid(db)
    requires Post(db, req, now, toDate, true).reply.Ok()
    ensures var p := Post(db, req, now, toDate, true);
            var g := Get(p.store, true);
            g.Ok() && p.reply.body.value in g.body.value
  {
    var p := Post(db, req, now, toDate, true);
    PostPreservesValid(db, req, now, toDate, true);
    var v := p.reply.body.value;
    assert p.store.bookings.rows[|db.bookings.rows|] == v.row;
    StoredRowIsListed(p.store, v.row);
    assert p.store.examTypes == db.examTypes && p.store.timeSlots == db.timeSlots;
  }

  /** Every stored booking appears, joined, in the listing. */
  lemma StoredRowIsListed(db: Db, row: Row<Booking>)
    requires Valid(db) && row in db.bookings.rows
    ensures Get(db, true).Ok() && Resolves(db, row) && Joined(db, row) in Get(db, true).body.value
  {
    var g := Get(db, true);
    var rows := RowsOf(g.body.value);
    assert row in multiset(db.bookings.rows);
    assert row in multiset(rows);
    var i :| 0 <= i < |rows| && rows[i] == row;
    assert g.body.value[i] == Joined(db, row);
  }

  /** Whether a POST succeeds depends on the store only through its
      reference tables: there is no uniqueness check, so a booking for an
      exam type, slot and date that are already booked is accepted. */
  lemma NoUniquenessCheck(db1: Db, db2: Db, req: RequestBody, now: int, toDate: JsValue -> Option<int>, reachable: bool)
    requires db1.examTypes == db2.examTypes && db1.timeSlots == db2.timeSlots
    ensures Post(db1, req, now, toDate, reachable).reply.Ok() == Post(db2, req, now, toDate, reachable).reply.Ok()
  {
  }

  /** Two identical requests in a row both succeed and both rows are kept. */
  lemma {:induction false} DuplicateBookingsAccepted(db: Db, req: RequestBody, now1: int, now2: int, toDate: JsValue -> Option<int>)
    requires Post(db, req, now1, toDate, true).reply.Ok()
    ensures var p1 := Post(db, req, now1, toDate, true);
            var p2 := Post(p1.store, req, now2, toDate, true);
            p2.reply.Ok() && |p2.store.bookings.rows| == |db.bookings.rows| + 2
            && p2.store.bookings.rows[|db.bookings.rows|].data == p2.store.bookings.rows[|db.bookings.rows| + 1].data
  {
    var p1 := Post(db, req, now1, toDate, true);
    NoUniquenessCheck(db, p1.store, req, now2, toDate, true);
    var p2 := Post(p1.store, req, now2, toDate, true);
    assert p2.store.bookings.rows == db.bookings.rows + [p1.reply.body.value.row] + [p2.reply.body.value.row];
  }

  /** The server never compares the booking date with the current time: the
      outcome does not depend on when the request arrives, so past dates
      are accepted. */
  lemma PastDatesAccepted(db: Db, req: RequestBody, now1: int, now2: int, toDate: JsValue -> Option<int>, reachable: bool)
    ensures Post(db, req, now1, toDate, reachable).reply.status == Post(db, req, now2, toDate, reachable).reply.status
  {
  }

  /** Leaving out `notes` never turns a success into a rejection, and the
      stored notes are then empty; every other field is stored the same. */
  lemma NotesOptional(db: Db, fields: map<string, JsValue>, now: int, toDate: JsValue -> Option<int>, reachable: bool)
    requires Post(db, JsonObject(fields), now, toDate, reachable).reply.Ok()
    ensures var without := fields - {"notes"};
            var r1 := Post(db, JsonObject(fields), now, toDate, reachable);
            var r2 := Post(db, JsonObject(without), now, toDate, reachable);
            && r2.reply.Ok()
            && r2.reply.body.value.row.data == r1.reply.body.value.row.data.(notes := None)
  {
    var without := fields - {"notes"};
    forall k | k != "notes" ensures Field(without, k) == Field(fields, k) { }
    assert Field(without, "notes") == Undefined;
    assert !MissingRequired(without) by {
      assert !MissingRequired(fields);
      forall i | 0 <= i < |RequiredKeys| ensures Truthy(Field(without, RequiredKeys[i])) {
        assert RequiredKeys[i] != "notes";
        assert Truthy(Field(fields, RequiredKeys[i]));
      }
    }
  }
}
