/** The reading handlers of pkg/server/reading.go: the JSON endpoints behind
    `/v1/reading`. Each handler is a function from the request's parts (the claims the
    authentication middleware left in the context, the bound body or query, the path
    parameter) and the database to the replies it writes.

    A handler can write more than once: gin sends the status of the first write and
    appends the later bodies. Handlers that always stop after a write return one `Reply`;
    the as-written update handler returns every write. */
module Handlers {
  import opened Base
  import GoStrings
  import Api
  import Auth
  import Pagination
  import Epistles
  import Fetch

  const StatusOK := 200
  const StatusCreated := 201
  const StatusBadRequest := 400
  const StatusNotFound := 404
  const StatusInternalServerError := 500
  const StatusNotImplemented := 501

  /** `api.Reading`: a reading as the API shows it, flattened with its epistle. */
  datatype Reading = Reading(
    id: Int64,
    status: string,
    link: string,
    title: string,
    description: string,
    favicon: string,
    started: Time,
    finished: Time,
    archived: Time,
    created: Time,
    modified: Time)

  /** `api.PageQuery`; the page size is bound but no handler reads it. */
  datatype PageQuery = PageQuery(pageSize: nat, pageToken: string)

  datatype ReadingPage = ReadingPage(readings: seq<Reading>, nextPageToken: string, prevPageToken: string)

  /** A reply body: `api.ErrorResponse` of a message or of an error, or a payload. */
  datatype Body = Message(text: string) | ErrorOf(err: Error) | One(reading: Reading) | Page(page: ReadingPage) | NoBody

  datatype Reply = Reply(status: int, body: Body)

  /** The API view of a model reading whose epistle is cached. Every handler asks the
      reading for its epistle without reset, and every reading they hold has one cached,
      so the cache is what they show (`Epistles.EpistleOf` returns it untouched). */
  function Item(r: Epistles.Reading): (item: Reading)
    requires r.epistle.Some?
    ensures item.id == r.epistleID && item.status == r.status
    ensures item.link == r.epistle.value.link && item.title == r.epistle.value.title.s
    ensures item.description == r.epistle.value.description.s && item.favicon == r.epistle.value.favicon.s
    ensures item.started == Api.FromSQL(r.started) && item.finished == Api.FromSQL(r.finished)
    ensures item.archived == Api.FromSQL(r.archived)
    ensures item.created == r.created && item.modified == r.modified
  {
    var e := r.epistle.value;
    Reading(r.epistleID, r.status, e.link, e.title.s, e.description.s, e.favicon.s,
      Api.FromSQL(r.started), Api.FromSQL(r.finished), Api.FromSQL(r.archived), r.created, r.modified)
  }

  function Items(rs: seq<Epistles.Reading>): (r: seq<Reading>)
    requires forall i :: 0 <= i < |rs| ==> rs[i].epistle.Some?
    ensures |r| == |rs| && forall i :: 0 <= i < |rs| ==> r[i] == Item(rs[i])
  {
    if |rs| == 0 then [] else [Item(rs[0])] + Items(rs[1..])
  }

  // ---------------------------------------------------------------------------------
  // ListReadings

  /** The cursor of the page a token names: none without a token. */
  function CurrentPage(token: string, now: Time): (r: Result<Option<Pagination.Cursor>>)
    ensures token == "" ==> r == Ok(None)
    ensures token != "" && Pagination.Parse(token, now).Ok? ==> r == Ok(Some(Pagination.Parse(token, now).value))
    ensures token != "" && Pagination.Parse(token, now).Err? ==> r == Err(Pagination.Parse(token, now).error)
  {
    if token == "" then Ok(None)
    else
      match Pagination.Parse(token, now)
      case Ok(c) => Ok(Some(c))
      case Err(e) => Err(e)
  }

  /** A token for the cursor, or "" without one. */
  function TokenOf(c: Option<Pagination.Cursor>, now: Time): (r: Result<string>)
    ensures c.None? ==> r == Ok("")
    ensures c.Some? ==> r == Pagination.PageToken(c.value, now)
  {
    if c.None? then Ok("") else Pagination.PageToken(c.value, now)
  }

  /** `ListReadings`: one page of the user's readings with the tokens of the next page
      (when there is one) and of the previous page (when a page was asked for). `rows` is
      the database's answer to the list query. */
  function ListReadings(ctx: Auth.ContextValue, bind: Result<PageQuery>, s: Epistles.Store, now: Time,
                        rows: Result<seq<Epistles.ListRow>>): (r: Reply)
    ensures bind.Err? ==> r == Reply(StatusBadRequest, Message("could not parse page query"))
    ensures bind.Ok? && Auth.GetUserID(ctx).err.Some? ==>
      r == Reply(StatusInternalServerError, Message("could not process request"))
    ensures bind.Ok? && Auth.GetUserID(ctx).err.None? && CurrentPage(bind.value.pageToken, now).Err? ==>
      r == Reply(StatusBadRequest, ErrorOf(CurrentPage(bind.value.pageToken, now).error))
    ensures r.status == StatusOK ==> bind.Ok? && Auth.GetUserID(ctx).err.None? && CurrentPage(bind.value.pageToken, now).Ok?
    ensures r.status == StatusOK ==>
      (var cur := CurrentPage(bind.value.pageToken, now).value;
       var l := Epistles.List(s, Auth.GetUserID(ctx).value, cur, now, rows);
       && l.Ok?
       && r.body.Page?
       && r.body.page.readings == Items(l.value.0)
       && (r.body.page.nextPageToken != "" <==> l.value.1.Some?)
       && (r.body.page.prevPageToken != "" <==> cur.Some?))
  {
    if bind.Err? then Reply(StatusBadRequest, Message("could not parse page query"))
    else
      var uid := Auth.GetUserID(ctx);
      if uid.err.Some? then Reply(StatusInternalServerError, Message("could not process request"))
      else
        match CurrentPage(bind.value.pageToken, now)
        case Err(e) => Reply(StatusBadRequest, ErrorOf(e))
        case Ok(cur) =>
          match Epistles.List(s, uid.value, cur, now, rows)
          case Err(_) => Reply(StatusInternalServerError, Message("could not fetch readings"))
          case Ok((readings, next)) =>
            match TokenOf(next, now)
            case Err(_) => Reply(StatusInternalServerError, Message("could not fetch readings"))
            case Ok(nextToken) =>
              match TokenOf(if cur.Some? then Some(Pagination.PrevPage(cur.value, now)) else None, now)
              case Err(_) => Reply(StatusInternalServerError, Message("could not fetch readings"))
              case Ok(prevToken) =>
                Reply(StatusOK, Page(ReadingPage(Items(readings), nextToken, prevToken)))
  }

  /** The clock is within the range where fresh cursors get an expiry. */
  predicate SaneClock(now: Time) {
    Millisecond <= now + Pagination.CursorDuration
    && (now + Pagination.CursorDuration) / Millisecond <= MaxInt64
  }

  /** Listing succeeds exactly when the query binds, the user is known, the token (if
      any) parses and the database answers: the cursors the handler makes itself always
      give tokens. */
  lemma ListReadingsSucceeds(ctx: Auth.ContextValue, bind: Result<PageQuery>, s: Epistles.Store, now: Time,
                             rows: Result<seq<Epistles.ListRow>>)
    requires SaneClock(now)
    ensures ListReadings(ctx, bind, s, now, rows).status == StatusOK <==>
      && bind.Ok?
      && Auth.GetUserID(ctx).err.None?
      && CurrentPage(bind.value.pageToken, now).Ok?
      && Epistles.List(s, Auth.GetUserID(ctx).value, CurrentPage(bind.value.pageToken, now).value, now, rows).Ok?
  {
    if bind.Ok? && Auth.GetUserID(ctx).err.None? && CurrentPage(bind.value.pageToken, now).Ok? {
      var uid := Auth.GetUserID(ctx).value;
      var cur := CurrentPage(bind.value.pageToken, now).value;
      if Epistles.List(s, uid, cur, now, rows).Ok? {
        TokensIssue(s, uid, cur, now, rows);
      }
    }
  }

  /** Both cursors the handler makes from a listed page give tokens. */
  lemma TokensIssue(s: Epistles.Store, uid: Int64, cur: Option<Pagination.Cursor>, now: Time,
                    rows: Result<seq<Epistles.ListRow>>)
    requires SaneClock(now)
    requires Epistles.List(s, uid, cur, now, rows).Ok?
    ensures TokenOf(Epistles.List(s, uid, cur, now, rows).value.1, now).Ok?
    ensures TokenOf(if cur.Some? then Some(Pagination.PrevPage(cur.value, now)) else None, now).Ok?
  {
    var (readings, next) := Epistles.List(s, uid, cur, now, rows).value;
    if next.Some? {
      var size := if cur.Some? then cur.value.size else Pagination.DefaultPageSize;
      var n := Pagination.New(readings[0].epistleID, readings[|readings| - 1].epistleID, size, now);
      assert next.value == n;
      Pagination.NewCursorUsable(n.start, n.end, size, now, now);
    }
    PrevTokenIssues(cur, now);
  }

  /** The previous-page cursor the handler makes from a requested page gives a token. */
  lemma PrevTokenIssues(cur: Option<Pagination.Cursor>, now: Time)
    requires SaneClock(now)
    ensures TokenOf(if cur.Some? then Some(Pagination.PrevPage(cur.value, now)) else None, now).Ok?
  {
    if cur.Some? {
      var p := Pagination.PrevPage(cur.value, now);
      Pagination.NewCursorUsable(p.start, p.end, cur.value.size, now, now);
    }
  }

  // ---------------------------------------------------------------------------------
  // CreateReading

  /** The collaborators of `CreateReading` outside the handler: the build of
      `epistles.Create`, the driver's failures and next epistle ID while creating, and
      the page fetch, favicon check, update and commit outcomes of the sync that
      follows. */
  datatype CreateWorld = CreateWorld(
    build: Build,
    faults: Epistles.CreateFaults,
    newID: Int64,
    doc: Result<Fetch.Document>,
    check: (bool, Outcome),
    execErr: Outcome,
    commitErr: Outcome)

  /** The request is a link and nothing else the server fills in. */
  predicate OnlyLink(in_: Reading) {
    in_.id == 0 && in_.title == "" && in_.description == "" && in_.favicon == ""
  }

  /** `CreateReading`: creates the reading for the trimmed link, then syncs its epistle.
      A failed sync is only logged: the reply shows whatever the sync had set. */
  function CreateReading(ctx: Auth.ContextValue, bind: Result<Reading>, s: Epistles.Store, now: Time, w: CreateWorld): (r: (Reply, Epistles.Store))
    ensures bind.Err? ==> r == (Reply(StatusBadRequest, Message("could not parse reading input")), s)
    ensures bind.Ok? && GoStrings.TrimSpace(bind.value.link) == "" ==>
      r == (Reply(StatusBadRequest, Message("link required to create reading")), s)
    ensures bind.Ok? && GoStrings.TrimSpace(bind.value.link) != "" && !OnlyLink(bind.value) ==>
      r == (Reply(StatusBadRequest, Message("reading can only be created with a link")), s)
    ensures bind.Ok? && GoStrings.TrimSpace(bind.value.link) != "" && OnlyLink(bind.value) && Auth.GetUserID(ctx).err.Some? ==>
      r == (Reply(StatusInternalServerError, Message("could not process request")), s)
    ensures bind.Ok? && GoStrings.TrimSpace(bind.value.link) != "" && OnlyLink(bind.value) && Auth.GetUserID(ctx).err.None? ==>
      (var c := Epistles.Create(w.build, s, Auth.GetUserID(ctx).value, GoStrings.TrimSpace(bind.value.link), w.faults, w.newID, now).0;
       c.Err? ==> r == (Reply(if Is(c.error, AlreadyExists) then StatusBadRequest else StatusInternalServerError, ErrorOf(c.error)), s))
    ensures r.0.status != StatusCreated ==> r.1 == s
    ensures r.0.status == StatusCreated ==> r.0.body.One?
    ensures r.0.status in {StatusCreated, StatusBadRequest, StatusInternalServerError}
  {
    if bind.Err? then (Reply(StatusBadRequest, Message("could not parse reading input")), s)
    else
      var in_ := bind.value;
      var link := GoStrings.TrimSpace(in_.link);
      if link == "" then (Reply(StatusBadRequest, Message("link required to create reading")), s)
      else if !OnlyLink(in_) then (Reply(StatusBadRequest, Message("reading can only be created with a link")), s)
      else
        var uid := Auth.GetUserID(ctx);
        if uid.err.Some? then (Reply(StatusInternalServerError, Message("could not process request")), s)
        else
          match Epistles.Create(w.build, s, uid.value, link, w.faults, w.newID, now)
          case (Err(e), _) =>
            if Is(e, AlreadyExists) then (Reply(StatusBadRequest, ErrorOf(e)), s)
            else (Reply(StatusInternalServerError, ErrorOf(e)), s)
          case (Ok(created), s1) =>
            var (synced, s2, _) := Epistles.Sync(w.build, created.epistle.value, s1, w.doc, w.check, now, w.execErr, w.commitErr);
            (Reply(StatusCreated, One(Item(created.(epistle := Some(synced))))), s2)
  }

  /** A reading is created exactly when the request is a link alone, the user is known
      and the store creates it. */
  lemma CreateReadingSucceeds(ctx: Auth.ContextValue, bind: Result<Reading>, s: Epistles.Store, now: Time, w: CreateWorld)
    ensures CreateReading(ctx, bind, s, now, w).0.status == StatusCreated <==>
      && bind.Ok? && GoStrings.TrimSpace(bind.value.link) != "" && OnlyLink(bind.value)
      && Auth.GetUserID(ctx).err.None?
      && Epistles.Create(w.build, s, Auth.GetUserID(ctx).value, GoStrings.TrimSpace(bind.value.link), w.faults, w.newID, now).0.Ok?
  {
    if bind.Ok? && GoStrings.TrimSpace(bind.value.link) != "" && OnlyLink(bind.value) && Auth.GetUserID(ctx).err.None? {
      var link := GoStrings.TrimSpace(bind.value.link);
      var c := Epistles.Create(w.build, s, Auth.GetUserID(ctx).value, link, w.faults, w.newID, now);
      if c.0.Ok? {
        CreateReadingReply(ctx, bind.value, s, now, w);
      } else {
        var e := c.0.error;
        assert CreateReading(ctx, bind, s, now, w).0.status ==
          if Is(e, AlreadyExists) then StatusBadRequest else StatusInternalServerError;
      }
    }
  }

  /** A created reading's reply shows the created reading, for the trimmed link, with its
      epistle as the sync left it; the store is the one after the sync. */
  lemma CreateReadingReply(ctx: Auth.ContextValue, in_: Reading, s: Epistles.Store, now: Time, w: CreateWorld)
    requires GoStrings.TrimSpace(in_.link) != "" && OnlyLink(in_) && Auth.GetUserID(ctx).err.None?
    requires Epistles.Create(w.build, s, Auth.GetUserID(ctx).value, GoStrings.TrimSpace(in_.link), w.faults, w.newID, now).0.Ok?
    ensures var r := CreateReading(ctx, Ok(in_), s, now, w);
      var (created, s1) := Epistles.Create(w.build, s, Auth.GetUserID(ctx).value, GoStrings.TrimSpace(in_.link), w.faults, w.newID, now);
      var (synced, s2, _) := Epistles.Sync(w.build, created.value.epistle.value, s1, w.doc, w.check, now, w.execErr, w.commitErr);
      && r.0.status == StatusCreated
      && r.1 == s2
      && r.0.body == One(Item(created.value.(epistle := Some(synced))))
      && r.0.body.reading.link == GoStrings.TrimSpace(in_.link)
      && r.0.body.reading.id == created.value.epistleID
  {
    var link := GoStrings.TrimSpace(in_.link);
    var (created, s1) := Epistles.Create(w.build, s, Auth.GetUserID(ctx).value, link, w.faults, w.newID, now);
    var e := created.value.epistle.value;
    assert e == Epistles.GetOrCreateEpistle(s.epistles, link, w.faults.lookup, w.faults.insertEpistle, w.newID, now).0.value;
    var (synced, s2, _) := Epistles.Sync(w.build, e, s1, w.doc, w.check, now, w.execErr, w.commitErr);
    assert synced.link == e.link;
  }

  /** As written, the sync that follows a created reading never reaches the store: the
      handler leaves the store as the create left it, although the reply shows the
      fields the sync set on the epistle. */
  lemma CreatedReadingNeverSyncedAsWritten(ctx: Auth.ContextValue, in_: Reading, s: Epistles.Store, now: Time, w: CreateWorld)
    requires w.build.AsWritten?
    requires GoStrings.TrimSpace(in_.link) != "" && OnlyLink(in_) && Auth.GetUserID(ctx).err.None?
    requires Epistles.Create(w.build, s, Auth.GetUserID(ctx).value, GoStrings.TrimSpace(in_.link), w.faults, w.newID, now).0.Ok?
    ensures CreateReading(ctx, Ok(in_), s, now, w).1
      == Epistles.Create(w.build, s, Auth.GetUserID(ctx).value, GoStrings.TrimSpace(in_.link), w.faults, w.newID, now).1
  {
    CreateReadingReply(ctx, in_, s, now, w);
  }

  /** As written, asking again for a reading the user already has is a server error
      (500) carrying the driver's unique-key violation, and the store is unchanged: the
      400 branch for an existing reading is never taken. */
  lemma DuplicateReadingAsWritten(ctx: Auth.ContextValue, in_: Reading, s: Epistles.Store, now: Time, w: CreateWorld)
    requires w.build.AsWritten?
    requires GoStrings.TrimSpace(in_.link) != "" && OnlyLink(in_) && Auth.GetUserID(ctx).err.None?
    requires Epistles.Begin(s, Epistles.Writable()).None? && w.faults.lookup.None?
    requires First(s.epistles, Epistles.EpistleByLink(GoStrings.TrimSpace(in_.link))).Some?
    requires Epistles.AlreadyReading(s, Auth.GetUserID(ctx).value, GoStrings.TrimSpace(in_.link), w.newID)
    ensures CreateReading(ctx, Ok(in_), s, now, w) ==
      (Reply(StatusInternalServerError, ErrorOf(Epistles.DuplicateError(AsWritten))), s)
  {
  }

  /** Corrected, the same request is refused with 400 and the already-exists error, and
      the store is unchanged. */
  lemma DuplicateReadingCorrected(ctx: Auth.ContextValue, in_: Reading, s: Epistles.Store, now: Time, w: CreateWorld)
    requires w.build.Corrected?
    requires GoStrings.TrimSpace(in_.link) != "" && OnlyLink(in_) && Auth.GetUserID(ctx).err.None?
    requires Epistles.Begin(s, Epistles.Writable()).None? && w.faults.lookup.None?
    requires First(s.epistles, Epistles.EpistleByLink(GoStrings.TrimSpace(in_.link))).Some?
    requires Epistles.AlreadyReading(s, Auth.GetUserID(ctx).value, GoStrings.TrimSpace(in_.link), w.newID)
    ensures CreateReading(ctx, Ok(in_), s, now, w) == (Reply(StatusBadRequest, ErrorOf(AlreadyExists)), s)
  {
  }

  /** Sync only rewrites the epistle table, and there only the rows with the synced
      epistle's ID, which keep their link. */
  lemma SyncKeepsReadings(b: Build, e: Epistles.Epistle, s: Epistles.Store, doc: Result<Fetch.Document>, check: (bool, Outcome), now: Time, execErr: Outcome, commitErr: Outcome)
    ensures var s2 := Epistles.Sync(b, e, s, doc, check, now, execErr, commitErr).1;
      && s2.readings == s.readings && s2.users == s.users && s2.conn == s.conn && s2.beginErr == s.beginErr
      && |s2.epistles| == |s.epistles|
      && forall i :: 0 <= i < |s.epistles| ==>
           s2.epistles[i].id == s.epistles[i].id
           && (s2.epistles[i] == s.epistles[i] || (s2.epistles[i].id == e.id && s2.epistles[i].link == e.link))
  {
  }

  // ---------------------------------------------------------------------------------
  // FetchReading

  /** `FetchReading`: the user's reading of the epistle named by the path. An ID that does
      not parse and a reading the user does not have are both "not found". */
  function FetchReading(ctx: Auth.ContextValue, readingID: string, s: Epistles.Store): (r: Reply)
    ensures GoStrings.ParseInt(readingID, 10).err.Some? ==> r == Reply(StatusNotFound, Message("reading not found"))
    ensures GoStrings.ParseInt(readingID, 10).err.None? && Auth.GetUserID(ctx).err.Some? ==>
      r == Reply(StatusInternalServerError, Message("could not process request"))
    ensures r.status == StatusOK <==>
      && GoStrings.ParseInt(readingID, 10).err.None? && Auth.GetUserID(ctx).err.None?
      && Epistles.FetchReading(s, GoStrings.ParseInt(readingID, 10).value, Auth.GetUserID(ctx).value).Ok?
    ensures r.status == StatusOK ==>
      r.body == One(Item(Epistles.FetchReading(s, GoStrings.ParseInt(readingID, 10).value, Auth.GetUserID(ctx).value).value))
    ensures (&& GoStrings.ParseInt(readingID, 10).err.None? && Auth.GetUserID(ctx).err.None?
             && Epistles.FetchReading(s, GoStrings.ParseInt(readingID, 10).value, Auth.GetUserID(ctx).value) == Err(NoRows))
      ==> r == Reply(StatusNotFound, Message("reading not found"))
    ensures r.status in {StatusOK, StatusNotFound, StatusInternalServerError}
  {
    var id := GoStrings.ParseInt(readingID, 10);
    if id.err.Some? then Reply(StatusNotFound, Message("reading not found"))
    else
      var uid := Auth.GetUserID(ctx);
      if uid.err.Some? then Reply(StatusInternalServerError, Message("could not process request"))
      else
        match Epistles.FetchReading(s, id.value, uid.value)
        case Err(e) =>
          if Is(e, NoRows) then Reply(StatusNotFound, Message("reading not found"))
          else Reply(StatusInternalServerError, Message("could not process request"))
        case Ok(item) => Reply(StatusOK, One(Item(item)))
  }

  /** The reply reports a created reading, and fetching it through the API by the
      decimal form of the reported ID finds it, queued, with the same link. */
  predicate FetchedAsCreated(ctx: Auth.ContextValue, reply: Reply, s: Epistles.Store) {
    && reply.status == StatusCreated && reply.body.One?
    && var got := FetchReading(ctx, GoStrings.FormatInt(reply.body.reading.id as int, 10), s);
    && got.status == StatusOK && got.body.One?
    && got.body.reading.id == reply.body.reading.id
    && got.body.reading.link == reply.body.reading.link
    && got.body.reading.status == Epistles.StatusQueued
  }

  /** A reading created through the API is then found through the API under the ID the
      creation reported, with the same link, provided the user had no reading of that
      epistle and epistle IDs are unique. */
  lemma CreatedReadingIsFetchable(ctx: Auth.ContextValue, in_: Reading, s: Epistles.Store, now: Time, w: CreateWorld)
    requires OnlyLink(in_) && GoStrings.TrimSpace(in_.link) != ""
    requires Auth.GetUserID(ctx).err.None?
    requires Epistles.Begin(s, Epistles.Writable()).None? && w.faults == Epistles.NoFaults
    requires forall i :: 0 <= i < |s.epistles| ==> s.epistles[i].id != w.newID
    requires forall i, j :: 0 <= i < j < |s.epistles| ==> s.epistles[i].id != s.epistles[j].id
    requires !Epistles.AlreadyReading(s, Auth.GetUserID(ctx).value, GoStrings.TrimSpace(in_.link), w.newID)
    ensures var (reply, s2) := CreateReading(ctx, Ok(in_), s, now, w);
      FetchedAsCreated(ctx, reply, s2)
  {
    var uid := Auth.GetUserID(ctx).value;
    var link := GoStrings.TrimSpace(in_.link);
    Epistles.CreatedEpistle(w.build, s, uid, link, w.newID, now);
    CreateReadingReply(ctx, in_, s, now, w);
    var (created, s1) := Epistles.Create(w.build, s, uid, link, Epistles.NoFaults, w.newID, now);
    var e := created.value.epistle.value;
    var s2 := Epistles.Sync(w.build, e, s1, w.doc, w.check, now, w.execErr, w.commitErr).1;
    CreateSyncFetch(w.build, s, uid, link, w.newID, now, w.doc, w.check, w.execErr, w.commitErr);
    FetchByFormattedID(ctx, e.id, s2);
  }

  /** After creating a reading and syncing its epistle, the store returns the queued
      reading joined with an epistle of the same ID and link. */
  lemma CreateSyncFetch(b: Build, s: Epistles.Store, uid: Int64, link: string, newID: Int64, now: Time,
                        doc: Result<Fetch.Document>, check: (bool, Outcome), execErr: Outcome, commitErr: Outcome)
    requires Epistles.Create(b, s, uid, link, Epistles.NoFaults, newID, now).0.Ok?
    requires forall i :: 0 <= i < |s.epistles| ==> s.epistles[i].id != newID
    requires forall i, j :: 0 <= i < j < |s.epistles| ==> s.epistles[i].id != s.epistles[j].id
    ensures var (created, s1) := Epistles.Create(b, s, uid, link, Epistles.NoFaults, newID, now);
      var e := created.value.epistle.value;
      var f := Epistles.FetchReading(Epistles.Sync(b, e, s1, doc, check, now, execErr, commitErr).1, e.id, uid);
      && f.Ok? && f.value.epistleID == e.id && f.value.status == Epistles.StatusQueued
      && f.value.epistle.Some? && f.value.epistle.value.link == e.link
  {
    var (created, s1) := Epistles.Create(b, s, uid, link, Epistles.NoFaults, newID, now);
    Epistles.CreatedEpistle(b, s, uid, link, newID, now);
    Epistles.CreateThenFetch(b, s, uid, link, newID, now);
    var e := created.value.epistle.value;
    var s2 := Epistles.Sync(b, e, s1, doc, check, now, execErr, commitErr).1;
    SyncKeepsReadings(b, e, s1, doc, check, now, execErr, commitErr);
    FirstAgrees(s1.epistles, s2.epistles, Epistles.EpistleByID(e.id));
  }

  /** The handler serves the store's answer for the decimal form of an ID. */
  lemma FetchByFormattedID(ctx: Auth.ContextValue, id: Int64, s: Epistles.Store)
    requires Auth.GetUserID(ctx).err.None?
    ensures var f := Epistles.FetchReading(s, id, Auth.GetUserID(ctx).value);
      var got := FetchReading(ctx, GoStrings.FormatInt(id as int, 10), s);
      && (got.status == StatusOK <==> f.Ok?)
      && (f.Ok? ==> got.body == One(Item(f.value)))
  {
    GoStrings.FormatParseRoundTrip(id as int, 10);
  }

  // ---------------------------------------------------------------------------------
  // UpdateReading

  /** `epistles.Update`, which is not part of this model: it stores the updatable fields
      and fills in the rest of the reading. */
  type Updater = (Epistles.Reading, Epistles.Epistle) -> (Epistles.Reading, Outcome)

  /** What an update request is turned into: the reading's timestamps and the epistle's
      title and description, each NULL when empty. */
  function UpdateModel(in_: Reading, id: Int64, userID: Int64): (r: (Epistles.Reading, Epistles.Epistle))
    ensures r.0.epistleID == id && r.0.userID == userID && r.1.id == id
    ensures r.0.started == Api.ToSQL(in_.started) && r.0.finished == Api.ToSQL(in_.finished)
    ensures r.0.archived == Api.ToSQL(in_.archived)
    ensures r.1.title == Epistles.Column(in_.title) && r.1.description == Epistles.Column(in_.description)
    ensures r.1.link == "" && !r.1.favicon.valid
  {
    (Epistles.Reading(id, userID, "", Api.ToSQL(in_.started), Api.ToSQL(in_.finished), Api.ToSQL(in_.archived),
       ZeroTime, ZeroTime, None, None),
     Epistles.Epistle(id, "", Epistles.Column(in_.title), Epistles.Column(in_.description), NullStringNull, ZeroTime, ZeroTime))
  }

  /** The part of `UpdateReading` after the user ID: everything that can stop the request
      before the store, then the update. The second result is what was handed to the
      update, if it was called. */
  function UpdateAfterUser(userID: Int64, bind: Result<Reading>, readingID: string, update: Updater): (r: (Reply, Option<(Epistles.Reading, Epistles.Epistle)>))
    ensures bind.Err? ==> r == (Reply(StatusBadRequest, Message("could not parse reading input")), None)
    ensures bind.Ok? && GoStrings.ParseInt(readingID, 10).err.Some? ==> r == (Reply(StatusNotFound, Message("reading not found")), None)
    ensures bind.Ok? && GoStrings.ParseInt(readingID, 10).err.None? ==>
      (var id := GoStrings.ParseInt(readingID, 10).value;
       && (bind.value.id != 0 && bind.value.id != id ==> r == (Reply(StatusBadRequest, Message("id must match endpoint")), None))
       && ((bind.value.id == 0 || bind.value.id == id) && GoStrings.TrimSpace(bind.value.title) == "" ==>
             r == (Reply(StatusBadRequest, Message("title is required on update")), None)))
    ensures r.1.Some? <==>
      && bind.Ok? && GoStrings.ParseInt(readingID, 10).err.None?
      && (bind.value.id == 0 || bind.value.id == GoStrings.ParseInt(readingID, 10).value)
      && GoStrings.TrimSpace(bind.value.title) != ""
    ensures r.1.Some? ==>
      && r.1.value.0.userID == userID
      && r.1.value.0.epistleID == GoStrings.ParseInt(readingID, 10).value
      && r.1.value.1.title == Epistles.Column(GoStrings.TrimSpace(bind.value.title))
      && r.1.value.1.description == Epistles.Column(GoStrings.TrimSpace(bind.value.description))
    ensures r.0.status == StatusOK <==> r.1.Some? && update(r.1.value.0, r.1.value.1).1.None?
    ensures r.0.status == StatusOK ==>
      (var m := update(r.1.value.0, r.1.value.1).0;
       && r.0.body.One?
       && r.0.body.reading.id == GoStrings.ParseInt(readingID, 10).value
       && r.0.body.reading.title == GoStrings.TrimSpace(bind.value.title)
       && r.0.body.reading.status == m.status
       && r.0.body.reading.started == Api.FromSQL(m.started))
  {
    if bind.Err? then (Reply(StatusBadRequest, Message("could not parse reading input")), None)
    else
      var parsed := GoStrings.ParseInt(readingID, 10);
      if parsed.err.Some? then (Reply(StatusNotFound, Message("reading not found")), None)
      else
        var in_ := bind.value;
        var id := if in_.id == 0 then parsed.value else in_.id;
        if id != parsed.value then (Reply(StatusBadRequest, Message("id must match endpoint")), None)
        else
          var in1 := in_.(id := id, title := GoStrings.TrimSpace(in_.title), description := GoStrings.TrimSpace(in_.description));
          if in1.title == "" then (Reply(StatusBadRequest, Message("title is required on update")), None)
          else
            var (model, epistle) := UpdateModel(in1, id, userID);
            var (m, err) := update(model, epistle);
            if err.Some? then (Reply(StatusInternalServerError, ErrorOf(err.value)), Some((model, epistle)))
            else
              var out := in1.(status := m.status, started := Api.FromSQL(m.started), finished := Api.FromSQL(m.finished),
                              archived := Api.FromSQL(m.archived), created := m.created, modified := m.modified);
              (Reply(StatusOK, One(out)), Some((model, epistle)))
  }

  /** `UpdateReading` as written: a user ID that cannot be read is reported, but the
      handler goes on with whatever ID came back (0 without claims), so the update can
      still run and a second reply follows the first. */
  function UpdateReadingAsWritten(ctx: Auth.ContextValue, bind: Result<Reading>, readingID: string, update: Updater): (r: (seq<Reply>, Option<(Epistles.Reading, Epistles.Epistle)>))
    ensures Auth.GetUserID(ctx).err.None? ==>
      r == ([UpdateAfterUser(Auth.GetUserID(ctx).value, bind, readingID, update).0], UpdateAfterUser(Auth.GetUserID(ctx).value, bind, readingID, update).1)
    ensures Auth.GetUserID(ctx).err.Some? ==>
      |r.0| == 2 && r.0[0] == Reply(StatusInternalServerError, Message("could not process request"))
      && r == ([r.0[0], UpdateAfterUser(Auth.GetUserID(ctx).value, bind, readingID, update).0],
               UpdateAfterUser(Auth.GetUserID(ctx).value, bind, readingID, update).1)
  {
    var uid := Auth.GetUserID(ctx);
    var rest := UpdateAfterUser(uid.value, bind, readingID, update);
    if uid.err.Some? then ([Reply(StatusInternalServerError, Message("could not process request")), rest.0], rest.1)
    else ([rest.0], rest.1)
  }

  /** `UpdateReading` returning after the user-ID failure it reports. */
  function UpdateReading(ctx: Auth.ContextValue, bind: Result<Reading>, readingID: string, update: Updater): (r: (Reply, Option<(Epistles.Reading, Epistles.Epistle)>))
    ensures Auth.GetUserID(ctx).err.Some? ==> r == (Reply(StatusInternalServerError, Message("could not process request")), None)
    ensures Auth.GetUserID(ctx).err.None? ==> r == UpdateAfterUser(Auth.GetUserID(ctx).value, bind, readingID, update)
    ensures r.1.Some? ==> Auth.GetUserID(ctx).err.None? && r.1.value.0.userID == Auth.GetUserID(ctx).value
  {
    var uid := Auth.GetUserID(ctx);
    if uid.err.Some? then (Reply(StatusInternalServerError, Message("could not process request")), None)
    else UpdateAfterUser(uid.value, bind, readingID, update)
  }

  /** As written, a request whose user cannot be identified still updates the reading of
      user 0 and answers twice; the client sees the 500 status with both bodies. */
  lemma UpdateWithoutUserAsWritten(bind: Result<Reading>, readingID: string, update: Updater)
    requires bind.Ok? && GoStrings.ParseInt(readingID, 10).err.None?
    requires bind.value.id == 0 && GoStrings.TrimSpace(bind.value.title) != ""
    ensures var (writes, called) := UpdateReadingAsWritten(Auth.Missing, bind, readingID, update);
      && |writes| == 2 && writes[0].status == StatusInternalServerError
      && called.Some? && called.value.0.userID == 0
  {
  }

  /** With the return in place, such a request stops at the first reply and the store is
      never asked to update anything; and with a known user the two versions agree. */
  lemma UpdateWithoutUser(ctx: Auth.ContextValue, bind: Result<Reading>, readingID: string, update: Updater)
    ensures Auth.GetUserID(ctx).err.Some? ==>
      UpdateReading(ctx, bind, readingID, update).1.None?
      && UpdateReading(ctx, bind, readingID, update).0.status == StatusInternalServerError
    ensures Auth.GetUserID(ctx).err.None? ==>
      UpdateReadingAsWritten(ctx, bind, readingID, update)
        == ([UpdateReading(ctx, bind, readingID, update).0], UpdateReading(ctx, bind, readingID, update).1)
  {
  }

  // ---------------------------------------------------------------------------------
  // DeleteReading

  /** `DeleteReading`: not implemented, whatever the request. */
  function DeleteReading(readingID: string): (r: Reply)
    ensures r.status == StatusNotImplemented && r.body.NoBody?
  {
    Reply(StatusNotImplemented, NoBody)
  }
}
