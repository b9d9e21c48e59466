/** The reading list of pkg/server/epistles: epistles (the web pages users save), the
    readings that tie a user to an epistle, and the queries over them.

    The tables are sequences of rows in insertion order. Every operation opens its own
    transaction through `Db.BeginTx`; a failed step rolls it back, so the tables change
    only when an operation succeeds. The clock (`now`), IDs handed out by the database's
    sequence, the outcomes of the `UPDATE` statement and of commits, the driver's other
    failures, and the rows a list query returns are parameters. */
module Epistles {
  import opened Base
  import GoStrings
  import Db
  import Query
  import Pagination
  import Users
  import Fetch

  const StatusQueued := "queued"
  const StatusStarted := "started"
  const StatusFinished := "finished"
  const StatusArchived := "archived"

  datatype Epistle = Epistle(
    id: Int64,
    link: string,
    title: NullString,
    description: NullString,
    favicon: NullString,
    created: Time,
    modified: Time)

  /** `&Epistle{ID: id}`. */
  function BareEpistle(id: Int64): Epistle {
    Epistle(id, "", NullStringNull, NullStringNull, NullStringNull, ZeroTime, ZeroTime)
  }

  /** A row of the reading table. */
  datatype ReadingRow = ReadingRow(
    epistleID: Int64,
    userID: Int64,
    status: string,
    started: NullTime,
    finished: NullTime,
    archived: NullTime,
    created: Time,
    modified: Time)

  /** A `Reading`: the row's columns plus the cached epistle and user. */
  datatype Reading = Reading(
    epistleID: Int64,
    userID: Int64,
    status: string,
    started: NullTime,
    finished: NullTime,
    archived: NullTime,
    created: Time,
    modified: Time,
    epistle: Option<Epistle>,
    user: Option<Users.User>)

  datatype Store = Store(
    conn: Db.Conn,
    beginErr: Outcome,
    epistles: seq<Epistle>,
    readings: seq<ReadingRow>,
    users: seq<Users.Row>)

  function Begin(s: Store, opts: Option<Db.TxOptions>): (r: Outcome)
    ensures r.None? <==> Db.BeginTx(s.conn, opts, s.beginErr).Ok?
  {
    match Db.BeginTx(s.conn, opts, s.beginErr)
    case Ok(_) => None
    case Err(e) => Some(e)
  }

  function ReadOnly(): Option<Db.TxOptions> {
    Some(Db.TxOptions(true))
  }

  function Writable(): Option<Db.TxOptions> {
    Some(Db.TxOptions(false))
  }

  function EpistleByID(id: Int64): Epistle -> bool {
    (e: Epistle) => e.id == id
  }

  function EpistleByLink(link: string): Epistle -> bool {
    (e: Epistle) => e.link == link
  }

  function ReadingOf(epistleID: Int64, userID: Int64): ReadingRow -> bool {
    (row: ReadingRow) => row.epistleID == epistleID && row.userID == userID
  }

  // ---------------------------------------------------------------------------------
  // Epistle

  /** `IsSynced`: the page's metadata has been fetched once some of it is known. */
  predicate IsSynced(e: Epistle) {
    e.title.s != "" || e.description.s != "" || e.favicon.s != ""
  }

  /** A string column as the package writes it: NULL exactly when empty. */
  function Column(s: string): (r: NullString)
    ensures r.s == s && (r.valid <==> s != "")
  {
    NullString(s, s != "")
  }

  /** Replaces the row with the epistle's ID, as `UPDATE ... WHERE id=$1` does. */
  function UpdateEpistles(rows: seq<Epistle>, e: Epistle): (r: seq<Epistle>)
    ensures |r| == |rows|
    ensures forall i :: 0 <= i < |rows| ==> r[i] == if rows[i].id == e.id then e else rows[i]
  {
    if |rows| == 0 then [] else [if rows[0].id == e.id then e else rows[0]] + UpdateEpistles(rows[1..], e)
  }

  /** `save`: refuses the zero ID, stamps the modification time, and writes the row.
      `execErr` is what the `UPDATE` statement returned. */
  function SaveInTx(e: Epistle, rows: seq<Epistle>, now: Time, execErr: Outcome): (r: (Epistle, seq<Epistle>, Outcome))
    ensures e.id == 0 ==> r == (e, rows, Some(IDRequired))
    ensures e.id != 0 ==> r.0 == e.(modified := now)
    ensures e.id != 0 && execErr.Some? ==> r.1 == rows && r.2 == Some(Wrapped("could not save epistle", execErr.value))
    ensures r.2.None? <==> e.id != 0 && execErr.None?
    ensures r.2.None? ==> r.1 == UpdateEpistles(rows, r.0)
  {
    if e.id == 0 then (e, rows, Some(IDRequired))
    else
      var e1 := e.(modified := now);
      if execErr.Some? then (e1, rows, Some(Wrapped("could not save epistle", execErr.value)))
      else (e1, UpdateEpistles(rows, e1), None)
  }

  /** What PostgreSQL answers to the save statement as written: it has `title=%3` where
      `title=$3` is meant, and the lexer reads `=%` as one operator, so the statement never
      parses. */
  const SaveSyntaxError := External("syntax error at or near \"=%\"")

  /** The outcome of the save statement in the given build: as written it is always the
      syntax error, whatever the driver would have answered to the intended statement
      (`execErr`). */
  function SaveStatement(b: Build, execErr: Outcome): (r: Outcome)
    ensures b.AsWritten? ==> r == Some(SaveSyntaxError)
    ensures b.Corrected? ==> r == execErr
  {
    match b
    case AsWritten => Some(SaveSyntaxError)
    case Corrected => execErr
  }

  /** `Save`: `save` in a transaction opened with nil options, so a read-only connection
      gives a read-only transaction, then the commit, whose error (`commitErr`) is
      returned unwrapped. As written the statement never parses, so a save never reaches
      the store. */
  function Save(b: Build, e: Epistle, s: Store, now: Time, execErr: Outcome, commitErr: Outcome): (r: (Epistle, Store, Outcome))
    ensures Begin(s, None).Some? ==> r == (e, s, Some(Wrapped("could not start write tx", Begin(s, None).value)))
    ensures Begin(s, None).None? ==> r.0 == SaveInTx(e, s.epistles, now, execErr).0
    ensures b.AsWritten? ==> r.1 == s && r.2.Some?
    ensures b.AsWritten? && Begin(s, None).None? && e.id != 0 ==>
      r.2 == Some(Wrapped("could not save epistle", SaveSyntaxError))
    ensures Begin(s, None).None? && e.id != 0 && SaveStatement(b, execErr).None? ==> r.2 == commitErr
    ensures r.2.None? <==> b.Corrected? && Begin(s, None).None? && e.id != 0 && execErr.None? && commitErr.None?
    ensures r.2.Some? ==> r.1 == s
    ensures r.2.None? ==> r.1 == s.(epistles := UpdateEpistles(s.epistles, e.(modified := now)))
  {
    var tx := Begin(s, None);
    if tx.Some? then (e, s, Some(Wrapped("could not start write tx", tx.value)))
    else
      var (e1, rows, err) := SaveInTx(e, s.epistles, now, SaveStatement(b, execErr));
      if err.Some? then (e1, s, err)
      else if commitErr.Some? then (e1, s, commitErr)
      else (e1, s.(epistles := rows), None)
  }

  /** `Sync`: fetches the page behind the link (`doc`), checks its favicon (`check`),
      and saves title, description and favicon, each NULL when empty; a favicon that
      fails the check is dropped. The fields are set on the epistle before the save, so
      they stay set when the save fails. */
  function Sync(b: Build, e: Epistle, s: Store, doc: Result<Fetch.Document>, check: (bool, Outcome), now: Time, execErr: Outcome, commitErr: Outcome): (r: (Epistle, Store, Outcome))
    ensures e.link == "" ==> r == (e, s, Some(LinkRequired))
    ensures e.link != "" && doc.Err? ==> r == (e, s, Some(doc.error))
    ensures e.link != "" && doc.Ok? && check.1.Some? ==> r == (e, s, check.1)
    ensures e.link != "" && doc.Ok? && check.1.None? ==>
      (var d := doc.value;
       var synced := e.(title := Column(d.title), description := Column(d.description),
                        favicon := Column(if check.0 then d.favicon else ""));
       && r == Save(b, synced, s, now, execErr, commitErr)
       && r.0.title == Column(d.title) && r.0.description == Column(d.description)
       && r.0.id == e.id && r.0.link == e.link && r.0.created == e.created)
    ensures r.2.None? ==> e.link != "" && doc.Ok? && check.1.None?
    ensures b.AsWritten? ==> r.1 == s
  {
    if e.link == "" then (e, s, Some(LinkRequired))
    else if doc.Err? then (e, s, Some(doc.error))
    else if check.1.Some? then (e, s, check.1)
    else
      var d := doc.value;
      var favicon := if check.0 then d.favicon else "";
      var e1 := e.(title := Column(d.title), description := Column(d.description), favicon := Column(favicon));
      Save(b, e1, s, now, execErr, commitErr)
  }

  /** After a sync the epistle counts as synced exactly when one of its columns is
      non-NULL, and it does whenever the page had a title. */
  lemma SyncedIffSomeColumn(b: Build, e: Epistle, s: Store, doc: Result<Fetch.Document>, check: (bool, Outcome), now: Time, execErr: Outcome, commitErr: Outcome)
    requires e.link != "" && doc.Ok? && check.1.None?
    ensures var e1 := Sync(b, e, s, doc, check, now, execErr, commitErr).0;
      && (IsSynced(e1) <==> e1.title.valid || e1.description.valid || e1.favicon.valid)
      && (doc.value.title != "" ==> IsSynced(e1))
  {
  }

  /** `fetch`: the epistle with the given ID; IDs below 1 are refused before the query. */
  function FetchEpistle(id: Int64, s: Store): (r: Result<Epistle>)
    ensures id < 1 ==> r == Err(IDRequired)
    ensures id >= 1 && First(s.epistles, EpistleByID(id)).None? ==> r == Err(NoRows)
    ensures r.Ok? ==> r.value.id == id && r.value in s.epistles
  {
    if id < 1 then Err(IDRequired)
    else
      match First(s.epistles, EpistleByID(id))
      case None => Err(NoRows)
      case Some(k) => Ok(s.epistles[k])
  }

  /** Corrected, a saved epistle is what the next fetch by its ID finds, with the new
      modification time. */
  lemma SaveThenFetch(e: Epistle, s: Store, now: Time)
    requires e.id >= 1 && exists i :: 0 <= i < |s.epistles| && s.epistles[i].id == e.id
    requires Save(Corrected, e, s, now, None, None).2.None?
    ensures FetchEpistle(e.id, Save(Corrected, e, s, now, None, None).1) == Ok(e.(modified := now))
  {
    var s2 := Save(Corrected, e, s, now, None, None).1;
    FirstAgrees(s.epistles, s2.epistles, EpistleByID(e.id));
  }

  /** As written, a save on a working connection reports the syntax error whatever the
      driver and the commit would have answered, and the next fetch finds the row as it
      was before. */
  lemma SaveAsWrittenIsLost(e: Epistle, s: Store, now: Time, execErr: Outcome, commitErr: Outcome)
    requires e.id >= 1 && Begin(s, None).None?
    ensures var (_, s2, err) := Save(AsWritten, e, s, now, execErr, commitErr);
      && err == Some(Wrapped("could not save epistle", SaveSyntaxError))
      && FetchEpistle(e.id, s2) == FetchEpistle(e.id, s)
  {
  }

  /** `getOrCreateEpistle`: the epistle saved under the link, or a new one with the next
      ID when there is none. The driver's failures are its messages: `lookupErr` of the
      lookup, `insertErr` of the insert or of reading back the new row's timestamps. "No
      rows" is not among them: it is the table having no epistle with that link. */
  function GetOrCreateEpistle(rows: seq<Epistle>, link: string, lookupErr: Option<string>, insertErr: Option<string>, newID: Int64, now: Time): (r: (Result<Epistle>, seq<Epistle>))
    ensures lookupErr.Some? ==> r == (Err(External(lookupErr.value)), rows)
    ensures r.0.Ok? <==> lookupErr.None? && (First(rows, EpistleByLink(link)).Some? || insertErr.None?)
    ensures r.0.Err? ==> r.1 == rows && r.0.error.External?
    ensures r.0.Ok? ==> r.0.value.link == link && r.0.value.id == LinkedID(rows, link, newID)
    ensures lookupErr.None? && First(rows, EpistleByLink(link)).Some? ==>
      r == (Ok(rows[First(rows, EpistleByLink(link)).value]), rows)
    ensures lookupErr.None? && First(rows, EpistleByLink(link)).None? && insertErr.Some? ==>
      r == (Err(External(insertErr.value)), rows)
    ensures lookupErr.None? && First(rows, EpistleByLink(link)).None? && insertErr.None? ==>
      r == (Ok(Epistle(newID, link, NullStringNull, NullStringNull, NullStringNull, now, now)),
            rows + [Epistle(newID, link, NullStringNull, NullStringNull, NullStringNull, now, now)])
  {
    if lookupErr.Some? then (Err(External(lookupErr.value)), rows)
    else
      match First(rows, EpistleByLink(link))
      case Some(k) => (Ok(rows[k]), rows)
      case None =>
        if insertErr.Some? then (Err(External(insertErr.value)), rows)
        else
          var e := Epistle(newID, link, NullStringNull, NullStringNull, NullStringNull, now, now);
          (Ok(e), rows + [e])
  }

  /** The ID of the epistle a successful lookup settles on for a link: the saved one's,
      or the next ID when there is none. */
  function LinkedID(rows: seq<Epistle>, link: string, newID: Int64): Int64 {
    match First(rows, EpistleByLink(link))
    case Some(k) => rows[k].id
    case None => newID
  }

  /** Asking twice for the same link gives the same epistle and creates at most one
      row. */
  lemma GetOrCreateIdempotent(rows: seq<Epistle>, link: string, id1: Int64, id2: Int64, now1: Time, now2: Time)
    ensures var (e1, rows1) := GetOrCreateEpistle(rows, link, None, None, id1, now1);
      var (e2, rows2) := GetOrCreateEpistle(rows1, link, None, None, id2, now2);
      && e2 == e1 && rows2 == rows1 && |rows| <= |rows1| <= |rows| + 1
  {
    var (e1, rows1) := GetOrCreateEpistle(rows, link, None, None, id1, now1);
    if First(rows, EpistleByLink(link)).None? {
      assert EpistleByLink(link)(rows1[|rows|]);
      var k := First(rows1, EpistleByLink(link));
      assert k == Some(|rows|);
    }
  }

  // ---------------------------------------------------------------------------------
  // Reading

  /** The driver's failures while `Create` runs, as its messages: of the epistle lookup,
      of the epistle insert, and of the reading insert or the read-back of its
      timestamps. */
  datatype CreateFaults = CreateFaults(lookup: Option<string>, insertEpistle: Option<string>, insertReading: Option<string>)

  const NoFaults := CreateFaults(None, None, None)

  /** The user already has a reading of the epistle the link settles on. */
  predicate AlreadyReading(s: Store, userID: Int64, link: string, newID: Int64) {
    First(s.readings, ReadingOf(LinkedID(s.epistles, link, newID), userID)).Some?
  }

  /** What the reading insert returns when the user already reads the epistle (the
      reading table is keyed by epistle and user). As written the driver's unique-key
      violation is passed on unchanged; corrected, it is `ErrAlreadyExists`, the error
      the handler tests for. */
  function DuplicateError(b: Build): (r: Error)
    ensures Is(r, AlreadyExists) <==> b.Corrected?
  {
    match b
    case AsWritten => External("duplicate key value violates unique constraint")
    case Corrected => AlreadyExists
  }

  /** `Create`: in one writable transaction, finds or creates the epistle for the link
      and inserts the reading, which is refused when the user already reads that
      epistle. The new reading's status is not read back, so it is ""; its timestamps
      are the database's. */
  function Create(b: Build, s: Store, userID: Int64, link: string, f: CreateFaults, newID: Int64, now: Time): (r: (Result<Reading>, Store))
    ensures Begin(s, Writable()).Some? ==> r == (Err(Begin(s, Writable()).value), s)
    ensures r.0.Err? ==> r.1 == s
    ensures r.0.Ok? <==>
      && Begin(s, Writable()).None?
      && GetOrCreateEpistle(s.epistles, link, f.lookup, f.insertEpistle, newID, now).0.Ok?
      && !AlreadyReading(s, userID, link, newID) && f.insertReading.None?
    ensures
      && Begin(s, Writable()).None?
      && GetOrCreateEpistle(s.epistles, link, f.lookup, f.insertEpistle, newID, now).0.Ok?
      && AlreadyReading(s, userID, link, newID)
      ==> r == (Err(DuplicateError(b)), s)
    ensures Begin(s, Writable()).None? && r.0.Err? ==>
      (Is(r.0.error, AlreadyExists) <==>
        && b.Corrected? && AlreadyReading(s, userID, link, newID)
        && GetOrCreateEpistle(s.epistles, link, f.lookup, f.insertEpistle, newID, now).0.Ok?)
    ensures r.0.Ok? ==>
      (var (found, rows) := GetOrCreateEpistle(s.epistles, link, f.lookup, f.insertEpistle, newID, now);
       var e := found.value;
       && r.0.value == Reading(e.id, userID, "", NullTimeNull, NullTimeNull, NullTimeNull, now, now, Some(e), None)
       && r.1.epistles == rows
       && r.1.readings == s.readings + [ReadingRow(e.id, userID, StatusQueued, NullTimeNull, NullTimeNull, NullTimeNull, now, now)]
       && r.1.users == s.users && r.1.conn == s.conn)
  {
    var tx := Begin(s, Writable());
    if tx.Some? then (Err(tx.value), s)
    else
      var (found, rows) := GetOrCreateEpistle(s.epistles, link, f.lookup, f.insertEpistle, newID, now);
      if found.Err? then (Err(found.error), s)
      else
        var e := found.value;
        if First(s.readings, ReadingOf(e.id, userID)).Some? then (Err(DuplicateError(b)), s)
        else if f.insertReading.Some? then (Err(External(f.insertReading.value)), s)
        else
          var row := ReadingRow(e.id, userID, StatusQueued, NullTimeNull, NullTimeNull, NullTimeNull, now, now);
          (Ok(Reading(e.id, userID, "", NullTimeNull, NullTimeNull, NullTimeNull, now, now, Some(e), None)),
           s.(epistles := rows, readings := s.readings + [row]))
  }

  /** No user reads an epistle twice. */
  predicate ReadingsUnique(rows: seq<ReadingRow>) {
    forall i, j :: 0 <= i < j < |rows| ==> rows[i].epistleID != rows[j].epistleID || rows[i].userID != rows[j].userID
  }

  /** Creating a reading keeps every (epistle, user) pair at most once in the table. */
  lemma {:induction false} CreateKeepsReadingsUnique(b: Build, s: Store, userID: Int64, link: string, f: CreateFaults, newID: Int64, now: Time)
    requires ReadingsUnique(s.readings)
    ensures ReadingsUnique(Create(b, s, userID, link, f, newID, now).1.readings)
  {
    var (created, s2) := Create(b, s, userID, link, f, newID, now);
    if created.Ok? {
      var id := LinkedID(s.epistles, link, newID);
      assert forall i :: 0 <= i < |s.readings| ==> !ReadingOf(id, userID)(s.readings[i]);
      forall i, j | 0 <= i < j < |s2.readings|
        ensures s2.readings[i].epistleID != s2.readings[j].epistleID || s2.readings[i].userID != s2.readings[j].userID
      {
        if j == |s.readings| {
          assert !ReadingOf(id, userID)(s.readings[i]);
        }
      }
    }
  }

  /** `Fetch`: the user's reading of the epistle, joined with the epistle, which is
      cached on the reading. */
  function FetchReading(s: Store, epistleID: Int64, userID: Int64): (r: Result<Reading>)
    ensures Begin(s, ReadOnly()).Some? ==> r == Err(Begin(s, ReadOnly()).value)
    ensures Begin(s, ReadOnly()).None? && First(s.readings, ReadingOf(epistleID, userID)).None? ==> r == Err(NoRows)
    ensures Begin(s, ReadOnly()).None? && First(s.epistles, EpistleByID(epistleID)).None? ==> r == Err(NoRows)
    ensures r.Ok? ==>
      (var row := s.readings[First(s.readings, ReadingOf(epistleID, userID)).value];
       && r.value.epistleID == epistleID && r.value.userID == userID
       && r.value.status == row.status && r.value.started == row.started
       && r.value.finished == row.finished && r.value.archived == row.archived
       && r.value.created == row.created && r.value.modified == row.modified
       && r.value.epistle == Some(s.epistles[First(s.epistles, EpistleByID(epistleID)).value])
       && r.value.user.None?)
  {
    var tx := Begin(s, ReadOnly());
    if tx.Some? then Err(tx.value)
    else
      match First(s.readings, ReadingOf(epistleID, userID))
      case None => Err(NoRows)
      case Some(i) =>
        match First(s.epistles, EpistleByID(epistleID))
        case None => Err(NoRows)
        case Some(j) =>
          var row := s.readings[i];
          Ok(Reading(epistleID, userID, row.status, row.started, row.finished, row.archived,
            row.created, row.modified, Some(s.epistles[j]), None))
  }

  /** A created reading carries its epistle, the one the link names or a new one. */
  lemma CreatedEpistle(b: Build, s: Store, userID: Int64, link: string, newID: Int64, now: Time)
    requires Create(b, s, userID, link, NoFaults, newID, now).0.Ok?
    ensures var c := Create(b, s, userID, link, NoFaults, newID, now).0.value;
      && c.epistle.Some? && c.epistleID == c.epistle.value.id == LinkedID(s.epistles, link, newID)
      && c.epistle.value.link == link
  {
  }

  /** A created reading is what the next fetch finds, provided epistle IDs are unique,
      as the primary key makes them. */
  lemma CreateThenFetch(b: Build, s: Store, userID: Int64, link: string, newID: Int64, now: Time)
    requires Create(b, s, userID, link, NoFaults, newID, now).0.Ok?
    requires forall i :: 0 <= i < |s.epistles| ==> s.epistles[i].id != newID
    requires forall i, j :: 0 <= i < j < |s.epistles| ==> s.epistles[i].id != s.epistles[j].id
    ensures var (created, s2) := Create(b, s, userID, link, NoFaults, newID, now);
      var fetched := FetchReading(s2, created.value.epistleID, userID);
      && fetched.Ok?
      && fetched.value.status == StatusQueued
      && fetched.value.epistle == created.value.epistle
      && fetched.value.created == created.value.created
  {
    var (created, s2) := Create(b, s, userID, link, NoFaults, newID, now);
    var e := created.value.epistle.value;
    var k := First(s2.readings, ReadingOf(e.id, userID));
    assert ReadingOf(e.id, userID)(s2.readings[|s.readings|]);
    assert k == Some(|s.readings|);
    var ks := First(s.epistles, EpistleByLink(link));
    if ks.Some? {
      var j := First(s2.epistles, EpistleByID(e.id));
      assert EpistleByID(e.id)(s2.epistles[ks.value]);
      assert s2.epistles[j.value] == s.epistles[j.value];
    } else {
      assert s2.epistles == s.epistles + [e];
      assert EpistleByID(e.id)(s2.epistles[|s.epistles|]);
      assert forall i :: 0 <= i < |s.epistles| ==> !EpistleByID(e.id)(s2.epistles[i]);
    }
  }

  /** `Reading.Epistle`: the cached epistle unless `reset` is set or none is cached.
      The cache is filled with a bare epistle before the fetch, so a failed fetch leaves
      it behind. */
  function EpistleOf(r: Reading, reset: bool, s: Store): (res: (Reading, Result<Epistle>))
    ensures !reset && r.epistle.Some? ==> res == (r, Ok(r.epistle.value))
    ensures (reset || r.epistle.None?) && Begin(s, ReadOnly()).Some? ==> res == (r, Err(Begin(s, ReadOnly()).value))
    ensures (reset || r.epistle.None?) && Begin(s, ReadOnly()).None? ==>
      (match FetchEpistle(r.epistleID, s)
       case Ok(e) => res == (r.(epistle := Some(e)), Ok(e))
       case Err(err) => res == (r.(epistle := Some(BareEpistle(r.epistleID))), Err(err)))
  {
    if !reset && r.epistle.Some? then (r, Ok(r.epistle.value))
    else
      var tx := Begin(s, ReadOnly());
      if tx.Some? then (r, Err(tx.value))
      else
        match FetchEpistle(r.epistleID, s)
        case Ok(e) => (r.(epistle := Some(e)), Ok(e))
        case Err(err) => (r.(epistle := Some(BareEpistle(r.epistleID))), Err(err))
  }

  /** As written, a fetch that fails poisons the cache: the next call without reset
      returns the bare epistle and no error. */
  lemma FailedEpistleFetchIsCached(r: Reading, s: Store)
    requires r.epistle.None? && Begin(s, ReadOnly()).None?
    requires FetchEpistle(r.epistleID, s).Err?
    ensures var (r1, first) := EpistleOf(r, false, s);
      && first.Err?
      && EpistleOf(r1, false, s) == (r1, Ok(BareEpistle(r.epistleID)))
  {
  }

  /** The `users.User` that `fetchUser` scans: the profile columns only. */
  function ReadingUser(row: Users.Row): (u: Users.User)
    ensures u.row == row.(password := "", passwordChanged := None) && u.role.None? && u.permissions == []
  {
    Users.User(row.(password := "", passwordChanged := None), None, [])
  }

  /** `&users.User{ID: id}`. */
  function BareUser(id: Int64): Users.User {
    Users.User(Users.Row(id, None, "", "", "", 0, None, None, ZeroTime, ZeroTime), None, [])
  }

  /** `Reading.User`: the cached user unless `reset` is set or none is cached; like the
      epistle cache, a failed fetch leaves a bare user behind. */
  function UserOf(r: Reading, reset: bool, s: Store): (res: (Reading, Result<Users.User>))
    ensures !reset && r.user.Some? ==> res == (r, Ok(r.user.value))
    ensures (reset || r.user.None?) && Begin(s, ReadOnly()).Some? ==> res == (r, Err(Begin(s, ReadOnly()).value))
    ensures (reset || r.user.None?) && Begin(s, ReadOnly()).None? ==>
      (match First(s.users, Users.ByID(r.userID))
       case Some(k) => res == (r.(user := Some(ReadingUser(s.users[k]))), Ok(ReadingUser(s.users[k])))
       case None => res == (r.(user := Some(BareUser(r.userID))), Err(NoRows)))
    ensures res.1.Ok? ==> res.1.value.row.id == r.userID || (!reset && r.user.Some?)
  {
    if !reset && r.user.Some? then (r, Ok(r.user.value))
    else
      var tx := Begin(s, ReadOnly());
      if tx.Some? then (r, Err(tx.value))
      else
        match First(s.users, Users.ByID(r.userID))
        case Some(k) => (r.(user := Some(ReadingUser(s.users[k]))), Ok(ReadingUser(s.users[k])))
        case None => (r.(user := Some(BareUser(r.userID))), Err(NoRows))
  }

  // ---------------------------------------------------------------------------------
  // List

  /** `listReadingSQL`, in the clauses it is made of. */
  const SelectReading := "SELECT r.epistle_id, r.status, "
  const SelectEpistle := "e.id, e.link, e.title, e.favicon, "
  const SelectTimes := "r.created, r.modified "
  const FromReading := "FROM reading r JOIN epistles e "
  const OnEpistle := "ON r.epistle_id=e.id"
  const ListReadingSQL := SelectReading + SelectEpistle + SelectTimes + FromReading + OnEpistle

  /** The pieces `List` writes around its placeholders: the user filter always, the end
      bound only when the cursor has one (joined to it with " AND "), then the order and
      the limit. */
  const WhereUser := " WHERE r.user_id="
  const AndBefore := " AND r.epistle_id < "
  const OrderLimit := " ORDER BY created DESC LIMIT "
  const UserIDArg := "userID"
  const EndIndexArg := "endIndex"
  const PageSizeArg := "pageSize"

  function Placeholder(name: string): string {
    ":" + name
  }

  /** The query `List` assembles before `Prep`. */
  function ListText(end: Int64): string {
    if end != 0 then
      ListReadingSQL + WhereUser + Placeholder(UserIDArg) + AndBefore + Placeholder(EndIndexArg)
      + OrderLimit + Placeholder(PageSizeArg)
    else
      ListReadingSQL + WhereUser + Placeholder(UserIDArg) + OrderLimit + Placeholder(PageSizeArg)
  }

  /** The named arguments, in the order they are appended; the limit is the page size
      plus one, computed in uint32. */
  function ListParams(userID: Int64, page: Pagination.Cursor): seq<Query.Arg<int>> {
    [Query.Named(UserIDArg, userID as int)]
    + (if page.end != 0 then [Query.Named(EndIndexArg, page.end as int)] else [])
    + [Query.Named(PageSizeArg, (page.size + 1) % (MaxUint32 + 1))]
  }

  /** The positional query `List` sends and its argument values. */
  function ListQuery(userID: Int64, page: Pagination.Cursor): (string, seq<int>) {
    Query.Prep(ListText(page.end), ListParams(userID, page))
  }

  /** A row of the list query's answer. */
  datatype ListRow = ListRow(
    epistleID: Int64,
    status: string,
    id: Int64,
    link: string,
    title: NullString,
    favicon: NullString,
    created: Time,
    modified: Time)

  /** The reading built from a row: the user is the one asked for, and the epistle holds
      the columns the query selects. */
  function ToReading(row: ListRow, userID: Int64): Reading {
    Reading(row.epistleID, userID, row.status, NullTimeNull, NullTimeNull, NullTimeNull, row.created, row.modified,
      Some(Epistle(row.id, row.link, row.title, NullStringNull, row.favicon, ZeroTime, ZeroTime)), None)
  }

  /** The readings of the first `size` rows. */
  function Page(rows: seq<ListRow>, size: nat, userID: Int64): (r: seq<Reading>)
    ensures |r| == if |rows| < size then |rows| else size
    ensures forall i :: 0 <= i < |r| ==> r[i] == ToReading(rows[i], userID)
  {
    if |rows| == 0 || size == 0 then [] else [ToReading(rows[0], userID)] + Page(rows[1..], size - 1, userID)
  }

  /** The row loop of `List`: every row is counted, only the first `size` are kept. */
  method ScanRows(rows: seq<ListRow>, size: Uint32, userID: Int64) returns (readings: seq<Reading>, nRows: nat)
    ensures nRows == |rows|
    ensures |readings| <= size
    ensures |readings| == if |rows| < size then |rows| else size
    ensures forall i :: 0 <= i < |readings| ==> readings[i] == ToReading(rows[i], userID)
  {
    readings := [];
    nRows := 0;
    for k := 0 to |rows|
      invariant nRows == k
      invariant |readings| == if k < size then k else size
      invariant forall i :: 0 <= i < |readings| ==> readings[i] == ToReading(rows[i], userID)
    {
      nRows := nRows + 1;
      if nRows > size {
        continue;
      }
      readings := readings + [ToReading(rows[k], userID)];
    }
  }

  /** `List`: a page of the user's readings and the cursor of the next page. A missing
      cursor means the first page at the default size. `rows` is the database's answer to
      `ListQuery` (or its failure): at most size + 1 rows, newest first. */
  function List(s: Store, userID: Int64, prev: Option<Pagination.Cursor>, now: Time, rows: Result<seq<ListRow>>): (r: Result<(seq<Reading>, Option<Pagination.Cursor>)>)
    ensures prev.Some? && prev.value.size == 0 ==> r == Err(MissingPageSize)
    ensures r.Ok? ==> Begin(s, ReadOnly()).None? && rows.Ok?
    ensures r.Ok? ==>
      (var size := if prev.Some? then prev.value.size else Pagination.DefaultPageSize;
       var (readings, next) := r.value;
       && size > 0
       && |readings| == (if |rows.value| < size then |rows.value| else size)
       && (forall i :: 0 <= i < |readings| ==>
             readings[i] == ToReading(rows.value[i], userID) && readings[i].userID == userID)
       && (next.Some? <==> |rows.value| > size)
       && (next.Some? ==>
             next.value.start == rows.value[0].epistleID
             && next.value.end == rows.value[size - 1].epistleID
             && (size <= Pagination.MaximumPageSize ==> next.value.size == size)))
  {
    var page := if prev.None? then Pagination.New(0, 0, 0, now) else prev.value;
    if page.size == 0 then Err(MissingPageSize)
    else
      var tx := Begin(s, ReadOnly());
      if tx.Some? then Err(tx.value)
      else if rows.Err? then Err(rows.error)
      else
        var readings := Page(rows.value, page.size, userID);
        var next :=
          if |readings| > 0 && |rows.value| > page.size
          then Some(Pagination.New(readings[0].epistleID, readings[|readings| - 1].epistleID, page.size, now))
          else None;
        Ok((readings, next))
  }

  /** The list query after `Prep`: the user filter is `$1`; the end bound, present only
      with a cursor that has one, is `$2`; the limit is the last parameter and is the page
      size plus one. */
  lemma ListQueryPrepared(userID: Int64, page: Pagination.Cursor)
    ensures var limit := (page.size + 1) % (MaxUint32 + 1);
      ListQuery(userID, page) ==
        if page.end != 0 then
          (ListReadingSQL + WhereUser + "$1" + AndBefore + "$2" + OrderLimit + "$3",
           [userID as int, page.end as int, limit])
        else
          (ListReadingSQL + WhereUser + "$1" + OrderLimit + "$2", [userID as int, limit])
  {
    var args := ListParams(userID, page);
    var limit := (page.size + 1) % (MaxUint32 + 1);
    assert ListQuery(userID, page) == (Query.Replace(ListText(page.end), Query.Pairs(args, 0)), Query.Values(args));
    ListValues(userID, page);
    if page.end != 0 {
      PreparedWithEnd(userID, page);
    } else {
      PreparedFirstPage(userID, page);
    }
  }

  lemma ListValues(userID: Int64, page: Pagination.Cursor)
    ensures var limit := (page.size + 1) % (MaxUint32 + 1);
      Query.Values(ListParams(userID, page)) ==
        if page.end != 0 then [userID as int, page.end as int, limit] else [userID as int, limit]
  {
    var args := ListParams(userID, page);
    if page.end != 0 {
      assert |args| == 3;
    } else {
      assert |args| == 2;
    }
  }

  lemma PreparedWithEnd(userID: Int64, page: Pagination.Cursor)
    requires page.end != 0
    ensures Query.Replace(ListText(page.end), Query.Pairs(ListParams(userID, page), 0)) ==
      ListReadingSQL + WhereUser + "$1" + AndBefore + "$2" + OrderLimit + "$3"
  {
    var args := ListParams(userID, page);
    HeadColonFree();
    assert ':' !in OrderLimit && ':' !in AndBefore;
    assert |args| == 3;
    PairsOfThree(args);
    ReplaceThree(ListReadingSQL + WhereUser, AndBefore, OrderLimit,
      Placeholder(UserIDArg), Placeholder(EndIndexArg), Placeholder(PageSizeArg), Query.Pairs(args, 0));
  }

  lemma PreparedFirstPage(userID: Int64, page: Pagination.Cursor)
    requires page.end == 0
    ensures Query.Replace(ListText(page.end), Query.Pairs(ListParams(userID, page), 0)) ==
      ListReadingSQL + WhereUser + "$1" + OrderLimit + "$2"
  {
    var args := ListParams(userID, page);
    HeadColonFree();
    assert ':' !in OrderLimit;
    assert |args| == 2;
    PairsOfTwo(args);
    ReplaceTwo(ListReadingSQL + WhereUser, OrderLimit,
      Placeholder(UserIDArg), Placeholder(PageSizeArg), Query.Pairs(args, 0));
  }

  /** Two placeholders, each after a colon-free stretch and neither a prefix of the
      other's text, become their positional parameters. */
  lemma ReplaceTwo(head: string, tail: string, a: string, b: string, pairs: seq<(string, string)>)
    requires ':' !in head && ':' !in tail
    requires |a| > 0 && a[0] == ':' && |b| > 0 && b[0] == ':'
    requires pairs == [(a, "$1"), (b, "$2")]
    requires |a| > 1 && |b| > 1 && a[1] != b[1]
    ensures Query.Replace(head + a + tail + b, pairs) == head + "$1" + tail + "$2"
  {
    assert b + "" == b;
    Query.DiffersAt(b + "", a, 1);
    Query.ReplaceSegment(tail, "", pairs, 1);
    assert head + a + tail + b == head + a + (tail + b + "");
    Query.ReplaceSegment(head, tail + b + "", pairs, 0);
    assert Query.Replace("", pairs) == "";
  }

  /** Three placeholders, likewise. */
  lemma ReplaceThree(head: string, mid: string, tail: string, a: string, b: string, c: string, pairs: seq<(string, string)>)
    requires ':' !in head && ':' !in mid && ':' !in tail
    requires |a| > 1 && a[0] == ':' && |b| > 1 && b[0] == ':' && |c| > 1 && c[0] == ':'
    requires pairs == [(a, "$1"), (b, "$2"), (c, "$3")]
    requires a[1] != b[1] && a[1] != c[1] && b[1] != c[1]
    ensures Query.Replace(head + a + mid + b + tail + c, pairs) == head + "$1" + mid + "$2" + tail + "$3"
  {
    var t1 := tail + c + "";
    ReplaceStep(tail, "", "", pairs, 2);
    var t0 := mid + b + t1;
    ReplaceStep(mid, t1, tail + "$3" + "", pairs, 1);
    ReplaceStep(head, t0, mid + "$2" + (tail + "$3" + ""), pairs, 0);
    Regroup(head, a, mid, b, tail, c);
    Regroup(head, "$1", mid, "$2", tail, "$3");
  }

  lemma Regroup(s1: string, s2: string, s3: string, s4: string, s5: string, s6: string)
    ensures s1 + s2 + s3 + s4 + s5 + s6 == s1 + s2 + (s3 + s4 + (s5 + s6 + ""))
  {
    assert s5 + s6 + "" == s5 + s6;
    assert s3 + s4 + (s5 + s6) == s3 + s4 + s5 + s6;
    assert s1 + s2 + (s3 + s4 + s5 + s6) == s1 + s2 + s3 + s4 + s5 + s6;
  }

  /** One placeholder of a query whose placeholders start with distinct letters. */
  lemma ReplaceStep(p: string, t: string, rt: string, pairs: seq<(string, string)>, k: nat)
    requires forall j :: 0 <= j < |pairs| ==> |pairs[j].0| > 1 && pairs[j].0[0] == ':'
    requires forall i, j :: 0 <= i < j < |pairs| ==> pairs[i].0[1] != pairs[j].0[1]
    requires ':' !in p && k < |pairs| && Query.Replace(t, pairs) == rt
    ensures Query.Replace(p + pairs[k].0 + t, pairs) == p + pairs[k].1 + rt
  {
    forall j | 0 <= j < k
      ensures !GoStrings.HasPrefix(pairs[k].0 + t, pairs[j].0)
    {
      Query.DiffersAt(pairs[k].0 + t, pairs[j].0, 1);
    }
    Query.ReplaceSegment(p, t, pairs, k);
  }

  lemma HeadColonFree()
    ensures ':' !in ListReadingSQL + WhereUser
  {
    ListReadingSQLColonFree();
    assert ':' !in WhereUser;
    ColonFreeConcat(ListReadingSQL, WhereUser);
  }

  /** The base query holds no placeholder. */
  lemma ListReadingSQLColonFree()
    ensures ':' !in ListReadingSQL
  {
    SelectReadingColonFree();
    SelectEpistleColonFree();
    SelectTimesColonFree();
    FromReadingColonFree();
    OnEpistleColonFree();
    ColonFreeConcat(SelectReading, SelectEpistle);
    ColonFreeConcat(SelectReading + SelectEpistle, SelectTimes);
    ColonFreeConcat(SelectReading + SelectEpistle + SelectTimes, FromReading);
    ColonFreeConcat(SelectReading + SelectEpistle + SelectTimes + FromReading, OnEpistle);
  }

  lemma SelectReadingColonFree() ensures ':' !in SelectReading { }
  lemma SelectEpistleColonFree() ensures ':' !in SelectEpistle { }
  lemma SelectTimesColonFree() ensures ':' !in SelectTimes { }
  lemma FromReadingColonFree() ensures ':' !in FromReading { }
  lemma OnEpistleColonFree() ensures ':' !in OnEpistle { }

  lemma ColonFreeConcat(a: string, b: string)
    requires ':' !in a && ':' !in b
    ensures ':' !in a + b
  {
    forall i | 0 <= i < |a + b|
      ensures (a + b)[i] != ':'
    {
      if i < |a| {
        assert (a + b)[i] == a[i];
      } else {
        assert (a + b)[i] == b[i - |a|];
      }
    }
  }

  /** The replacement pairs of three named arguments. */
  lemma PairsOfThree(args: seq<Query.Arg<int>>)
    requires |args| == 3 && args[0].Named? && args[1].Named? && args[2].Named?
    ensures Query.Pairs(args, 0) ==
      [(Placeholder(args[0].name), "$1"), (Placeholder(args[1].name), "$2"), (Placeholder(args[2].name), "$3")]
  {
    assert GoStrings.FormatInt(1, 10) == "1" && GoStrings.FormatInt(2, 10) == "2" && GoStrings.FormatInt(3, 10) == "3";
    assert "$" + "1" == "$1" && "$" + "2" == "$2" && "$" + "3" == "$3";
    assert Query.Pairs(args, 3) == [];
    assert Query.Pairs(args, 2) == [(":" + args[2].name, "$3")];
    assert Query.Pairs(args, 1) == [(":" + args[1].name, "$2"), (":" + args[2].name, "$3")];
  }

  /** The replacement pairs of two named arguments. */
  lemma PairsOfTwo(args: seq<Query.Arg<int>>)
    requires |args| == 2 && args[0].Named? && args[1].Named?
    ensures Query.Pairs(args, 0) == [(Placeholder(args[0].name), "$1"), (Placeholder(args[1].name), "$2")]
  {
    assert GoStrings.FormatInt(1, 10) == "1" && GoStrings.FormatInt(2, 10) == "2";
    assert "$" + "1" == "$1" && "$" + "2" == "$2";
    assert Query.Pairs(args, 2) == [];
    assert Query.Pairs(args, 1) == [(":" + args[1].name, "$2")];
  }
}
