/** Schema migrations (internal/db/db.go, the scripts under migrations): a loop of transactions that
    any number of processes may run at once and that may crash anywhere. */
module Migrations {
  import opened Text

  /** What the migrations read or change. `columns` are those of requests, `rows` the
      contents of each table, `versions` the rows of schema_migrations. */
  datatype Db = Db(tracked: bool, versions: map<int, string>, tables: set<string>, indexes: set<string>,
                   columns: seq<string>, rows: map<string, seq<string>>)

  datatype Migration = Migration(version: int, name: string)

  const MIGRATIONS: seq<Migration> := [Migration(1, "001_init.sql"), Migration(2, "002_verified_by.sql")]
  const NEWEST: int := 2

  const TABLES: set<string> := {"endpoints", "requests", "replays"}
  const INDEXES: set<string> := {"idx_requests_slug_time", "idx_replays_req_time"}
  const COLUMNS: seq<string> :=
    ["id", "endpoint_slug", "method", "path", "query", "headers", "content_type", "body",
     "body_size", "truncated", "verify_status", "verify_error", "fix_hint", "received_at"]

  // ---------------------------------------------------------------- the scripts

  predicate HasVerifiedBy(db: Db) { exists c | c in db.columns :: EqualFold(c, "verified_by") }

  /** CREATE ... IF NOT EXISTS throughout; an index needs its columns. */
  function InitScript(db: Db): Option<Db>
  {
    var columns := if "requests" in db.tables then db.columns else COLUMNS;
    if "endpoint_slug" !in columns || "received_at" !in columns then None
    else Some(db.(tables := db.tables + TABLES, indexes := db.indexes + INDEXES, columns := columns,
                  rows := (map t | t in TABLES :: []) + db.rows))
  }

  /** ALTER TABLE requests ADD COLUMN verified_by. */
  function VerifiedByScript(db: Db): Option<Db>
  {
    if "requests" !in db.tables || HasVerifiedBy(db) then None
    else Some(db.(columns := db.columns + ["verified_by"]))
  }

  /** One migration's transaction; None rolls back. The version is a primary key. */
  function Transaction(db: Db, m: Migration): Option<Db>
  {
    var changed := if m.version == 2 then (if HasVerifiedBy(db) then Some(db) else VerifiedByScript(db))
                   else InitScript(db);
    if changed.None? || m.version in db.versions then None
    else Some(changed.value.(versions := changed.value.versions[m.version := m.name]))
  }

  function CreateTracking(db: Db): Db { db.(tracked := true) }

  /** MAX(version) exceeds what this binary knows. */
  predicate TooNew(db: Db) { exists v | v in db.versions :: v > NEWEST }

  // ---------------------------------------------------------------- openers

  /** Where one process is in applyMigrations. */
  datatype Opener = Starting | Tracked | Checking(i: nat) | Applying(i: nat) | Opened | Failed | Crashed

  datatype World = World(db: Db, openers: seq<Opener>)

  /** `fails`: the statement meets an error such as a busy database. */
  datatype Event = Open | Advance(k: nat, fails: bool) | Crash(k: nat)

  predicate Running(o: Opener) { o !in {Opened, Failed, Crashed} }

  predicate Enabled(w: World, e: Event) { e.Open? || (e.k < |w.openers| && Running(w.openers[e.k])) }

  /** One statement, or one transaction, of one process. */
  function Advanced(db: Db, o: Opener, fails: bool): (Db, Opener)
  {
    if fails then (db, Failed) else
    match o
    case Starting => (CreateTracking(db), Tracked)
    case Tracked => (db, if TooNew(db) then Failed else Checking(0))
    case Checking(i) =>
      (db, if i >= |MIGRATIONS| then Opened
           else if MIGRATIONS[i].version in db.versions then Checking(i + 1) else Applying(i))
    case Applying(i) =>
      if i >= |MIGRATIONS| then (db, Failed) else
      (match Transaction(db, MIGRATIONS[i])
       case None => (db, Failed)
       case Some(next) => (next, Checking(i + 1)))
    case _ => (db, o)
  }

  function Step(w: World, e: Event): World
    requires Enabled(w, e)
  {
    match e
    case Open => w.(openers := w.openers + [Starting])
    case Advance(k, fails) =>
      var (db, o) := Advanced(w.db, w.openers[k], fails);
      World(db, w.openers[k := o])
    case Crash(k) => w.(openers := w.openers[k := Crashed])
  }

  predicate IsRun(w: World, es: seq<Event>)
    decreases |es|
  {
    es == [] || (Enabled(w, es[0]) && IsRun(Step(w, es[0]), es[1..]))
  }

  function End(w: World, es: seq<Event>): World
    requires IsRun(w, es)
    decreases |es|
  {
    if es == [] then w else End(Step(w, es[0]), es[1..])
  }

  // ---------------------------------------------------------------- the stages

  /** A database from before version tracking: empty, or with tables that carry the columns
      the indexes need, with or without verified_by. */
  predicate Legacy(db: Db)
  {
    && db.versions == map[]
    && ("requests" in db.tables ==> "endpoint_slug" in db.columns && "received_at" in db.columns)
    && db.rows.Keys == db.tables
  }

  function Initialised(db: Db): Db
  {
    var columns := if "requests" in db.tables then db.columns else COLUMNS;
    Db(true, map[1 := "001_init.sql"], db.tables + TABLES, db.indexes + INDEXES, columns,
       (map t | t in TABLES :: []) + db.rows)
  }

  /** The one schema every run converges to. */
  function Final(db: Db): Db
  {
    var mid := Initialised(db);
    mid.(versions := map[1 := "001_init.sql", 2 := "002_verified_by.sql"],
         columns := if HasVerifiedBy(mid) then mid.columns else mid.columns + ["verified_by"])
  }

  lemma StageOne(db: Db)
    requires Legacy(db)
    ensures Transaction(CreateTracking(db), MIGRATIONS[0]) == Some(Initialised(db))
  {
    assert map[][1 := "001_init.sql"] == map[1 := "001_init.sql"];
  }

  lemma StageTwo(db: Db)
    requires Legacy(db)
    ensures Transaction(Initialised(db), MIGRATIONS[1]) == Some(Final(db))
  {
    assert map[1 := "001_init.sql"][2 := "002_verified_by.sql"]
           == map[1 := "001_init.sql", 2 := "002_verified_by.sql"];
  }

  ghost predicate AtStage(db: Db, now: Db) { now in {db, CreateTracking(db), Initialised(db), Final(db)} }

  /** A process is never ahead of the database. */
  ghost predicate Backed(now: Db, o: Opener)
  {
    match o
    case Starting => true
    case Tracked => now.tracked
    case Checking(i) => now.tracked && i <= 2 && (i >= 1 ==> 1 in now.versions) && (i >= 2 ==> 2 in now.versions)
    case Applying(i) => now.tracked && i <= 1 && (i >= 1 ==> 1 in now.versions)
    case Opened => 1 in now.versions && 2 in now.versions
    case _ => true
  }

  ghost predicate Inv(db: Db, w: World)
  {
    AtStage(db, w.db) && forall k | 0 <= k < |w.openers| :: Backed(w.db, w.openers[k])
  }

  /** Versions and tracking only ever grow from stage to stage. */
  ghost predicate Grown(old_: Db, new_: Db)
  {
    (old_.tracked ==> new_.tracked) && old_.versions.Keys <= new_.versions.Keys
  }

  lemma AdvancedStaysOnStage(db: Db, now: Db, o: Opener, fails: bool)
    requires Legacy(db) && AtStage(db, now) && Backed(now, o)
    ensures var (next, o') := Advanced(now, o, fails);
            AtStage(db, next) && Grown(now, next) && Backed(next, o')
  {
    if o.Applying? && !fails {
      StageOne(db);
      StageTwo(db);
      if o.i == 0 && now == db {
        assert now == CreateTracking(db);
      }
    }
  }

  lemma InvStep(db: Db, w: World, e: Event)
    requires Legacy(db) && Inv(db, w) && Enabled(w, e)
    ensures Inv(db, Step(w, e))
  {
    if e.Advance? {
      AdvancedStaysOnStage(db, w.db, w.openers[e.k], e.fails);
    }
  }

  lemma {:induction false} InvAlways(db: Db, w: World, es: seq<Event>)
    requires Legacy(db) && Inv(db, w) && IsRun(w, es)
    ensures Inv(db, End(w, es))
    decreases |es|
  {
    if es != [] {
      InvStep(db, w, es[0]);
      InvAlways(db, Step(w, es[0]), es[1..]);
    }
  }

  /** Main result: however many processes open a legacy database, crash, fail and retry, it
      is always at one of four stages, and once any of them has opened it the schema is the
      final one. */
  lemma MigrationConverges(db: Db, es: seq<Event>)
    requires Legacy(db) && IsRun(World(db, []), es)
    ensures var w := End(World(db, []), es);
            AtStage(db, w.db) && (Opened in w.openers ==> w.db == Final(db))
  {
    InvAlways(db, World(db, []), es);
    var w := End(World(db, []), es);
    if Opened in w.openers {
      var k :| 0 <= k < |w.openers| && w.openers[k] == Opened;
      assert Backed(w.db, w.openers[k]);
    }
  }

  /** The final schema keeps every old row, adds verified_by at most once, and records each
      version once. */
  lemma FinalIsSafe(db: Db)
    requires Legacy(db)
    ensures var f := Final(db);
            && (forall t | t in db.tables :: t in f.tables && t in f.rows && f.rows[t] == db.rows[t])
            && TABLES <= f.tables && INDEXES <= f.indexes && HasVerifiedBy(f)
            && f.versions.Keys == {1, 2}
            && ("requests" in db.tables ==>
                  (&& db.columns <= f.columns
                   && |f.columns| == |db.columns| + (if HasVerifiedBy(db) then 0 else 1)))
  {
    var mid := Initialised(db);
    if !HasVerifiedBy(mid) {
      assert Final(db).columns[|mid.columns|] == "verified_by";
      assert "verified_by" in Final(db).columns;
    }
  }

  lemma OtherColumn(c: string)
    requires |c| != 11 || c[0] == 'r'
    ensures !EqualFold(c, "verified_by")
  {
    assert |Lower(c)| == |c| && |Lower("verified_by")| == 11;
    assert |c| == 11 ==> Lower(c)[0] == 'r' && Lower("verified_by")[0] == 'v';
  }

  lemma ColumnsLackVerifiedBy(db: Db)
    requires db.columns == COLUMNS
    ensures !HasVerifiedBy(db)
  {
    forall c | c in COLUMNS ensures !EqualFold(c, "verified_by") {
      OtherColumn(c);
    }
  }

  /** What an empty database becomes, spelled out. */
  lemma EmptyBecomes()
    ensures var f := Final(Db(false, map[], {}, {}, [], map[]));
            && f.tracked && f.versions == map[1 := "001_init.sql", 2 := "002_verified_by.sql"]
            && f.tables == {"endpoints", "requests", "replays"}
            && f.indexes == {"idx_requests_slug_time", "idx_replays_req_time"}
            && f.columns == ["id", "endpoint_slug", "method", "path", "query", "headers", "content_type", "body",
                             "body_size", "truncated", "verify_status", "verify_error", "fix_hint", "received_at"]
                            + ["verified_by"]
            && f.rows.Keys == f.tables && forall t | t in f.rows :: f.rows[t] == []
  {
    ColumnsLackVerifiedBy(Initialised(Db(false, map[], {}, {}, [], map[])));
  }

  // ---------------------------------------------------------------- one opener alone

  /** Read, change and record through one connection. */
  class Connection {
    var db: Db

    /** applyMigrations with no failing statement; false is an error. */
    method ApplyMigrations() returns (ok: bool)
      modifies this
      ensures forall legacy: Db | Legacy(legacy) && AtStage(legacy, old(db)) :: ok && db == Final(legacy)
      ensures TooNew(old(db)) ==> !ok && db == CreateTracking(old(db))
    {
      ghost var before := db;
      db := db.(tracked := true);
      if exists v | v in db.versions :: v > NEWEST { return false; }
      for i := 0 to |MIGRATIONS|
        invariant !TooNew(before)
        invariant forall legacy: Db | Legacy(legacy) && AtStage(legacy, before) ::
                    AtStage(legacy, db) && Backed(db, Checking(i))
      {
        var m := MIGRATIONS[i];
        ghost var mid := db;
        if m.version in db.versions { continue; }
        forall legacy: Db | Legacy(legacy) && AtStage(legacy, before)
          ensures Transaction(db, m).Some?
          ensures AtStage(legacy, Transaction(db, m).value)
          ensures Backed(Transaction(db, m).value, Checking(i + 1))
        {
          StageOne(legacy);
          StageTwo(legacy);
        }
        var done := Transaction(db, m);
        if done.None? { return false; }
        db := done.value;
      }
      ok := true;
    }
  }

  /** A database with a version above the two known ones is refused with its schema, versions and rows untouched. */
  lemma NewerIsUntouched(w: World, es: seq<Event>)
    requires (exists v | v in w.db.versions :: v > 2) && w.db.tracked && w.openers == [] && IsRun(w, es)
    ensures End(w, es).db == w.db && Opened !in End(w, es).openers
  {
    NewerStays(w, es);
  }

  ghost predicate OnlyRefused(w: World)
  {
    forall k | 0 <= k < |w.openers| :: w.openers[k] in {Starting, Tracked, Failed, Crashed}
  }

  lemma {:induction false} NewerStays(w: World, es: seq<Event>)
    requires TooNew(w.db) && w.db.tracked && OnlyRefused(w) && IsRun(w, es)
    ensures End(w, es).db == w.db && OnlyRefused(End(w, es))
    decreases |es|
  {
    if es != [] {
      NewerStays(Step(w, es[0]), es[1..]);
    }
  }

  /** Two processes that both find a version missing cannot both record it: the second to
      commit fails and changes nothing. */
  lemma RaceFailsCleanly(db: Db, i: nat)
    requires Legacy(db) && i < 2
    ensures var now := if i == 0 then CreateTracking(db) else Initialised(db);
            var (next, first) := Advanced(now, Applying(i), false);
            var (last, second) := Advanced(next, Applying(i), false);
            first == Checking(i + 1) && second == Failed && last == next
  {
    if i == 0 {
      StageOne(db);
    } else {
      StageTwo(db);
    }
  }
}
