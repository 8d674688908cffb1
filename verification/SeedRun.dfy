/**
 Whole runs of the snapshot seeder: presence check, uploads, one transaction.

 Runs follow one another and each may fail at any point. The asset store keeps what a
 failed run has put; the transaction leaves nothing. Cyclic references are cut by
 inserting rows with null in the column that closes the cycle, and updating it afterwards.
 */
module SeedRun {
  import opened Prelude

  datatype Design = Design(id: nat, active: Option<nat>)

  datatype Dated = Dated(id: nat, publishedAt: Option<nat>)

  datatype Asset = Asset(key: nat, content: nat)

  datatype Fixture = Fixture(
    designs: seq<Design>, designVersions: seq<nat>, courses: seq<nat>,
    courseVersions: seq<Dated>, templateVersions: seq<Dated>, assets: seq<Asset>)

  datatype Db = Db(
    designs: map<nat, Option<nat>>, designVersions: set<nat>, courses: set<nat>,
    courseVersions: map<nat, Option<nat>>, templateVersions: map<nat, Option<nat>>)

  datatype Verdict = AlreadySeeded | PartialFixture | NoAnchors | Seeded | Failed

  /** `plan` is the fixture a run is about to insert, `pending` the transaction's view. */
  datatype Stage =
    | Idle
    | Uploading(plan: Fixture, next: nat)
    | Inserting(plan: Fixture, pending: Db, table: nat)
    | Restoring(plan: Fixture, pending: Db, next: nat)
    | Ended(verdict: Verdict)

  /** `puts` counts the objects written, by key. */
  datatype World = World(db: Db, objects: map<nat, nat>, puts: multiset<nat>, stage: Stage)

  /** `renames` are the ids of fixture users that are stored under another id. */
  datatype Step = Start(renames: map<nat, nat>) | Upload | Insert | Restore | Commit | Fail

  // ----- the presence check -----

  function Anchored(anchors: seq<nat>, courses: set<nat>): set<nat> {
    set a | a in anchors && a in courses
  }

  function Presence(anchors: seq<nat>, courses: set<nat>): Option<Verdict> {
    var count := |Anchored(anchors, courses)|;
    if anchors == [] then Some(NoAnchors)
    else if count == 0 then None
    else if count != |anchors| then Some(PartialFixture)
    else Some(AlreadySeeded)
  }

  // ----- what a run is about to insert -----

  function Image(renames: map<nat, nat>, id: nat): nat {
    if id in renames then renames[id] else id
  }

  function NewDesigns(rows: seq<Design>, db: Db): seq<Design> {
    if rows == [] then []
    else (if rows[0].id in db.designs then [] else [rows[0]]) + NewDesigns(rows[1..], db)
  }

  function NewVersions(ids: seq<nat>, db: Db): seq<nat> {
    if ids == [] then []
    else (if ids[0] in db.designVersions then [] else [ids[0]]) + NewVersions(ids[1..], db)
  }

  function Plan(f: Fixture, db: Db, renames: map<nat, nat>): Fixture {
    f.(designs := NewDesigns(f.designs, db), designVersions := NewVersions(f.designVersions, db),
       courses := seq(|f.courses|, i requires 0 <= i < |f.courses| => Image(renames, f.courses[i])))
  }

  // ----- one table, one update -----

  const TABLES := 5

  function IdsOfDesigns(rows: seq<Design>): seq<nat> {
    seq(|rows|, i requires 0 <= i < |rows| => rows[i].id)
  }

  function IdsOfDated(rows: seq<Dated>): seq<nat> {
    seq(|rows|, i requires 0 <= i < |rows| => rows[i].id)
  }

  predicate Fresh(ids: seq<nat>, stored: set<nat>) {
    && (forall i :: 0 <= i < |ids| ==> ids[i] !in stored)
    && (forall i, j :: 0 <= i < j < |ids| ==> ids[i] != ids[j])
  }

  /** Primary keys accept a table only if its ids are new and distinct. */
  predicate Insertable(plan: Fixture, db: Db, table: nat) {
    if table == 0 then Fresh(IdsOfDesigns(plan.designs), db.designs.Keys)
    else if table == 1 then Fresh(plan.designVersions, db.designVersions)
    else if table == 2 then Fresh(plan.courses, db.courses)
    else if table == 3 then Fresh(IdsOfDated(plan.courseVersions), db.courseVersions.Keys)
    else Fresh(IdsOfDated(plan.templateVersions), db.templateVersions.Keys)
  }

  function Nulls(ids: seq<nat>): map<nat, Option<nat>> {
    map i | i in ids :: None
  }

  function SetOf(ids: seq<nat>): set<nat> {
    set i | i in ids
  }

  /** Tables go in with the columns that close a cycle left null. */
  function Inserted(plan: Fixture, db: Db, table: nat): Db {
    if table == 0 then db.(designs := db.designs + Nulls(IdsOfDesigns(plan.designs)))
    else if table == 1 then db.(designVersions := db.designVersions + SetOf(plan.designVersions))
    else if table == 2 then db.(courses := db.courses + SetOf(plan.courses))
    else if table == 3 then db.(courseVersions := db.courseVersions + Nulls(IdsOfDated(plan.courseVersions)))
    else db.(templateVersions := db.templateVersions + Nulls(IdsOfDated(plan.templateVersions)))
  }

  datatype Update = Activate(id: nat, version: nat) | DateCourse(id: nat, at: nat) | DateTemplate(id: nat, at: nat)

  function DesignUpdates(rows: seq<Design>): seq<Update> {
    if rows == [] then []
    else (if rows[0].active.Some? then [Activate(rows[0].id, rows[0].active.value)] else []) + DesignUpdates(rows[1..])
  }

  function DatedUpdates(rows: seq<Dated>, course: bool): seq<Update> {
    if rows == [] then []
    else (if rows[0].publishedAt.None? then []
          else if course then [DateCourse(rows[0].id, rows[0].publishedAt.value)]
          else [DateTemplate(rows[0].id, rows[0].publishedAt.value)])
         + DatedUpdates(rows[1..], course)
  }

  function Updates(plan: Fixture): seq<Update> {
    DesignUpdates(plan.designs) + DatedUpdates(plan.courseVersions, true) + DatedUpdates(plan.templateVersions, false)
  }

  /** A design may only be pointed at a stored version. */
  predicate Allowed(db: Db, u: Update) {
    u.Activate? ==> u.version in db.designVersions
  }

  function Updated(db: Db, u: Update): Db {
    match u
    case Activate(id, version) =>
      if id in db.designs && db.designs[id].None? then db.(designs := db.designs[id := Some(version)]) else db
    case DateCourse(id, at) =>
      if id in db.courseVersions then db.(courseVersions := db.courseVersions[id := Some(at)]) else db
    case DateTemplate(id, at) =>
      if id in db.templateVersions then db.(templateVersions := db.templateVersions[id := Some(at)]) else db
  }

  // ----- the machine -----

  function Next(w: World, s: Step, f: Fixture): World {
    match s
    case Start(renames) =>
      if !w.stage.Idle? && !w.stage.Ended? then w
      else var verdict := Presence(f.courses, w.db.courses);
           if verdict.Some? then w.(stage := Ended(verdict.value))
           else w.(stage := Uploading(Plan(f, w.db, renames), 0))
    case Upload =>
      (match w.stage
       case Uploading(plan, next) =>
         if next >= |plan.assets| then w.(stage := Inserting(plan, w.db, 0))
         else if plan.assets[next].key in w.objects then w.(stage := Uploading(plan, next + 1))
         else w.(objects := w.objects[plan.assets[next].key := plan.assets[next].content],
                 puts := w.puts + multiset{plan.assets[next].key}, stage := Uploading(plan, next + 1))
       case _ => w)
    case Insert =>
      (match w.stage
       case Inserting(plan, pending, table) =>
         if table >= TABLES then w.(stage := Restoring(plan, pending, 0))
         else if !Insertable(plan, pending, table) then w.(stage := Ended(Failed))
         else w.(stage := Inserting(plan, Inserted(plan, pending, table), table + 1))
       case _ => w)
    case Restore =>
      (match w.stage
       case Restoring(plan, pending, next) =>
         if next >= |Updates(plan)| then w
         else if !Allowed(pending, Updates(plan)[next]) then w.(stage := Ended(Failed))
         else w.(stage := Restoring(plan, Updated(pending, Updates(plan)[next]), next + 1))
       case _ => w)
    case Commit =>
      (match w.stage
       case Restoring(plan, pending, next) =>
         if next < |Updates(plan)| then w else w.(db := pending, stage := Ended(Seeded))
       case _ => w)
    case Fail => if w.stage.Idle? || w.stage.Ended? then w else w.(stage := Ended(Failed))
  }

  function Run(w: World, steps: seq<Step>, f: Fixture): World
    decreases |steps|
  {
    if steps == [] then w else Run(Next(w, steps[0], f), steps[1..], f)
  }

  // ----- designs never point nowhere -----

  ghost predicate NoDangling(db: Db) {
    forall d :: d in db.designs && db.designs[d].Some? ==> db.designs[d].value in db.designVersions
  }

  ghost predicate SafeStage(w: World) {
    && NoDangling(w.db)
    && (w.stage.Inserting? || w.stage.Restoring? ==> NoDangling(w.stage.pending))
  }

  /** In every run, failures included, no state of the database or of an open transaction has
      a design pointing at a version that is not stored. */
  lemma {:induction false} NoDesignDangles(w: World, steps: seq<Step>, f: Fixture)
    requires SafeStage(w)
    ensures SafeStage(Run(w, steps, f))
    decreases |steps|
  {
    if steps != [] {
      NoDesignDangles(Next(w, steps[0], f), steps[1..], f);
    }
  }

  // ----- all anchors or none -----

  ghost predicate Distinct(ids: seq<nat>) {
    forall i, j :: 0 <= i < j < |ids| ==> ids[i] != ids[j]
  }

  predicate NoAnchor(f: Fixture, db: Db) { forall a :: a in f.courses ==> a !in db.courses }

  predicate AllAnchors(f: Fixture, db: Db) { forall a :: a in f.courses ==> a in db.courses }

  ghost predicate Whole(f: Fixture, db: Db) {
    NoAnchor(f, db) || (AllAnchors(f, db) && Distinct(f.courses))
  }

  lemma {:induction false} DistinctCount(ids: seq<nat>)
    requires Distinct(ids)
    ensures |SetOf(ids)| == |ids|
  {
    if ids != [] {
      DistinctCount(ids[1..]);
      assert SetOf(ids) == SetOf(ids[1..]) + {ids[0]};
      assert ids[0] !in SetOf(ids[1..]);
    }
  }

  /** The check reads a database with all anchors or none as what it is, never as partial. */
  lemma WholeIsRecognised(f: Fixture, db: Db)
    requires Whole(f, db) && f.courses != []
    ensures Presence(f.courses, db.courses) == if NoAnchor(f, db) then None else Some(AlreadySeeded)
  {
    if NoAnchor(f, db) {
      assert Anchored(f.courses, db.courses) == {};
    } else {
      assert Anchored(f.courses, db.courses) == SetOf(f.courses);
      DistinctCount(f.courses);
      assert f.courses[0] in SetOf(f.courses);
    }
  }

  /** Renaming users renames no anchor. */
  predicate AnchorsKept(f: Fixture, s: Step) {
    s.Start? ==> forall a :: a in f.courses ==> a !in s.renames
  }

  predicate CoursesIn(stage: Stage) {
    (stage.Inserting? && stage.table > 2) || stage.Restoring?
  }

  ghost predicate AnchorInv(w: World, f: Fixture) {
    && Whole(f, w.db)
    && w.stage != Ended(PartialFixture)
    && (w.stage.Uploading? || w.stage.Inserting? || w.stage.Restoring? ==> w.stage.plan.courses == f.courses)
    && (w.stage.Inserting? && w.stage.table <= 2 ==> w.stage.pending.courses == w.db.courses)
    && (CoursesIn(w.stage) ==> Distinct(f.courses) && w.stage.pending.courses == w.db.courses + SetOf(f.courses))
  }

  lemma NextKeepsAnchors(w: World, s: Step, f: Fixture)
    requires AnchorInv(w, f) && AnchorsKept(f, s)
    ensures AnchorInv(Next(w, s, f), f)
  {
    if s.Start? && f.courses != [] { WholeIsRecognised(f, w.db); }
  }

  lemma {:induction false} RunKeepsAnchors(w: World, steps: seq<Step>, f: Fixture)
    requires AnchorInv(w, f) && forall s :: s in steps ==> AnchorsKept(f, s)
    ensures AnchorInv(Run(w, steps, f), f)
    decreases |steps|
  {
    if steps != [] {
      NextKeepsAnchors(w, steps[0], f);
      RunKeepsAnchors(Next(w, steps[0], f), steps[1..], f);
    }
  }

  /** Over any sequence of runs, each failing wherever it may, the database holds all the
      anchors or none, and no run ever ends in the partial-fixture error. */
  lemma AnchorsAllOrNone(w: World, steps: seq<Step>, f: Fixture)
    requires w.stage.Idle? && NoAnchor(f, w.db) && forall s :: s in steps ==> AnchorsKept(f, s)
    ensures var end := Run(w, steps, f);
      && (NoAnchor(f, end.db) || AllAnchors(f, end.db))
      && end.stage != Ended(PartialFixture)
  {
    RunKeepsAnchors(w, steps, f);
  }

  predicate Resting(w: World) { w.stage.Idle? || w.stage.Ended? }

  /** Once the anchors are there, every later run changes neither database nor store. */
  lemma {:induction false} AfterCommitNothingChanges(w: World, steps: seq<Step>, f: Fixture)
    requires Resting(w) && f.courses != [] && AllAnchors(f, w.db) && Distinct(f.courses)
    ensures var end := Run(w, steps, f); Resting(end) && end.db == w.db && end.objects == w.objects && end.puts == w.puts
    decreases |steps|
  {
    if steps != [] {
      assert f.courses[0] in w.db.courses;
      WholeIsRecognised(f, w.db);
      AfterCommitNothingChanges(Next(w, steps[0], f), steps[1..], f);
    }
  }

  // ----- uploads -----

  ghost predicate Stored(assets: seq<Asset>, count: nat, objects: map<nat, nat>) {
    forall i :: 0 <= i < count && i < |assets| ==> assets[i].key in objects
  }

  ghost predicate UploadInv(w: World, f: Fixture) {
    && (forall k :: w.puts[k] <= 1 && (k in w.puts ==> k in w.objects))
    && (w.stage.Uploading? || w.stage.Inserting? || w.stage.Restoring? ==> w.stage.plan.assets == f.assets)
    && (w.stage.Uploading? ==> Stored(f.assets, w.stage.next, w.objects))
    && (w.stage.Inserting? || w.stage.Restoring? || w.stage == Ended(Seeded) ==> Stored(f.assets, |f.assets|, w.objects))
  }

  lemma UploadKeepsUploads(w: World, f: Fixture)
    requires UploadInv(w, f) && w.stage.Uploading?
    ensures UploadInv(Next(w, Upload, f), f)
  {
    var w' := Next(w, Upload, f);
    var next := w.stage.next;
    if next < |f.assets| {
      assert Stored(f.assets, next + 1, w'.objects);
      assert forall k :: w'.puts[k] == w.puts[k] || (k == f.assets[next].key && k !in w.puts && w'.puts[k] == 1);
    }
  }

  lemma NextKeepsUploads(w: World, s: Step, f: Fixture)
    requires UploadInv(w, f)
    ensures UploadInv(Next(w, s, f), f)
  {
    if s.Upload? && w.stage.Uploading? { UploadKeepsUploads(w, f); }
  }

  lemma {:induction false} RunKeepsUploads(w: World, steps: seq<Step>, f: Fixture)
    requires UploadInv(w, f)
    ensures UploadInv(Run(w, steps, f), f)
    ensures forall k :: k in w.objects ==> k in Run(w, steps, f).objects && Run(w, steps, f).objects[k] == w.objects[k]
    decreases |steps|
  {
    if steps != [] {
      NextKeepsUploads(w, steps[0], f);
      RunKeepsUploads(Next(w, steps[0], f), steps[1..], f);
    }
  }

  lemma WrittenIsAsset(w: World, s: Step, f: Fixture, k: nat)
    requires UploadInv(w, f) && k !in w.objects && k in Next(w, s, f).objects
    ensures Asset(k, Next(w, s, f).objects[k]) in f.assets
  {
    assert s.Upload? && w.stage.Uploading? && f.assets[w.stage.next].key == k;
  }

  /** What a run puts into the store is the content of an asset under its key. */
  lemma {:induction false} UploadedContents(w: World, steps: seq<Step>, f: Fixture, k: nat)
    requires UploadInv(w, f) && k !in w.objects && k in Run(w, steps, f).objects
    ensures Asset(k, Run(w, steps, f).objects[k]) in f.assets
    decreases |steps|
  {
    var w' := Next(w, steps[0], f);
    NextKeepsUploads(w, steps[0], f);
    if k in w'.objects {
      WrittenIsAsset(w, steps[0], f, k);
      RunKeepsUploads(w', steps[1..], f);
    } else {
      UploadedContents(w', steps[1..], f, k);
    }
  }

  /** Over any sequence of runs no object is written twice or changed, and after a run that
      commits every asset is in the store, whichever run put it there. */
  lemma UploadsAreResumed(w: World, steps: seq<Step>, f: Fixture)
    requires w.stage.Idle? && w.puts == multiset{}
    ensures var end := Run(w, steps, f);
      && (forall k :: end.puts[k] <= 1)
      && (forall k :: k in w.objects ==> k in end.objects && end.objects[k] == w.objects[k])
      && (end.stage == Ended(Seeded) ==> forall i :: 0 <= i < |f.assets| ==> f.assets[i].key in end.objects)
      && (forall k :: k in end.objects && k !in w.objects ==> Asset(k, end.objects[k]) in f.assets)
  {
    RunKeepsUploads(w, steps, f);
    forall k | k in Run(w, steps, f).objects && k !in w.objects ensures Asset(k, Run(w, steps, f).objects[k]) in f.assets {
      UploadedContents(w, steps, f, k);
    }
  }

  // ----- what a commit leaves -----

  function AfterTables(plan: Fixture, db: Db, count: nat): Db {
    if count == 0 then db else Inserted(plan, AfterTables(plan, db, count - 1), count - 1)
  }

  function AfterUpdates(db: Db, us: seq<Update>): Db {
    if us == [] then db else Updated(AfterUpdates(db, us[..|us| - 1]), us[|us| - 1])
  }

  ghost predicate AllInsertable(plan: Fixture, db: Db, count: nat) {
    forall t :: 0 <= t < count ==> Insertable(plan, AfterTables(plan, db, t), t)
  }

  /** A transaction holds exactly the tables and updates it has got through. */
  ghost predicate ProgressInv(w: World) {
    match w.stage
    case Inserting(plan, pending, table) =>
      table <= TABLES && pending == AfterTables(plan, w.db, table) && AllInsertable(plan, w.db, table)
    case Restoring(plan, pending, next) =>
      next <= |Updates(plan)| && AllInsertable(plan, w.db, TABLES)
      && pending == AfterUpdates(AfterTables(plan, w.db, TABLES), Updates(plan)[..next])
    case _ => true
  }

  lemma NextKeepsProgress(w: World, s: Step, f: Fixture)
    requires ProgressInv(w)
    ensures ProgressInv(Next(w, s, f))
  {
    if s.Restore? && w.stage.Restoring? && w.stage.next < |Updates(w.stage.plan)| {
      var us, n := Updates(w.stage.plan), w.stage.next;
      assert us[..n + 1][..n] == us[..n];
    }
  }

  lemma {:induction false} RunKeepsProgress(w: World, steps: seq<Step>, f: Fixture)
    requires ProgressInv(w)
    ensures ProgressInv(Run(w, steps, f))
    decreases |steps|
  {
    if steps != [] {
      NextKeepsProgress(w, steps[0], f);
      RunKeepsProgress(Next(w, steps[0], f), steps[1..], f);
    }
  }

  lemma TablesContent(plan: Fixture, db: Db)
    ensures AfterTables(plan, db, TABLES)
      == Db(db.designs + Nulls(IdsOfDesigns(plan.designs)), db.designVersions + SetOf(plan.designVersions),
            db.courses + SetOf(plan.courses), db.courseVersions + Nulls(IdsOfDated(plan.courseVersions)),
            db.templateVersions + Nulls(IdsOfDated(plan.templateVersions)))
  {
    var d1 := Inserted(plan, db, 0);
    var d2 := Inserted(plan, d1, 1);
    var d3 := Inserted(plan, d2, 2);
    assert AfterTables(plan, db, 1) == d1;
    assert AfterTables(plan, db, 2) == d2;
    assert AfterTables(plan, db, 3) == d3;
    assert AfterTables(plan, db, 4) == Inserted(plan, d3, 3);
  }

  lemma {:induction false} UpdatesAppend(db: Db, a: seq<Update>, b: seq<Update>)
    ensures AfterUpdates(db, a + b) == AfterUpdates(AfterUpdates(db, a), b)
  {
    if b == [] {
      assert a + b == a;
    } else {
      var n := |b| - 1;
      assert (a + b)[..|a + b| - 1] == a + b[..n];
      UpdatesAppend(db, a, b[..n]);
    }
  }

  /** The rows' captured values are in the table, and the other rows are as they were. */
  ghost predicate Restored(before: map<nat, Option<nat>>, after: map<nat, Option<nat>>, ids: seq<nat>, values: seq<Option<nat>>)
    requires |ids| == |values|
  {
    && after.Keys == before.Keys
    && (forall i :: 0 <= i < |ids| ==> ids[i] in after && after[ids[i]] == values[i])
    && (forall k :: k in before && k !in ids ==> after[k] == before[k])
  }

  ghost predicate AllNull(table: map<nat, Option<nat>>, ids: seq<nat>) {
    forall i :: 0 <= i < |ids| ==> ids[i] in table && table[ids[i]].None?
  }

  function Actives(rows: seq<Design>): seq<Option<nat>> {
    seq(|rows|, i requires 0 <= i < |rows| => rows[i].active)
  }

  function Dates(rows: seq<Dated>): seq<Option<nat>> {
    seq(|rows|, i requires 0 <= i < |rows| => rows[i].publishedAt)
  }

  lemma RestoredCons(before: map<nat, Option<nat>>, mid: map<nat, Option<nat>>, after: map<nat, Option<nat>>,
                     ids: seq<nat>, values: seq<Option<nat>>)
    requires ids != [] && |ids| == |values| && Distinct(ids)
    requires Restored(before, mid, [ids[0]], [values[0]]) && Restored(mid, after, ids[1..], values[1..])
    ensures Restored(before, after, ids, values)
  {
    assert ids == [ids[0]] + ids[1..];
    assert ids[0] !in ids[1..];
    assert [ids[0]][0] == ids[0];
    forall i | 0 < i < |ids| ensures ids[i] in after && after[ids[i]] == values[i] {
      assert ids[i] == ids[1..][i - 1];
    }
  }

  function Activation(row: Design): seq<Update> {
    if row.active.Some? then [Activate(row.id, row.active.value)] else []
  }

  lemma FirstDesign(db: Db, row: Design)
    requires row.id in db.designs && db.designs[row.id].None?
    ensures var mid := AfterUpdates(db, Activation(row));
      mid == db.(designs := mid.designs) && Restored(db.designs, mid.designs, [row.id], [row.active])
  {
    if Activation(row) != [] { assert Activation(row)[..0] == []; }
  }

  lemma {:induction false} DesignsRestored(db: Db, rows: seq<Design>)
    requires Distinct(IdsOfDesigns(rows)) && AllNull(db.designs, IdsOfDesigns(rows))
    ensures var after := AfterUpdates(db, DesignUpdates(rows));
      after == db.(designs := after.designs) && Restored(db.designs, after.designs, IdsOfDesigns(rows), Actives(rows))
    decreases |rows|
  {
    if rows != [] {
      var rest := rows[1..];
      var mid := AfterUpdates(db, Activation(rows[0]));
      assert IdsOfDesigns(rows)[1..] == IdsOfDesigns(rest) && Actives(rows)[1..] == Actives(rest);
      assert IdsOfDesigns(rows)[0] == rows[0].id;
      FirstDesign(db, rows[0]);
      forall i | 0 <= i < |rest| ensures IdsOfDesigns(rest)[i] == IdsOfDesigns(rows)[i + 1] {}
      DesignsRestored(mid, rest);
      UpdatesAppend(db, Activation(rows[0]), DesignUpdates(rest));
      assert DesignUpdates(rows) == Activation(rows[0]) + DesignUpdates(rest);
      RestoredCons(db.designs, mid.designs, AfterUpdates(db, DesignUpdates(rows)).designs, IdsOfDesigns(rows), Actives(rows));
    }
  }

  function DatedTable(db: Db, course: bool): map<nat, Option<nat>> {
    if course then db.courseVersions else db.templateVersions
  }

  function WithDated(db: Db, course: bool, table: map<nat, Option<nat>>): Db {
    if course then db.(courseVersions := table) else db.(templateVersions := table)
  }

  function Dating(row: Dated, course: bool): seq<Update> {
    if row.publishedAt.None? then []
    else if course then [DateCourse(row.id, row.publishedAt.value)] else [DateTemplate(row.id, row.publishedAt.value)]
  }

  lemma FirstDate(db: Db, row: Dated, course: bool)
    requires row.id in DatedTable(db, course) && DatedTable(db, course)[row.id].None?
    ensures var mid := AfterUpdates(db, Dating(row, course));
      mid == WithDated(db, course, DatedTable(mid, course))
      && Restored(DatedTable(db, course), DatedTable(mid, course), [row.id], [row.publishedAt])
  {
    if Dating(row, course) != [] { assert Dating(row, course)[..0] == []; }
  }

  lemma {:induction false} DatesRestored(db: Db, rows: seq<Dated>, course: bool)
    requires Distinct(IdsOfDated(rows)) && AllNull(DatedTable(db, course), IdsOfDated(rows))
    ensures var after := AfterUpdates(db, DatedUpdates(rows, course));
      after == WithDated(db, course, DatedTable(after, course))
      && Restored(DatedTable(db, course), DatedTable(after, course), IdsOfDated(rows), Dates(rows))
    decreases |rows|
  {
    if rows != [] {
      var rest := rows[1..];
      var mid := AfterUpdates(db, Dating(rows[0], course));
      assert IdsOfDated(rows)[1..] == IdsOfDated(rest) && Dates(rows)[1..] == Dates(rest);
      assert IdsOfDated(rows)[0] == rows[0].id;
      FirstDate(db, rows[0], course);
      forall i | 0 <= i < |rest| ensures IdsOfDated(rest)[i] == IdsOfDated(rows)[i + 1] {}
      DatesRestored(mid, rest, course);
      UpdatesAppend(db, Dating(rows[0], course), DatedUpdates(rest, course));
      assert DatedUpdates(rows, course) == Dating(rows[0], course) + DatedUpdates(rest, course);
      RestoredCons(DatedTable(db, course), DatedTable(mid, course), DatedTable(AfterUpdates(db, DatedUpdates(rows, course)), course),
                   IdsOfDated(rows), Dates(rows));
    }
  }

  lemma NullsAreNull(before: map<nat, Option<nat>>, ids: seq<nat>)
    ensures AllNull(before + Nulls(ids), ids)
  {
  }

  /** What the insert-null-and-restore sequence leaves: the tables with the fixture's rows, each
      carrying exactly the value captured for it, and every other row as it was. */
  lemma CapturedValuesAreRestored(plan: Fixture, db: Db)
    requires AllInsertable(plan, db, TABLES)
    ensures var after := AfterUpdates(AfterTables(plan, db, TABLES), Updates(plan));
      && Restored(db.designs + Nulls(IdsOfDesigns(plan.designs)), after.designs, IdsOfDesigns(plan.designs), Actives(plan.designs))
      && Restored(db.courseVersions + Nulls(IdsOfDated(plan.courseVersions)), after.courseVersions,
                  IdsOfDated(plan.courseVersions), Dates(plan.courseVersions))
      && Restored(db.templateVersions + Nulls(IdsOfDated(plan.templateVersions)), after.templateVersions,
                  IdsOfDated(plan.templateVersions), Dates(plan.templateVersions))
      && after.designVersions == db.designVersions + SetOf(plan.designVersions)
      && after.courses == db.courses + SetOf(plan.courses)
  {
    TablesContent(plan, db);
    var t := AfterTables(plan, db, TABLES);
    assert Insertable(plan, AfterTables(plan, db, 0), 0);
    assert Insertable(plan, AfterTables(plan, db, 3), 3);
    assert Insertable(plan, AfterTables(plan, db, 4), 4);
    NullsAreNull(db.designs, IdsOfDesigns(plan.designs));
    NullsAreNull(db.courseVersions, IdsOfDated(plan.courseVersions));
    NullsAreNull(db.templateVersions, IdsOfDated(plan.templateVersions));
    var us, vs, ws := DesignUpdates(plan.designs), DatedUpdates(plan.courseVersions, true), DatedUpdates(plan.templateVersions, false);
    DesignsRestored(t, plan.designs);
    var t1 := AfterUpdates(t, us);
    DatesRestored(t1, plan.courseVersions, true);
    var t2 := AfterUpdates(t1, vs);
    DatesRestored(t2, plan.templateVersions, false);
    UpdatesAppend(t, us, vs);
    UpdatesAppend(t, us + vs, ws);
  }

  /** A run inserts the fixture rows that are new to the database it found. */
  predicate Planned(plan: Fixture, f: Fixture, db: Db) {
    plan == f.(designs := NewDesigns(f.designs, db), designVersions := NewVersions(f.designVersions, db), courses := plan.courses)
  }

  ghost predicate PlanInv(w: World, f: Fixture) {
    w.stage.Uploading? || w.stage.Inserting? || w.stage.Restoring? ==> Planned(w.stage.plan, f, w.db)
  }

  lemma {:induction false} RunKeepsPlan(w: World, steps: seq<Step>, f: Fixture)
    requires PlanInv(w, f)
    ensures PlanInv(Run(w, steps, f), f)
    decreases |steps|
  {
    if steps != [] { RunKeepsPlan(Next(w, steps[0], f), steps[1..], f); }
  }

  predicate ReadyToCommit(w: World) {
    w.stage.Restoring? && w.stage.next >= |Updates(w.stage.plan)|
  }

  lemma CommittedDb(w: World, f: Fixture)
    requires ProgressInv(w) && ReadyToCommit(w)
    ensures Next(w, Commit, f).db == AfterUpdates(AfterTables(w.stage.plan, w.db, TABLES), Updates(w.stage.plan))
  {
    var us := Updates(w.stage.plan);
    assert us[..|us|] == us;
  }

  lemma {:induction false} NewVersionsCover(ids: seq<nat>, db: Db)
    ensures forall v :: v in NewVersions(ids, db) <==> v in ids && v !in db.designVersions
  {
    if ids != [] { NewVersionsCover(ids[1..], db); }
  }

  /** A design is about to be inserted exactly when its id is not stored. */
  lemma {:induction false} NewDesignsAreNew(rows: seq<Design>, db: Db)
    ensures forall r :: r in NewDesigns(rows, db) <==> r in rows && r.id !in db.designs
  {
    if rows != [] {
      NewDesignsAreNew(rows[1..], db);
      assert rows == [rows[0]] + rows[1..];
    }
  }

  /** The table has gained the rows that were not there, each with its captured value. */
  ghost predicate GainsDesigns(before: map<nat, Option<nat>>, after: map<nat, Option<nat>>, rows: seq<Design>) {
    && after.Keys == before.Keys + (set r | r in rows :: r.id)
    && (forall id :: id in before ==> after[id] == before[id])
    && (forall r :: r in rows && r.id !in before ==> after[r.id] == r.active)
  }

  ghost predicate GainsDated(before: map<nat, Option<nat>>, after: map<nat, Option<nat>>, rows: seq<Dated>) {
    && after.Keys == before.Keys + (set r | r in rows :: r.id)
    && (forall id :: id in before ==> after[id] == before[id])
    && (forall r :: r in rows ==> r.id !in before && after[r.id] == r.publishedAt)
  }

  ghost predicate Gains(before: Db, after: Db, f: Fixture) {
    && GainsDesigns(before.designs, after.designs, f.designs)
    && GainsDated(before.courseVersions, after.courseVersions, f.courseVersions)
    && GainsDated(before.templateVersions, after.templateVersions, f.templateVersions)
    && after.designVersions == before.designVersions + (set v | v in f.designVersions)
  }

  lemma RestoredDesignsAreGained(before: map<nat, Option<nat>>, after: map<nat, Option<nat>>, rows: seq<Design>, db: Db)
    requires db.designs == before
    requires var added := NewDesigns(rows, db);
      Restored(before + Nulls(IdsOfDesigns(added)), after, IdsOfDesigns(added), Actives(added))
    requires Fresh(IdsOfDesigns(NewDesigns(rows, db)), before.Keys)
    ensures GainsDesigns(before, after, rows)
  {
    var added := NewDesigns(rows, db);
    NewDesignsAreNew(rows, db);
    forall r | r in rows && r.id !in before ensures r.id in after && after[r.id] == r.active {
      var i :| 0 <= i < |added| && added[i] == r;
      assert IdsOfDesigns(added)[i] == r.id && Actives(added)[i] == r.active;
    }
    forall id | id in IdsOfDesigns(added) ensures id in (set r | r in rows :: r.id) {
      var i :| 0 <= i < |added| && IdsOfDesigns(added)[i] == id;
      assert added[i] in added;
    }
  }

  lemma RestoredDatesAreGained(before: map<nat, Option<nat>>, after: map<nat, Option<nat>>, rows: seq<Dated>)
    requires Restored(before + Nulls(IdsOfDated(rows)), after, IdsOfDated(rows), Dates(rows))
    requires Fresh(IdsOfDated(rows), before.Keys)
    ensures GainsDated(before, after, rows)
  {
    forall r | r in rows ensures r.id in after && r.id !in before && after[r.id] == r.publishedAt {
      var i :| 0 <= i < |rows| && rows[i] == r;
      assert IdsOfDated(rows)[i] == r.id && Dates(rows)[i] == r.publishedAt;
    }
    forall id | id in IdsOfDated(rows) ensures id in (set r | r in rows :: r.id) {
      var i :| 0 <= i < |rows| && IdsOfDated(rows)[i] == id;
      assert rows[i] in rows;
    }
  }

  lemma FilledGains(plan: Fixture, f: Fixture, db: Db)
    requires Planned(plan, f, db) && AllInsertable(plan, db, TABLES)
    ensures Gains(db, AfterUpdates(AfterTables(plan, db, TABLES), Updates(plan)), f)
    ensures AfterUpdates(AfterTables(plan, db, TABLES), Updates(plan)).courses == db.courses + SetOf(plan.courses)
  {
    var after := AfterUpdates(AfterTables(plan, db, TABLES), Updates(plan));
    CapturedValuesAreRestored(plan, db);
    TablesAreFresh(plan, db);
    RestoredDesignsAreGained(db.designs, after.designs, f.designs, db);
    RestoredDatesAreGained(db.courseVersions, after.courseVersions, f.courseVersions);
    RestoredDatesAreGained(db.templateVersions, after.templateVersions, f.templateVersions);
    NewVersionsCover(f.designVersions, db);
  }

  lemma TablesAreFresh(plan: Fixture, db: Db)
    requires AllInsertable(plan, db, TABLES)
    ensures Fresh(IdsOfDesigns(plan.designs), db.designs.Keys)
    ensures Fresh(IdsOfDated(plan.courseVersions), db.courseVersions.Keys)
    ensures Fresh(IdsOfDated(plan.templateVersions), db.templateVersions.Keys)
  {
    assert Insertable(plan, AfterTables(plan, db, 0), 0);
    assert Insertable(plan, AfterTables(plan, db, 3), 3);
    assert Insertable(plan, AfterTables(plan, db, 4), 4);
    TablesLeaveOthers(plan, db);
  }

  lemma TablesLeaveOthers(plan: Fixture, db: Db)
    ensures AfterTables(plan, db, 3).courseVersions == db.courseVersions
    ensures AfterTables(plan, db, 4).templateVersions == db.templateVersions
  {
    assert AfterTables(plan, db, 1).courseVersions == db.courseVersions;
    assert AfterTables(plan, db, 2).courseVersions == db.courseVersions;
    assert AfterTables(plan, db, 1).templateVersions == db.templateVersions;
    assert AfterTables(plan, db, 2).templateVersions == db.templateVersions;
    assert AfterTables(plan, db, 3).templateVersions == db.templateVersions;
  }

  /** Over any sequence of runs, whenever one commits, the database it found has gained every
      fixture design that was not stored, with its captured active version, every course and
      template version with its captured date, and every design version; and every row stored
      before is as it was. */
  lemma CommitLeavesCapturedValues(w: World, steps: seq<Step>, f: Fixture)
    requires Resting(w) && ReadyToCommit(Run(w, steps, f))
    ensures Gains(Run(w, steps, f).db, Next(Run(w, steps, f), Commit, f).db, f)
  {
    RunKeepsProgress(w, steps, f);
    RunKeepsPlan(w, steps, f);
    CommittedDb(Run(w, steps, f), f);
    FilledGains(Run(w, steps, f).stage.plan, f, Run(w, steps, f).db);
  }

  // ----- the restore is never refused -----

  /** Every active version a fixture design names is in the fixture or stored. */
  predicate ActivesKnown(f: Fixture, db: Db) {
    forall i :: 0 <= i < |f.designs| && f.designs[i].active.Some? ==>
      f.designs[i].active.value in f.designVersions || f.designs[i].active.value in db.designVersions
  }

  lemma {:induction false} ActivationsAreActives(rows: seq<Design>, u: Update)
    requires u in DesignUpdates(rows)
    ensures u.Activate? && exists r :: r in rows && r.active == Some(u.version)
    decreases |rows|
  {
    if u in Activation(rows[0]) {
      assert rows[0] in rows && rows[0].active == Some(u.version);
    } else {
      ActivationsAreActives(rows[1..], u);
    }
  }

  lemma {:induction false} DatesAreNotActivations(rows: seq<Dated>, course: bool)
    ensures forall u :: u in DatedUpdates(rows, course) ==> !u.Activate?
  {
    if rows != [] { DatesAreNotActivations(rows[1..], course); }
  }

  lemma {:induction false} UpdatesKeepVersions(db: Db, us: seq<Update>)
    ensures AfterUpdates(db, us).designVersions == db.designVersions
  {
    if us != [] { UpdatesKeepVersions(db, us[..|us| - 1]); }
  }

  predicate AllAllowed(db: Db, us: seq<Update>) {
    forall i :: 0 <= i < |us| ==> Allowed(AfterUpdates(db, us[..i]), us[i])
  }

  lemma OneMoreUpdate(db: Db, us: seq<Update>, i: nat)
    requires i < |us| && AllAllowed(db, us[..i])
    ensures AfterUpdates(db, us[..i + 1]) == Updated(AfterUpdates(db, us[..i]), us[i])
    ensures AllAllowed(db, us[..i + 1]) <==> Allowed(AfterUpdates(db, us[..i]), us[i])
    ensures !Allowed(AfterUpdates(db, us[..i]), us[i]) ==> !AllAllowed(db, us)
  {
    if !Allowed(AfterUpdates(db, us[..i]), us[i]) {
      assert us[..i + 1][..i] == us[..i] && us[..i + 1][i] == us[i];
      return;
    }
    forall j | 0 <= j <= i ensures us[..i + 1][..j] == us[..j] && (j < i ==> us[..i][..j] == us[..j]) {}
    forall j | 0 <= j <= i ensures Allowed(AfterUpdates(db, us[..j]), us[j]) {
      if j < i { assert Allowed(AfterUpdates(db, us[..i][..j]), us[..i][j]); }
    }
  }

  /** With every active version known, no restoring update is refused by the foreign key. */
  lemma KnownActivesAreAllowed(plan: Fixture, f: Fixture, db: Db)
    requires Planned(plan, f, db) && ActivesKnown(f, db)
    ensures AllAllowed(AfterTables(plan, db, TABLES), Updates(plan))
  {
    var t, us := AfterTables(plan, db, TABLES), Updates(plan);
    TablesContent(plan, db);
    NewDesignsAreNew(f.designs, db);
    NewVersionsCover(f.designVersions, db);
    forall i | 0 <= i < |us| ensures Allowed(AfterUpdates(t, us[..i]), us[i]) {
      UpdatesKeepVersions(t, us[..i]);
      if us[i].Activate? {
        ActivationsInUpdates(plan, us[i]);
        var r :| r in plan.designs && r.active == Some(us[i].version);
        assert r in f.designs;
      }
    }
  }

  lemma ActivationsInUpdates(plan: Fixture, u: Update)
    requires u in Updates(plan) && u.Activate?
    ensures exists r :: r in plan.designs && r.active == Some(u.version)
  {
    DatesAreNotActivations(plan.courseVersions, true);
    DatesAreNotActivations(plan.templateVersions, false);
    assert u in DesignUpdates(plan.designs);
    ActivationsAreActives(plan.designs, u);
  }

  /** Versions once stored stay, and an open transaction sees them. */
  ghost predicate VersionsInv(w: World, known: set<nat>) {
    && known <= w.db.designVersions
    && (w.stage.Inserting? || w.stage.Restoring? ==> known <= w.stage.pending.designVersions)
  }

  lemma {:induction false} RunKeepsVersions(w: World, steps: seq<Step>, f: Fixture, known: set<nat>)
    requires VersionsInv(w, known)
    ensures VersionsInv(Run(w, steps, f), known)
    decreases |steps|
  {
    if steps != [] { RunKeepsVersions(Next(w, steps[0], f), steps[1..], f, known); }
  }

  /** With every active version in the fixture or stored at the outset, no restoring update is
      refused in any run, after whatever failures and commits. */
  lemma RestoreIsNeverRefused(w: World, steps: seq<Step>, f: Fixture)
    requires Resting(w) && ActivesKnown(f, w.db)
    ensures Run(w, steps, f).stage.Restoring? ==> !Next(Run(w, steps, f), Restore, f).stage.Ended?
  {
    var end := Run(w, steps, f);
    RunKeepsVersions(w, steps, f, w.db.designVersions);
    RunKeepsProgress(w, steps, f);
    RunKeepsPlan(w, steps, f);
    if end.stage.Restoring? {
      KnownActivesAreAllowed(end.stage.plan, f, end.db);
    }
  }

  // ----- what each part of a run does -----

  /** What the presence check says of distinct anchors. */
  lemma PresenceIsExact(anchors: seq<nat>, courses: set<nat>)
    requires Distinct(anchors)
    ensures var verdict := Presence(anchors, courses);
      var all, none := forall a :: a in anchors ==> a in courses, forall a :: a in anchors ==> a !in courses;
      verdict == if anchors == [] then Some(NoAnchors) else if none then None else if all then Some(AlreadySeeded)
                 else Some(PartialFixture)
  {
    var found := Anchored(anchors, courses);
    DistinctCount(anchors);
    if anchors != [] {
      assert anchors[0] in anchors;
      if forall a :: a in anchors ==> a in courses { assert found == SetOf(anchors); }
      if a :| a in anchors && a !in courses { SubsetSize(found + {a}, SetOf(anchors)); }
      if a :| a in anchors && a in courses { assert a in found; }
    }
  }

  predicate AllNew(ids: seq<nat>, stored: set<nat>) {
    (forall i :: 0 <= i < |ids| ==> ids[i] !in stored) && (forall i, j :: 0 <= i < j < |ids| ==> ids[i] != ids[j])
  }

  /** A table is refused exactly when one of its ids is stored or repeated. */
  lemma TablesAreRefusedIff(plan: Fixture, db: Db)
    ensures Insertable(plan, db, 0) <==> AllNew(IdsOfDesigns(plan.designs), db.designs.Keys)
    ensures Insertable(plan, db, 1) <==> AllNew(plan.designVersions, db.designVersions)
    ensures Insertable(plan, db, 2) <==> AllNew(plan.courses, db.courses)
    ensures Insertable(plan, db, 3) <==> AllNew(IdsOfDated(plan.courseVersions), db.courseVersions.Keys)
    ensures Insertable(plan, db, 4) <==> AllNew(IdsOfDated(plan.templateVersions), db.templateVersions.Keys)
  {
  }

  /** A refused table or update, or a failure anywhere, ends a run as failed, and leaves the
      database and what is in the store. */
  lemma FailuresAreExact(w: World, f: Fixture)
    ensures Next(w, Fail, f) == if Resting(w) then w else w.(stage := Ended(Failed))
    ensures w.stage.Inserting? && w.stage.table < TABLES && !Insertable(w.stage.plan, w.stage.pending, w.stage.table) ==>
      Next(w, Insert, f) == w.(stage := Ended(Failed))
    ensures w.stage.Restoring? && w.stage.next < |Updates(w.stage.plan)|
            && !Allowed(w.stage.pending, Updates(w.stage.plan)[w.stage.next]) ==>
      Next(w, Restore, f) == w.(stage := Ended(Failed))
    ensures w.stage.Restoring? && w.stage.next < |Updates(w.stage.plan)| ==> Next(w, Commit, f) == w
  {
  }

  /** A run starts only when none is under way; an upload writes what is not stored yet, once. */
  lemma StartAndUploadAreExact(w: World, renames: map<nat, nat>, f: Fixture)
    ensures !Resting(w) ==> Next(w, Start(renames), f) == w
    ensures Resting(w) ==>
      var verdict := Presence(f.courses, w.db.courses);
      Next(w, Start(renames), f)
      == w.(stage := if verdict.Some? then Ended(verdict.value) else Uploading(Plan(f, w.db, renames), 0))
    ensures w.stage.Uploading? && w.stage.next < |w.stage.plan.assets| ==>
      var asset := w.stage.plan.assets[w.stage.next]; var w' := Next(w, Upload, f);
      && w'.db == w.db && w'.stage == Uploading(w.stage.plan, w.stage.next + 1)
      && (asset.key in w.objects ==> w'.objects == w.objects && w'.puts == w.puts)
      && (asset.key !in w.objects ==>
            w'.objects == w.objects[asset.key := asset.content] && w'.puts == w.puts + multiset{asset.key})
  {
  }

  // ----- a retry completes -----

  function Repeated(s: Step, n: nat): seq<Step> {
    seq(n, _ => s)
  }

  lemma RunCons(w: World, s: Step, n: nat, f: Fixture)
    ensures Run(w, Repeated(s, n + 1), f) == Run(Next(w, s, f), Repeated(s, n), f)
  {
    assert Repeated(s, n + 1)[1..] == Repeated(s, n);
  }

  lemma {:induction false} RunAppend(w: World, a: seq<Step>, b: seq<Step>, f: Fixture)
    ensures Run(w, a + b, f) == Run(Run(w, a, f), b, f)
    decreases |a|
  {
    if a == [] {
      assert a + b == b;
    } else {
      assert (a + b)[1..] == a[1..] + b;
      RunAppend(Next(w, a[0], f), a[1..], b, f);
    }
  }

  lemma {:induction false} UploadsFinish(w: World, f: Fixture)
    requires w.stage.Uploading? && w.stage.next <= |w.stage.plan.assets|
    ensures var end := Run(w, Repeated(Upload, |w.stage.plan.assets| - w.stage.next + 1), f);
      end.stage == Inserting(w.stage.plan, w.db, 0) && end.db == w.db
    decreases |w.stage.plan.assets| - w.stage.next
  {
    var n := |w.stage.plan.assets| - w.stage.next;
    RunCons(w, Upload, n, f);
    if n > 0 { UploadsFinish(Next(w, Upload, f), f); } else { assert Repeated(Upload, 0) == []; }
  }

  lemma {:induction false} InsertsFinish(w: World, f: Fixture)
    requires ProgressInv(w) && w.stage.Inserting? && AllInsertable(w.stage.plan, w.db, TABLES)
    ensures var end := Run(w, Repeated(Insert, TABLES - w.stage.table + 1), f);
      && end.stage == Restoring(w.stage.plan, AfterTables(w.stage.plan, w.db, TABLES), 0)
      && end.db == w.db && end.objects == w.objects
    decreases TABLES - w.stage.table
  {
    var n := TABLES - w.stage.table;
    RunCons(w, Insert, n, f);
    if n > 0 {
      NextKeepsProgress(w, Insert, f);
      InsertsFinish(Next(w, Insert, f), f);
    } else {
      assert Repeated(Insert, 0) == [];
    }
  }

  lemma {:induction false} RestoresFinish(w: World, f: Fixture)
    requires ProgressInv(w) && w.stage.Restoring?
    requires AllAllowed(AfterTables(w.stage.plan, w.db, TABLES), Updates(w.stage.plan))
    ensures var end := Run(w, Repeated(Restore, |Updates(w.stage.plan)| - w.stage.next), f);
      && end.stage.Restoring? && end.stage.plan == w.stage.plan && end.stage.next == |Updates(w.stage.plan)|
      && ProgressInv(end) && end.db == w.db && end.objects == w.objects
    decreases |Updates(w.stage.plan)| - w.stage.next
  {
    var n := |Updates(w.stage.plan)| - w.stage.next;
    if n > 0 {
      RunCons(w, Restore, n - 1, f);
      var w' := Next(w, Restore, f);
      assert Allowed(w.stage.pending, Updates(w.stage.plan)[w.stage.next]);
      NextKeepsProgress(w, Restore, f);
      RestoresFinish(w', f);
    } else {
      assert Repeated(Restore, 0) == [];
    }
  }

  function TransactionSteps(plan: Fixture): seq<Step> {
    Repeated(Insert, TABLES + 1) + Repeated(Restore, |Updates(plan)|) + [Commit]
  }

  lemma RestoreCommits(w: World, f: Fixture)
    requires ProgressInv(w) && w.stage.Restoring? && w.stage.next == 0
    requires AllAllowed(AfterTables(w.stage.plan, w.db, TABLES), Updates(w.stage.plan))
    ensures var plan := w.stage.plan; var end := Run(w, Repeated(Restore, |Updates(plan)|) + [Commit], f);
      end.stage == Ended(Seeded) && end.db == AfterUpdates(AfterTables(plan, w.db, TABLES), Updates(plan))
  {
    var restores := Repeated(Restore, |Updates(w.stage.plan)|);
    RestoresFinish(w, f);
    CommittedDb(Run(w, restores, f), f);
    RunSnoc(w, restores, Commit, f);
  }

  lemma TransactionCommits(w: World, f: Fixture, renames: map<nat, nat>)
    requires w.stage == Inserting(Plan(f, w.db, renames), w.db, 0)
    requires AllInsertable(Plan(f, w.db, renames), w.db, TABLES) && ActivesKnown(f, w.db)
    ensures var plan := Plan(f, w.db, renames); var end := Run(w, TransactionSteps(plan), f);
      end.stage == Ended(Seeded) && end.db == AfterUpdates(AfterTables(plan, w.db, TABLES), Updates(plan))
  {
    var plan := Plan(f, w.db, renames);
    var inserts, rest := Repeated(Insert, TABLES + 1), Repeated(Restore, |Updates(plan)|) + [Commit];
    InsertsFinish(w, f);
    RunKeepsProgress(w, inserts, f);
    KnownActivesAreAllowed(plan, f, w.db);
    RestoreCommits(Run(w, inserts, f), f);
    RunAppend(w, inserts, rest, f);
    assert TransactionSteps(plan) == inserts + rest;
  }

  lemma RunSnoc(w: World, steps: seq<Step>, s: Step, f: Fixture)
    ensures Run(w, steps + [s], f) == Next(Run(w, steps, f), s, f)
  {
    RunAppend(w, steps, [s], f);
    assert [s][1..] == [];
  }

  /** From any state earlier failures may have left, one run without a failure commits: it
      finishes the uploads and leaves the captured values, provided the rows are new to the
      database and the active versions known. */
  lemma RetryCompletes(w: World, f: Fixture, renames: map<nat, nat>)
    requires Resting(w) && UploadInv(w, f) && f.courses != [] && NoAnchor(f, w.db)
    requires AllInsertable(Plan(f, w.db, renames), w.db, TABLES) && ActivesKnown(f, w.db)
    ensures exists steps :: Completes(w, steps, f, Plan(f, w.db, renames))
  {
    var plan := Plan(f, w.db, renames);
    WholeIsRecognised(f, w.db);
    var w1 := Next(w, Start(renames), f);
    var uploads := Repeated(Upload, |plan.assets| + 1);
    UploadsFinish(w1, f);
    TransactionCommits(Run(w1, uploads, f), f, renames);
    RunAppend(w1, uploads, TransactionSteps(plan), f);
    var steps := [Start(renames)] + (uploads + TransactionSteps(plan));
    assert steps[1..] == uploads + TransactionSteps(plan);
    RunKeepsUploads(w, steps, f);
    assert Completes(w, steps, f, plan);
  }

  ghost predicate Completes(w: World, steps: seq<Step>, f: Fixture, plan: Fixture) {
    var end := Run(w, steps, f);
    && end.stage == Ended(Seeded)
    && Stored(f.assets, |f.assets|, end.objects)
    && end.db == AfterUpdates(AfterTables(plan, w.db, TABLES), Updates(plan))
  }

  // ----- an anchor that is also a renamed user -----

  /** How the next presence check reads the database after a run has committed: as seeded
      exactly when the inserted course ids, after renaming, include every anchor, and as
      partial exactly when they include some anchors but not all. */
  lemma NextCheckReadsCommitted(f: Fixture, db: Db, renames: map<nat, nat>)
    requires f.courses != [] && Distinct(f.courses) && NoAnchor(f, db)
    ensures var plan := Plan(f, db, renames); var verdict := Presence(f.courses, AfterTables(plan, db, TABLES).courses);
      && (verdict == Some(AlreadySeeded) <==> forall a :: a in f.courses ==> a in plan.courses)
      && (verdict == Some(PartialFixture) <==> (exists a :: a in f.courses && a in plan.courses)
                                               && (exists a :: a in f.courses && a !in plan.courses))
  {
    var plan := Plan(f, db, renames);
    TablesContent(plan, db);
    var found := Anchored(f.courses, db.courses + SetOf(plan.courses));
    assert found == set a | a in f.courses && a in plan.courses;
    DistinctCount(f.courses);
    if a :| a in f.courses && a !in plan.courses {
      SubsetSize(found + {a}, SetOf(f.courses));
      assert a !in found;
    } else {
      assert found == SetOf(f.courses);
    }
    if a :| a in f.courses && a in plan.courses { assert a in found; }
  }

  /** If renaming a user also renames one of two anchors, the run that commits leaves a
      database that the next presence check reads as partial. */
  lemma RenamedAnchorLooksPartial(a: nat, b: nat, c: nat, db: Db)
    requires a != b && c != a && c != b && a !in db.courses && b !in db.courses && c !in db.courses
    ensures var f := Fixture([], [], [a, b], [], [], []); var plan := Plan(f, db, map[a := c]);
      && AllInsertable(plan, db, TABLES)
      && Presence(f.courses, AfterTables(plan, db, TABLES).courses) == Some(PartialFixture)
  {
    var f := Fixture([], [], [a, b], [], [], []);
    assert Plan(f, db, map[a := c]) == Fixture([], [], [c, b], [], [], []);
    TwoCoursesInsertable(c, b, db);
    assert f.courses[0] == a && f.courses[1] == b && [c, b][0] == c && [c, b][1] == b;
    NextCheckReadsCommitted(f, db, map[a := c]);
    assert a in f.courses && a !in [c, b] && b in f.courses && b in [c, b];
  }

  lemma TwoCoursesInsertable(c: nat, b: nat, db: Db)
    requires c != b && c !in db.courses && b !in db.courses
    ensures AllInsertable(Fixture([], [], [c, b], [], [], []), db, TABLES)
  {
    var plan := Fixture([], [], [c, b], [], [], []);
    assert IdsOfDated([]) == [] && IdsOfDesigns([]) == [];
    assert AfterTables(plan, db, 1).courses == db.courses;
    assert AfterTables(plan, db, 2).courses == db.courses;
  }

  // ----- one run as the seeder performs it -----

  lemma RestoreStep(w: World, steps: seq<Step>, f: Fixture)
    requires Run(w, steps, f).stage.Restoring?
    requires Run(w, steps, f).stage.next < |Updates(Run(w, steps, f).stage.plan)|
    ensures var v := Run(w, steps, f); var u := Updates(v.stage.plan)[v.stage.next];
      Run(w, steps + [Restore], f)
      == v.(stage := if Allowed(v.stage.pending, u) then Restoring(v.stage.plan, Updated(v.stage.pending, u), v.stage.next + 1)
                     else Ended(Failed))
  {
    RunSnoc(w, steps, Restore, f);
  }

  lemma CommitStep(w: World, steps: seq<Step>, f: Fixture)
    requires ReadyToCommit(Run(w, steps, f))
    ensures var v := Run(w, steps, f); Run(w, steps + [Commit], f) == v.(db := v.stage.pending, stage := Ended(Seeded))
  {
    RunSnoc(w, steps, Commit, f);
  }

  /** The database takes every table and every restoring update. */
  ghost predicate Accepts(db: Db, plan: Fixture) {
    AllInsertable(plan, db, TABLES) && AllAllowed(AfterTables(plan, db, TABLES), Updates(plan))
  }

  lemma RenamedCourses(f: Fixture, renames: map<nat, nat>, db: Db)
    ensures SetOf(Plan(f, db, renames).courses) == (set c | c in f.courses :: if c in renames then renames[c] else c)
  {
    var plan := Plan(f, db, renames);
    forall c | c in f.courses ensures (if c in renames then renames[c] else c) in plan.courses {
      var i :| 0 <= i < |f.courses| && f.courses[i] == c;
      assert plan.courses[i] == if c in renames then renames[c] else c;
    }
  }

  ghost function Filled(db: Db, plan: Fixture): Db {
    AfterUpdates(AfterTables(plan, db, TABLES), Updates(plan))
  }

  class Seeder {
    var db: Db
    var objects: map<nat, nat>
    var puts: multiset<nat>

    function View(stage: Stage): World
      reads this
    {
      World(db, objects, puts, stage)
    }

    constructor (db: Db)
      ensures this.db == db && objects == map[] && puts == multiset{}
    {
      this.db, objects, puts := db, map[], multiset{};
    }

    /** One run that gets through `budget` operations before it fails, if it needs more: it
        is seeded exactly when the check finds nothing, the database accepts every table and
        every restoring update, and the budget covers them; else it changes no row. */
    method Seed(f: Fixture, renames: map<nat, nat>, budget: nat) returns (verdict: Verdict, ghost steps: seq<Step>)
      modifies this
      ensures View(Ended(verdict)) == Run(old(View(Idle)), steps, f)
      ensures forall s :: s in steps && s.Start? ==> s.renames == renames
      ensures var present, plan := Presence(f.courses, old(db).courses), Plan(f, old(db), renames);
        && (present.Some? ==> verdict == present.value && objects == old(objects))
        && (present.None? ==> verdict.Seeded? || verdict.Failed?)
        && (verdict.Seeded? <==> present.None? && budget >= |f.assets| + TABLES + |Updates(plan)| && Accepts(old(db), plan))
        && db == if verdict.Seeded? then Filled(old(db), plan) else old(db)
      ensures verdict.Seeded? ==> Gains(old(db), db, f)
      ensures verdict.Seeded? ==>
        db.courses == old(db).courses + (set c | c in f.courses :: if c in renames then renames[c] else c)
    {
      ghost var w := View(Idle);
      steps := [Start(renames)];
      RunSnoc(w, [], Start(renames), f);
      var present := Presence(f.courses, db.courses);
      if present.Some? { return present.value, steps; }
      var plan := Plan(f, db, renames);
      var left: nat := budget;
      for i := 0 to |plan.assets|
        invariant View(Uploading(plan, i)) == Run(w, steps, f)
        invariant forall s :: s in steps && s.Start? ==> s.renames == renames
        invariant left == budget - i && db == old(db)
      {
        if left == 0 {
          RunSnoc(w, steps, Fail, f);
          return Failed, steps + [Fail];
        }
        left := left - 1;
        RunSnoc(w, steps, Upload, f);
        steps := steps + [Upload];
        if plan.assets[i].key in objects { continue; }
        objects := objects[plan.assets[i].key := plan.assets[i].content];
        puts := puts + multiset{plan.assets[i].key};
      }
      RunSnoc(w, steps, Upload, f);
      steps := steps + [Upload];
      verdict, steps := Transact(f, plan, left, w, steps);
      if verdict.Seeded? {
        FilledGains(plan, f, old(db));
        RenamedCourses(f, renames, old(db));
      }
    }

    /** The transaction: five tables, the restoring updates, commit. */
    method Transact(f: Fixture, plan: Fixture, budget: nat, ghost w: World, ghost before: seq<Step>)
      returns (verdict: Verdict, ghost steps: seq<Step>)
      requires View(Inserting(plan, db, 0)) == Run(w, before, f)
      modifies this`db
      ensures View(Ended(verdict)) == Run(w, steps, f)
      ensures forall s :: s in steps && s.Start? ==> s in before
      ensures verdict == if budget >= TABLES + |Updates(plan)| && Accepts(old(db), plan) then Seeded else Failed
      ensures db == if verdict.Seeded? then Filled(old(db), plan) else old(db)
    {
      steps := before;
      var pending := db;
      var left: nat := budget;
      for table := 0 to TABLES
        invariant View(Inserting(plan, pending, table)) == Run(w, steps, f)
        invariant forall s :: s in steps && s.Start? ==> s in before
        invariant left == budget - table && db == old(db)
        invariant pending == AfterTables(plan, db, table) && AllInsertable(plan, db, table)
      {
        if left == 0 {
          RunSnoc(w, steps, Fail, f);
          return Failed, steps + [Fail];
        }
        left := left - 1;
        RunSnoc(w, steps, Insert, f);
        steps := steps + [Insert];
        if !Insertable(plan, pending, table) { return Failed, steps; }
        pending := Inserted(plan, pending, table);
      }
      RunSnoc(w, steps, Insert, f);
      steps := steps + [Insert];
      verdict, steps := RestoreAndCommit(f, plan, pending, left, w, steps);
    }

    method RestoreAndCommit(f: Fixture, plan: Fixture, inserted: Db, budget: nat, ghost w: World, ghost before: seq<Step>)
      returns (verdict: Verdict, ghost steps: seq<Step>)
      requires View(Restoring(plan, inserted, 0)) == Run(w, before, f)
      modifies this`db
      ensures View(Ended(verdict)) == Run(w, steps, f)
      ensures forall s :: s in steps && s.Start? ==> s in before
      ensures verdict == if budget >= |Updates(plan)| && AllAllowed(inserted, Updates(plan)) then Seeded else Failed
      ensures db == if verdict.Seeded? then AfterUpdates(inserted, Updates(plan)) else old(db)
    {
      steps := before;
      var pending := inserted;
      var updates := Updates(plan);
      var left: nat := budget;
      assert updates[..0] == [];
      for i := 0 to |updates|
        invariant View(Restoring(plan, pending, i)) == Run(w, steps, f)
        invariant forall s :: s in steps && s.Start? ==> s in before
        invariant left == budget - i && db == old(db)
        invariant pending == AfterUpdates(inserted, updates[..i]) && AllAllowed(inserted, updates[..i])
      {
        if left == 0 {
          RunSnoc(w, steps, Fail, f);
          return Failed, steps + [Fail];
        }
        left := left - 1;
        RestoreStep(w, steps, f);
        OneMoreUpdate(inserted, updates, i);
        steps := steps + [Restore];
        if !Allowed(pending, updates[i]) { return Failed, steps; }
        pending := Updated(pending, updates[i]);
      }
      assert updates[..|updates|] == updates;
      CommitStep(w, steps, f);
      steps := steps + [Commit];
      db := pending;
      verdict := Seeded;
    }
  }
}
