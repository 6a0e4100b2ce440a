/** Backups, deletions, retention and schedule edits as atomic store and storage calls that any
    number of requests and scheduled jobs interleave. */
module Lifecycle {
  import opened GoText
  import opened Metadata
  import opened Adapters
  import opened DumpPipe
  import ObjectName

  /** One call of RunBackup: its arguments, its start time, and what its dump wrote and returned. */
  datatype Job = Job(
    kind: Text, name: Text, scheduleId: Option<Text>, start: int, chunks: seq<Text>, dumpErr: Option<Text>)

  function Object(j: Job): Text { ObjectName.Format(j.kind, j.name, Unix(j.start)) }

  /** Types that performDump does not know write nothing and fail. */
  predicate PerformDump(kind: Text, chunks: seq<Text>, err: Option<Text>) {
    Supported(kind) || (chunks == [] && err.Some?)
  }

  predicate GoodJob(a: Adapter, j: Job) {
    j.start >= 0 && GoodName(a, j.kind, j.name, Unix(j.start)) && PerformDump(j.kind, j.chunks, j.dumpErr)
  }

  /** The calls of one run, no two with the same type, defaulted name and second. */
  ghost predicate DistinctJobs(a: Adapter, jobs: set<Job>) {
    && (forall j | j in jobs :: GoodJob(a, j))
    && (forall i, j
          | i in jobs && j in jobs && i.kind == j.kind && Unix(i.start) == Unix(j.start)
            && ObjectName.NameOrDefault(i.name) == ObjectName.NameOrDefault(j.name) ::
          i == j)
  }

  /** A storage adapter, as the keys it uses for a job's object and a row's location. */
  datatype Keys = Keys(save: Job -> Text, location: Job -> Text, open: Text -> Option<Text>, delete: Text -> Text)

  function KeysOf(d: Storage): Keys {
    Keys(j => d.save(Object(j)), j => d.location(Object(j)), d.open, d.delete)
  }

  /** Jobs that can get a row share their key with no other job. */
  ghost predicate OwnKeys(keys: Keys, jobs: set<Job>) {
    forall i, j | i in jobs && j in jobs && i.dumpErr == None :: keys.save(i) == keys.save(j) <==> i == j
  }

  /** And their location deletes the key that they saved. */
  ghost predicate LocationsDelete(keys: Keys, jobs: set<Job>) {
    forall j | j in jobs && j.dumpErr == None :: keys.delete(keys.location(j)) == keys.save(j)
  }

  ghost predicate Apart(keys: Keys, jobs: set<Job>) { OwnKeys(keys, jobs) && LocationsDelete(keys, jobs) }

  /** Both, and the location opens that key as well. */
  ghost predicate Suited(d: Storage, jobs: set<Job>) {
    Apart(KeysOf(d), jobs)
    && forall j | j in jobs && j.dumpErr == None :: d.open(d.location(Object(j))) == Some(d.save(Object(j)))
  }

  lemma AdapterKeepsApart(a: Adapter, jobs: set<Job>)
    requires GoodAdapter(a) && DistinctJobs(a, jobs)
    ensures Apart(KeysOf(AsStorage(a)), jobs)
  {
    forall i, j | i in jobs && j in jobs && i.dumpErr == None
      ensures SaveKey(a, Object(i)) == SaveKey(a, Object(j)) <==> i == j
    {
      assert GoodJob(a, i) && GoodJob(a, j);
      KeysApart(a, i.kind, i.name, Unix(i.start), j.kind, j.name, Unix(j.start));
    }
    forall j | j in jobs && j.dumpErr == None
      ensures DeleteKey(a, Location(a, Object(j))) == SaveKey(a, Object(j))
    {
      assert GoodJob(a, j);
      PlainReaches(a, j.kind, j.name, Unix(j.start));
    }
  }

  /** Calls of distinct type, defaulted name and second suit both adapters: on Local when names have no
      slash and no type strays, on S3 when types have no slash and names no backslash. */
  lemma AdapterSuits(a: Adapter, jobs: set<Job>)
    requires GoodAdapter(a) && DistinctJobs(a, jobs) && forall j | j in jobs :: a.Local? || BACKSLASH !in j.name
    ensures Suited(AsStorage(a), jobs)
  {
    AdapterKeepsApart(a, jobs);
    forall j | j in jobs && j.dumpErr == None
      ensures OpenKey(a, Location(a, Object(j))) == Some(SaveKey(a, Object(j)))
    {
      assert GoodJob(a, j);
      PlainReaches(a, j.kind, j.name, Unix(j.start));
    }
  }

  /** Objects and tables, with the history of which job each row came from, which jobs have saved,
      which have inserted a row, and which objects were deleted. */
  datatype System = System(
    objects: map<Text, Text>, tables: Tables,
    saved: set<Job>, inserted: set<Job>, rows: map<Text, Job>, deleted: set<Job>)

  const EMPTY := System(map[], Tables(map[], map[]), {}, {}, map[], {})

  datatype Step =
    | WriteObject(job: Job, bytes: Text)           // Save under way, or giving up, leaves these bytes
    | FinishSave(job: Job)                         // Save has read to the end of the stream
    | AddRow(job: Job, id: Text, finishedAt: int)  // AddBackup
    | DeleteObject(job: Job)                       // adapter.Delete of a location read from a row
    | DeleteRow(id: Text)                          // DeleteBackup
    | AddSchedule(sc: Schedule)
    | EditSchedule(sc: Schedule)
    | RunSchedule(id: Text, at: int)               // UpdateScheduleLastRun
    | DeleteSchedule(id: Text)

  function RowOf(keys: Keys, j: Job, id: Text, finishedAt: int): Backup {
    Backup(id, ObjectName.NameOrDefault(j.name), j.kind, keys.location(j), j.start, finishedAt, j.scheduleId)
  }

  predicate Enabled(s: System, jobs: set<Job>, t: Step) {
    match t
    case WriteObject(j, _) => j in jobs && j !in s.saved
    case FinishSave(j) => j in jobs && j !in s.saved
    case AddRow(j, _, _) => j in s.saved && j !in s.inserted && j.dumpErr == None
    case DeleteObject(j) => j in s.inserted
    case _ => true
  }

  function Apply(keys: Keys, c: Codec, s: System, t: Step): System {
    match t
    case WriteObject(j, bytes) => s.(objects := s.objects[keys.save(j) := bytes])
    case FinishSave(j) =>
      s.(objects := s.objects[keys.save(j) := c.finish(j.chunks)], saved := s.saved + {j})
    case AddRow(j, id, finishedAt) =>
      (match InsertBackup(s.tables, RowOf(keys, j, id, finishedAt))
       case None => s
       case Some(t) => s.(tables := t, inserted := s.inserted + {j}, rows := s.rows[id := j]))
    case DeleteObject(j) =>
      s.(objects := s.objects - {keys.delete(keys.location(j))}, deleted := s.deleted + {j})
    case DeleteRow(id) => s.(tables := DropBackup(s.tables, id))
    case AddSchedule(sc) =>
      (match InsertSchedule(s.tables, sc) case None => s case Some(t) => s.(tables := t))
    case EditSchedule(sc) => s.(tables := ReplaceSchedule(s.tables, sc))
    case RunSchedule(id, at) => s.(tables := TouchSchedule(s.tables, id, at))
    case DeleteSchedule(id) => s.(tables := DropSchedule(s.tables, id))
  }

  ghost predicate Runs(keys: Keys, c: Codec, jobs: set<Job>, s: System, steps: seq<Step>, r: System)
    decreases |steps|
  {
    if steps == [] then s == r
    else Enabled(s, jobs, steps[0]) && Runs(keys, c, jobs, Apply(keys, c, s, steps[0]), steps[1..], r)
  }

  // ---- the invariant ----

  ghost predicate ObjectIntact(keys: Keys, c: Codec, objects: map<Text, Text>, j: Job) {
    keys.save(j) in objects && objects[keys.save(j)] == c.finish(j.chunks)
  }

  ghost predicate RowMatches(keys: Keys, j: Job, b: Backup) {
    && b.path == keys.location(j) && b.kind == j.kind && b.name == ObjectName.NameOrDefault(j.name)
    && b.startedAt == j.start && (b.scheduleId == j.scheduleId || b.scheduleId == None)
  }

  /** Every row was made by its own job, whose dump succeeded; what such a job saved is complete
      until that very object is deleted, and not there from then on. */
  ghost predicate Inv(keys: Keys, c: Codec, jobs: set<Job>, s: System) {
    && s.saved <= jobs && s.inserted <= s.saved && s.deleted <= s.inserted
    && (forall j | j in s.inserted :: j.dumpErr == None)
    && (forall j | j in s.saved && j !in s.deleted && j.dumpErr == None :: ObjectIntact(keys, c, s.objects, j))
    && (forall j | j in s.deleted :: keys.save(j) !in s.objects)
    && (forall id | id in s.tables.backups ::
          id in s.rows && s.rows[id] in s.inserted && RowMatches(keys, s.rows[id], s.tables.backups[id]))
    && (forall i, k | i in s.tables.backups && k in s.tables.backups && i != k :: s.rows[i] != s.rows[k])
    && Consistent(s.tables)
  }

  lemma WriteKept(keys: Keys, c: Codec, jobs: set<Job>, s: System, j: Job, bytes: Text)
    requires Apart(keys, jobs) && Inv(keys, c, jobs, s) && j in jobs && j !in s.saved
    ensures Inv(keys, c, jobs, s.(objects := s.objects[keys.save(j) := bytes]))
    ensures Inv(keys, c, jobs, Apply(keys, c, s, FinishSave(j)))
  {
  }

  lemma DeleteObjectKept(keys: Keys, c: Codec, jobs: set<Job>, s: System, j: Job)
    requires Apart(keys, jobs) && Inv(keys, c, jobs, s) && j in s.inserted
    ensures Inv(keys, c, jobs, Apply(keys, c, s, DeleteObject(j)))
  {
  }

  lemma AddRowKept(keys: Keys, c: Codec, jobs: set<Job>, s: System, j: Job, id: Text, finishedAt: int)
    requires Inv(keys, c, jobs, s) && Enabled(s, jobs, AddRow(j, id, finishedAt))
    ensures Inv(keys, c, jobs, Apply(keys, c, s, AddRow(j, id, finishedAt)))
  {
    BackupConstraints(s.tables, RowOf(keys, j, id, finishedAt));
  }

  lemma ScheduleDropKept(keys: Keys, c: Codec, jobs: set<Job>, s: System, id: Text)
    requires Inv(keys, c, jobs, s)
    ensures Inv(keys, c, jobs, Apply(keys, c, s, DeleteSchedule(id)))
  {
    DropConstraints(s.tables, id);
  }

  lemma ScheduleEditKept(keys: Keys, c: Codec, jobs: set<Job>, s: System, t: Step)
    requires Inv(keys, c, jobs, s) && (t.AddSchedule? || t.EditSchedule? || t.RunSchedule?)
    ensures Inv(keys, c, jobs, Apply(keys, c, s, t))
  {
  }

  /** One step of anybody keeps every row backed by its own complete object. */
  lemma StepKept(keys: Keys, c: Codec, jobs: set<Job>, s: System, t: Step)
    requires Apart(keys, jobs) && Inv(keys, c, jobs, s) && Enabled(s, jobs, t)
    ensures Inv(keys, c, jobs, Apply(keys, c, s, t))
  {
    match t
    case WriteObject(j, bytes) => WriteKept(keys, c, jobs, s, j, bytes);
    case FinishSave(j) => WriteKept(keys, c, jobs, s, j, []);
    case AddRow(j, id, finishedAt) => AddRowKept(keys, c, jobs, s, j, id, finishedAt);
    case DeleteObject(j) => DeleteObjectKept(keys, c, jobs, s, j);
    case DeleteSchedule(id) => ScheduleDropKept(keys, c, jobs, s, id);
    case DeleteRow(_) =>
    case _ => ScheduleEditKept(keys, c, jobs, s, t);
  }

  lemma {:induction false} RunKept(keys: Keys, c: Codec, jobs: set<Job>, s: System, steps: seq<Step>, r: System)
    requires Apart(keys, jobs) && Inv(keys, c, jobs, s) && Runs(keys, c, jobs, s, steps, r)
    ensures Inv(keys, c, jobs, r)
    decreases |steps|
  {
    if steps != [] {
      StepKept(keys, c, jobs, s, steps[0]);
      RunKept(keys, c, jobs, Apply(keys, c, s, steps[0]), steps[1..], r);
    }
  }

  // ---- main results ----

  lemma RowHasObject(keys: Keys, c: Codec, jobs: set<Job>, steps: seq<Step>, r: System, id: Text)
    requires Apart(keys, jobs) && Runs(keys, c, jobs, EMPTY, steps, r) && id in r.tables.backups
    ensures id in r.rows && r.rows[id] in jobs && r.rows[id].dumpErr == None
    ensures r.tables.backups[id].path == keys.location(r.rows[id])
    ensures if r.rows[id] in r.deleted then keys.save(r.rows[id]) !in r.objects
            else ObjectIntact(keys, c, r.objects, r.rows[id])
  {
    RunKept(keys, c, jobs, EMPTY, steps, r);
  }

  /** What a row's location opens to, unpacked. */
  function Unpacked(keys: Keys, c: Codec, objects: map<Text, Text>, b: Backup): Option<Text> {
    match keys.open(b.path)
    case None => None
    case Some(key) => if key in objects then c.gunzip(objects[key]) else None
  }

  /** After any interleaving, every row came from a job whose dump reported no error. If the adapter
      opens the location where it saved (LocationReaches says when), the row unpacks to the whole dump
      exactly if its object was not deleted. */
  lemma RowRestores(keys: Keys, c: Codec, jobs: set<Job>, steps: seq<Step>, r: System, id: Text)
    requires Apart(keys, jobs) && Lawful(c) && Runs(keys, c, jobs, EMPTY, steps, r) && id in r.tables.backups
    ensures id in r.rows && r.rows[id] in jobs && r.rows[id].dumpErr == None
    ensures keys.open(keys.location(r.rows[id])) == Some(keys.save(r.rows[id])) ==>
              (Unpacked(keys, c, r.objects, r.tables.backups[id]) == Some(Flatten(r.rows[id].chunks))
               <==> r.rows[id] !in r.deleted)
  {
    RowHasObject(keys, c, jobs, steps, r, id);
  }

  /** No two rows name the same location, and deleting what one row names leaves the object that
      any other row came from alone. */
  lemma RowsApart(keys: Keys, c: Codec, jobs: set<Job>, steps: seq<Step>, r: System, i: Text, k: Text)
    requires Apart(keys, jobs) && Runs(keys, c, jobs, EMPTY, steps, r)
    requires i in r.tables.backups && k in r.tables.backups && i != k
    ensures r.tables.backups[i].path != r.tables.backups[k].path
    ensures k in r.rows && keys.delete(r.tables.backups[i].path) != keys.save(r.rows[k])
  {
    RunKept(keys, c, jobs, EMPTY, steps, r);
    var x, y := r.rows[i], r.rows[k];
    assert keys.save(x) != keys.save(y) && keys.save(y) != keys.save(x);
  }

  /** References hold, and each is its job's own unless it was cleared. */
  ghost predicate Referenced(s: System) {
    Consistent(s.tables)
    && forall id | id in s.tables.backups ::
         id in s.rows
         && (s.tables.backups[id].scheduleId == s.rows[id].scheduleId || s.tables.backups[id].scheduleId == None)
  }

  lemma ConsistentStep(keys: Keys, c: Codec, s: System, t: Step)
    requires Consistent(s.tables)
    ensures Consistent(Apply(keys, c, s, t).tables)
  {
    match t
    case AddRow(j, id, finishedAt) => BackupConstraints(s.tables, RowOf(keys, j, id, finishedAt));
    case DeleteSchedule(id) => DropConstraints(s.tables, id);
    case _ =>
  }

  lemma ReferencedKept(keys: Keys, c: Codec, jobs: set<Job>, s: System, t: Step)
    requires Referenced(s) && Enabled(s, jobs, t)
    ensures Referenced(Apply(keys, c, s, t))
  {
    ConsistentStep(keys, c, s, t);
  }

  lemma {:induction false} ReferencedRun(keys: Keys, c: Codec, jobs: set<Job>, s: System, steps: seq<Step>, r: System)
    requires Referenced(s) && Runs(keys, c, jobs, s, steps, r)
    ensures Referenced(r)
    decreases |steps|
  {
    if steps != [] {
      ReferencedKept(keys, c, jobs, s, steps[0]);
      ReferencedRun(keys, c, jobs, Apply(keys, c, s, steps[0]), steps[1..], r);
    }
  }

  /** Whatever the order of backups finishing and schedules going away, and whatever keys they use, a
      schedule reference names a stored schedule, and it is the job's own. */
  lemma ReferencesHold(keys: Keys, c: Codec, jobs: set<Job>, steps: seq<Step>, r: System, id: Text)
    requires Runs(keys, c, jobs, EMPTY, steps, r)
    requires id in r.tables.backups && r.tables.backups[id].scheduleId.Some?
    ensures r.tables.backups[id].scheduleId.value in r.tables.schedules
    ensures id in r.rows && r.tables.backups[id].scheduleId == r.rows[id].scheduleId
  {
    ReferencedRun(keys, c, jobs, EMPTY, steps, r);
  }

  /** Deleting a schedule loses no backup and no object; it only clears the references to it. */
  lemma DeleteScheduleKeepsBackups(keys: Keys, c: Codec, s: System, id: Text)
    ensures var r := Apply(keys, c, s, DeleteSchedule(id));
            && r.objects == s.objects && r.tables.backups.Keys == s.tables.backups.Keys
            && (forall k | k in s.tables.backups ::
                  r.tables.backups[k].(scheduleId := None) == s.tables.backups[k].(scheduleId := None)
                  && (r.tables.backups[k].scheduleId == None
                      <==> s.tables.backups[k].scheduleId == None || s.tables.backups[k].scheduleId == Some(id)))
  {
  }

  // ---- keys of their own are needed ----

  /** In every run, every row whose object was not deleted has that object, complete. */
  ghost predicate KeepsObjects(keys: Keys, c: Codec, jobs: set<Job>) {
    forall steps, r, id | Runs(keys, c, jobs, EMPTY, steps, r) && id in r.tables.backups && id in r.rows ::
      r.rows[id] !in r.deleted ==> ObjectIntact(keys, c, r.objects, r.rows[id])
  }

  lemma RunsFrom(keys: Keys, c: Codec, jobs: set<Job>, s: System, t: Step, steps: seq<Step>, r: System)
    requires Enabled(s, jobs, t) && Runs(keys, c, jobs, Apply(keys, c, s, t), steps, r)
    ensures Runs(keys, c, jobs, s, [t] + steps, r)
  {
  }

  /** One job finishes and gets its row; then another with its key starts to write. */
  lemma SharedKeyLoses(keys: Keys, c: Codec, jobs: set<Job>, i: Job, j: Job)
    returns (steps: seq<Step>, r: System, id: Text)
    requires Lawful(c) && HasTrailer(c)
    requires i in jobs && j in jobs && i != j && i.dumpErr == None && keys.save(i) == keys.save(j)
    ensures Runs(keys, c, jobs, EMPTY, steps, r) && id in r.tables.backups && id in r.rows && r.rows[id] == i
    ensures i !in r.deleted && !ObjectIntact(keys, c, r.objects, i)
  {
    id := [];
    var sc := Schedule(if i.scheduleId.Some? then i.scheduleId.value else [], [], [], [], 0, 0, None);
    var t1, t2, t3, t4 := AddSchedule(sc), FinishSave(i), AddRow(i, id, 0), WriteObject(j, []);
    var s1 := Apply(keys, c, EMPTY, t1);
    var s2 := Apply(keys, c, s1, t2);
    var s3 := Apply(keys, c, s2, t3);
    r := Apply(keys, c, s3, t4);
    RunsFrom(keys, c, jobs, s3, t4, [], r);
    RunsFrom(keys, c, jobs, s2, t3, [t4] + [], r);
    RunsFrom(keys, c, jobs, s1, t2, [t3] + ([t4] + []), r);
    RunsFrom(keys, c, jobs, EMPTY, t1, [t2] + ([t3] + ([t4] + [])), r);
    steps := [t1] + ([t2] + ([t3] + ([t4] + [])));
    assert c.emit(i.chunks) <= c.finish(i.chunks) && c.emit(i.chunks) != c.finish(i.chunks);
  }

  /** Rows keep their objects over every run exactly if no error-free job shares its key with another. */
  lemma OwnKeysExactly(keys: Keys, c: Codec, jobs: set<Job>)
    requires Lawful(c) && HasTrailer(c) && LocationsDelete(keys, jobs)
    ensures KeepsObjects(keys, c, jobs) <==> OwnKeys(keys, jobs)
  {
    if OwnKeys(keys, jobs) {
      forall steps, r, id | Runs(keys, c, jobs, EMPTY, steps, r) && id in r.tables.backups && id in r.rows
        ensures r.rows[id] !in r.deleted ==> ObjectIntact(keys, c, r.objects, r.rows[id])
      {
        RowHasObject(keys, c, jobs, steps, r, id);
      }
    } else {
      var i, j :| i in jobs && j in jobs && i.dumpErr == None && !(keys.save(i) == keys.save(j) <==> i == j);
      var steps, r, id := SharedKeyLoses(keys, c, jobs, i, j);
    }
  }

  /** So two backups of one type, defaulted name and second, of which one gets a row, can lose it its
      object, whatever the storage. */
  lemma SameSecondLoses(d: Storage, c: Codec, jobs: set<Job>, i: Job, j: Job)
    requires Lawful(c) && HasTrailer(c) && LocationsDelete(KeysOf(d), jobs)
    requires i in jobs && j in jobs && i != j && i.dumpErr == None
    requires i.kind == j.kind && ObjectName.NameOrDefault(i.name) == ObjectName.NameOrDefault(j.name)
    requires Unix(i.start) == Unix(j.start)
    ensures !KeepsObjects(KeysOf(d), c, jobs)
  {
    assert Object(i) == Object(j);
    OwnKeysExactly(KeysOf(d), c, jobs);
  }
}
