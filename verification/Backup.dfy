/** RunBackup, and the API handlers that delete and restore a backup. */
module Backup {
  import opened GoText
  import opened Metadata
  import opened Adapters
  import opened DumpPipe
  import opened Lifecycle
  import ObjectName

  /** A storage adapter and what it holds. */
  class Disk {
    const adapter: Storage
    var objects: map<Text, Text>

    constructor (adapter: Storage)
      ensures this.adapter == adapter && objects == map[]
    {
      this.adapter := adapter;
      objects := map[];
    }

    /** `bytes` is all that was read from the stream. A failing Save may leave what it has written of
        that, down to an empty file, or may not have come to create anything. */
    method Save(objectName: Text, bytes: Text, complete: bool, left: Option<nat>) returns (location: Option<Text>)
      requires left.Some? ==> left.value <= |bytes|
      modifies this
      ensures location == if complete then Some(adapter.location(objectName)) else None
      ensures objects == if complete then old(objects)[adapter.save(objectName) := bytes]
                         else if left.Some? then old(objects)[adapter.save(objectName) := bytes[..left.value]]
                         else old(objects)
    {
      if complete {
        objects := objects[adapter.save(objectName) := bytes];
      } else if left.Some? {
        objects := objects[adapter.save(objectName) := bytes[..left.value]];
      }
      location := if complete then Some(adapter.location(objectName)) else None;
    }

    /** `up` says whether the storage answers. */
    method Open(location: Text, up: bool) returns (content: Option<Text>)
      ensures content == if up then OpenSpec(adapter, objects, location) else None
    {
      var key := adapter.open(location);
      content := if up && key.Some? && key.value in objects then Some(objects[key.value]) else None;
    }

    method Delete(location: Text, up: bool) returns (ok: bool)
      modifies this
      ensures ok <==> up && (adapter.missingIsError ==> adapter.delete(location) in old(objects))
      ensures objects == if up then old(objects) - {adapter.delete(location)} else old(objects)
    {
      var key := adapter.delete(location);
      ok := up && (adapter.missingIsError ==> key in objects);
      if up { objects := objects - {key}; }
    }
  }

  function OpenSpec(d: Storage, objects: map<Text, Text>, location: Text): Option<Text> {
    match d.open(location)
    case None => None
    case Some(key) => if key in objects then Some(objects[key]) else None
  }

  datatype Stores = Stores(objects: map<Text, Text>, tables: Tables)

  datatype BackupResult = Stored(id: Text) | SaveError | DumpError(err: Text) | StoreError

  /** What one call of RunBackup leaves behind. `partial` is what a failed Save left under the key. */
  function BackupOutcome(keys: Keys, c: Codec, st: Stores, j: Job, saved: bool, partial: Option<Text>,
                         id: Text, finishedAt: int, up: bool): (Stores, BackupResult)
  {
    if !saved then
      (if partial.Some? then st.(objects := st.objects[keys.save(j) := partial.value]) else st, SaveError)
    else
      var st' := st.(objects := st.objects[keys.save(j) := c.finish(j.chunks)]);
      if j.dumpErr.Some? then (st', DumpError(j.dumpErr.value))
      else
        match if up then InsertBackup(st.tables, RowOf(keys, j, id, finishedAt)) else None
        case None => (st', StoreError)
        case Some(t) => (st'.(tables := t), Stored(id))
  }

  /** The job that a call of RunBackup with this interleaving amounts to. */
  function JobOf(dbType: Text, name: Text, scheduleId: Text, start: int, turns: seq<Turn>, p: Pipe): Job {
    Job(dbType, name, if scheduleId == [] then None else Some(scheduleId), start, Written(turns), p.dumpErr)
  }

  /** type/name-seconds.gz, with `backup` for a missing name. */
  function ObjectText(dbType: Text, name: Text, start: int): Text {
    dbType + Ascii("/") + (if name == [] then Ascii("backup") else name) + Ascii("-") + Decimal(Unix(start))
    + Ascii(".gz")
  }

  lemma ObjectNameText(dbType: Text, name: Text, start: int)
    ensures ObjectName.Format(dbType, name, Unix(start)) == ObjectText(dbType, name, start)
  {
    assert Ascii("/") == [SLASH] && Ascii("-") == [DASH] && Ascii(".gz") == ObjectName.GZ;
    assert Ascii("backup") == ObjectName.BACKUP;
    Assoc(dbType + [SLASH], ObjectName.NameOrDefault(name), [DASH], Decimal(Unix(start)), ObjectName.GZ);
  }

  lemma Assoc(a: Text, b: Text, c: Text, d: Text, e: Text)
    ensures a + (b + (c + d + e)) == a + b + c + d + e
  {
  }

  /** `turns` is any interleaving of the dump goroutine and the reading Save up to Save's return. */
  method RunBackup(c: Codec, disk: Disk, store: Store, dbType: Text, name: Text, scheduleId: Text, start: int,
                   turns: seq<Turn>, ghost end: Pipe, left: Option<nat>, id: Text, finishedAt: int, up: bool)
    returns (r: BackupResult)
    requires Lawful(c) && Executes(c, START, turns, end) && !end.saving.Reading?
    requires left.Some? ==> left.value <= |end.stored|
    modifies disk, store
    ensures (Stores(disk.objects, store.State()), r)
         == BackupOutcome(KeysOf(disk.adapter), c, Stores(old(disk.objects), old(store.State())),
                          JobOf(dbType, name, scheduleId, start, turns, end), end.saving.SaveOk?,
                          if left.Some? then Some(end.stored[..left.value]) else None, id, finishedAt, up)
    // The same by its arguments: the answer, the row, and the object.
    ensures r.SaveError? <==> end.saving.SaveFailed?
    ensures r.DumpError? <==> end.saving.SaveOk? && end.dumpErr.Some?
    ensures r.DumpError? ==> r.err == end.dumpErr.value
    ensures r == Stored(id) <==> end.saving.SaveOk? && end.dumpErr == None && up && id !in old(store.backups)
                                 && (scheduleId == [] || scheduleId in old(store.schedules))
    ensures r.Stored? ==> r.id == id
    ensures store.schedules == old(store.schedules)
    ensures store.backups
         == if r.Stored?
            then old(store.backups)[id := Metadata.Backup(
                   id, if name == [] then ObjectName.BACKUP else name, dbType,
                   disk.adapter.location(ObjectText(dbType, name, start)), start, finishedAt,
                   if scheduleId == [] then None else Some(scheduleId))]
            else old(store.backups)
    ensures end.saving.SaveOk? ==>
              disk.objects == old(disk.objects)[disk.adapter.save(ObjectText(dbType, name, start)) := end.stored]
              && c.gunzip(end.stored) == Some(Flatten(Written(turns)))
  {
    var p, i := START, 0;
    while i < |turns|
      invariant 0 <= i <= |turns|
      invariant Executes(c, p, turns[i..], end)
    {
      p := Do(c, p, turns[i]);
      assert turns[i..][1..] == turns[i + 1..];
      i := i + 1;
    }
    assert p == end;
    if end.saving.SaveOk? { SavedIsComplete(c, turns, end); }

    var objectName := ObjectName.Format(dbType, name, Unix(start));
    ghost var j := JobOf(dbType, name, scheduleId, start, turns, end);
    assert Object(j) == objectName;
    assert KeysOf(disk.adapter).save(j) == disk.adapter.save(objectName);
    assert KeysOf(disk.adapter).location(j) == disk.adapter.location(objectName);
    ObjectNameText(dbType, name, start);
    var loc := disk.Save(objectName, p.stored, p.saving.SaveOk?, left);
    if loc.None? { return SaveError; }
    if p.dumpErr.Some? { return DumpError(p.dumpErr.value); }
    var row := Metadata.Backup(id, ObjectName.NameOrDefault(name), dbType, loc.value, start, finishedAt,
                               if scheduleId == [] then None else Some(scheduleId));
    var added := store.AddBackup(row, up);
    r := if added.Some? then Stored(added.value) else StoreError;
  }

  /** The job that cron runs for a schedule, with the schedule that it captured. */
  method RunScheduled(c: Codec, disk: Disk, store: Store, sc: Schedule, start: int, turns: seq<Turn>, ghost end: Pipe,
                      left: Option<nat>, id: Text, finishedAt: int, up: bool, at: int, touchUp: bool)
    returns (r: BackupResult)
    requires Lawful(c) && Executes(c, START, turns, end) && !end.saving.Reading?
    requires left.Some? ==> left.value <= |end.stored|
    requires sc.id != [] && store.canon(sc.id) == Some(sc.id)
    modifies disk, store
    ensures var name := Ascii("scheduled-") + sc.id;
            r.Stored? ==>
              && store.backups == old(store.backups)[id := Metadata.Backup(
                   id, name, sc.dbType, disk.adapter.location(ObjectText(sc.dbType, name, start)), start, finishedAt,
                   Some(sc.id))]
              && sc.id in old(store.schedules)
              && store.schedules
                 == if touchUp then old(store.schedules)[sc.id := old(store.schedules)[sc.id].(lastRun := Some(at))]
                    else old(store.schedules)
    ensures !r.Stored? ==> store.State() == old(store.State())
  {
    r := RunBackup(c, disk, store, sc.dbType, Ascii("scheduled-") + sc.id, sc.id, start, turns, end, left, id,
                   finishedAt, up);
    if r.Stored? {
      var _ := store.UpdateScheduleLastRun(sc.id, at, touchUp);
    }
  }

  /** A row that names a schedule is in every listing of that schedule's backups. */
  lemma RowIsListed(t: Tables, rows: seq<Metadata.Backup>, scheduleId: Text, id: Text)
    requires Consistent(t) && id in t.backups && t.backups[id].scheduleId == Some(scheduleId)
    requires forall b :: b in rows <==> b.id in t.backups && t.backups[b.id] == b && b.scheduleId == Some(scheduleId)
    ensures t.backups[id] in rows
  {
  }

  /** An id is answered only for a dump that returned without an error, under a database type that
      is supported, and its object holds all that the dump wrote. */
  lemma StoredMeansComplete(keys: Keys, c: Codec, st: Stores, j: Job, saved: bool, partial: Option<Text>,
                            id: Text, finishedAt: int, up: bool)
    requires Lawful(c) && PerformDump(j.kind, j.chunks, j.dumpErr)
    ensures var (st', r) := BackupOutcome(keys, c, st, j, saved, partial, id, finishedAt, up);
            && (r.Stored? <==> saved && j.dumpErr == None && up
                               && InsertBackup(st.tables, RowOf(keys, j, id, finishedAt)).Some?)
            && (r.Stored? ==> Supported(j.kind) && c.gunzip(st'.objects[keys.save(j)]) == Some(Flatten(j.chunks)))
            && (!r.Stored? ==> st'.tables == st.tables)
            && (r.Stored? ==> st'.tables.backups == st.tables.backups[id := Metadata.Backup(
                  id, if j.name == [] then ObjectName.BACKUP else j.name, j.kind, keys.location(j), j.start, finishedAt,
                  j.scheduleId)])
            && (forall k | k in st.objects && k != keys.save(j) :: k in st'.objects && st'.objects[k] == st.objects[k])
  {
  }

  /** The atomic steps of one call of RunBackup. */
  function BackupSteps(j: Job, saved: bool, partial: Option<Text>, id: Text, finishedAt: int, up: bool): seq<Step> {
    if !saved then if partial.Some? then [WriteObject(j, partial.value)] else []
    else if j.dumpErr.Some? || !up then [FinishSave(j)]
    else [FinishSave(j), AddRow(j, id, finishedAt)]
  }

  lemma RunsTwo(keys: Keys, c: Codec, jobs: set<Job>, s: System, t1: Step, t2: Step)
    requires Enabled(s, jobs, t1) && Enabled(Apply(keys, c, s, t1), jobs, t2)
    ensures Runs(keys, c, jobs, s, [t1, t2], Apply(keys, c, Apply(keys, c, s, t1), t2))
  {
  }

  /** A call of RunBackup is a run of the lifecycle's steps with the same effect. */
  lemma BackupIsSteps(keys: Keys, c: Codec, jobs: set<Job>, s: System, j: Job, saved: bool, partial: Option<Text>,
                      id: Text, finishedAt: int, up: bool) returns (r: System)
    requires j in jobs && j !in s.saved && j !in s.inserted
    ensures Runs(keys, c, jobs, s, BackupSteps(j, saved, partial, id, finishedAt, up), r)
    ensures Stores(r.objects, r.tables)
         == BackupOutcome(keys, c, Stores(s.objects, s.tables), j, saved, partial, id, finishedAt, up).0
    ensures r.deleted == s.deleted && r.saved <= s.saved + {j}
    ensures (r.rows == s.rows && r.tables == s.tables)
         || (r.rows == s.rows[id := j] && r.tables.backups.Keys == s.tables.backups.Keys + {id})
  {
    var steps := BackupSteps(j, saved, partial, id, finishedAt, up);
    if steps == [] {
      r := s;
    } else {
      var m := Apply(keys, c, s, steps[0]);
      if |steps| == 1 {
        r := m;
        assert Runs(keys, c, jobs, m, steps[1..], m);
      } else {
        r := Apply(keys, c, m, steps[1]);
        RunsTwo(keys, c, jobs, s, steps[0], steps[1]);
        assert steps == [steps[0], steps[1]];
      }
    }
  }

  // ---- backup_controller.go ----

  datatype Status = NotFound | Failed | Done

  /** DELETE /backups/{id}: the object first, then the row; either call may fail. */
  function DeleteOutcome(d: Storage, canon: Canon, st: Stores, id: Text, diskUp: bool, rowUp: bool): (Stores, Status) {
    match canon(id)
    case None => (st, NotFound)
    case Some(k) =>
      if k !in st.tables.backups then (st, NotFound)
      else
        var key := d.delete(st.tables.backups[k].path);
        if !diskUp then (st, Failed)
        else if d.missingIsError && key !in st.objects then (st, Failed)
        else if !rowUp then (st.(objects := st.objects - {key}), Failed)
        else (Stores(st.objects - {key}, DropBackup(st.tables, k)), Done)
  }

  /** Every exit over both adapters: a missing file stops the deletion on Local and keeps the row; on S3 a
      missing object is none, and the row goes. */
  lemma DeleteOverAdapters(a: Adapter, canon: Canon, st: Stores, id: Text, diskUp: bool, rowUp: bool)
    ensures var out := DeleteOutcome(AsStorage(a), canon, st, id, diskUp, rowUp);
            if canon(id).None? || canon(id).value !in st.tables.backups then out == (st, NotFound)
            else
              var k := canon(id).value;
              var key := DeleteKey(a, st.tables.backups[k].path);
              var rest := st.objects - {key};
              out == if !diskUp || (a.Local? && key !in st.objects) then (st, Failed)
                     else if !rowUp then (st.(objects := rest), Failed)
                     else (Stores(rest, st.tables.(backups := st.tables.backups - {k})), Done)
  {
  }

  method Delete(disk: Disk, store: Store, id: Text, diskUp: bool, rowUp: bool) returns (r: Status)
    modifies disk, store
    ensures (Stores(disk.objects, store.State()), r)
         == DeleteOutcome(disk.adapter, store.canon, Stores(old(disk.objects), old(store.State())), id, diskUp, rowUp)
  {
    var b := store.GetBackup(id, true);
    if b.None? { return NotFound; }
    var removed := disk.Delete(b.value.path, diskUp);
    if !removed {
      assert disk.objects == old(disk.objects);
      return Failed;
    }
    var dropped := store.DeleteBackup(id, rowUp);
    r := if dropped then Done else Failed;
  }

  /** POST /backups/{id}/restore, as the content that the target file gets. */
  function RestoreOutcome(d: Storage, c: Codec, canon: Canon, st: Stores, id: Text): Option<Text> {
    match canon(id)
    case None => None
    case Some(k) =>
      if k !in st.tables.backups then None
      else
        match OpenSpec(d, st.objects, st.tables.backups[k].path)
        case None => None
        case Some(content) => c.gunzip(content)
  }

  /** Over both adapters, what is restored is the unpacked content of the object that the row's location
      opens, and nothing exactly where row, object or a whole gzip stream is missing. */
  lemma RestoreOverAdapters(a: Adapter, c: Codec, canon: Canon, st: Stores, id: Text, content: Text)
    ensures RestoreOutcome(AsStorage(a), c, canon, st, id) == Some(content)
       <==> && canon(id).Some? && canon(id).value in st.tables.backups
            && var key := OpenKey(a, st.tables.backups[canon(id).value].path);
               key.Some? && key.value in st.objects && c.gunzip(st.objects[key.value]) == Some(content)
  {
  }

  /** The row lookup may fail, the storage may, and so may creating or writing the target file. */
  method Restore(c: Codec, disk: Disk, store: Store, id: Text, up: bool, diskUp: bool, targetUp: bool)
    returns (content: Option<Text>)
    ensures content == if up && diskUp && targetUp
                       then RestoreOutcome(disk.adapter, c, store.canon, Stores(disk.objects, store.State()), id)
                       else None
  {
    var b := store.GetBackup(id, up);
    if b.None? { return None; }
    var data := disk.Open(b.value.path, diskUp);
    if data.None? { return None; }
    content := c.gunzip(data.value);
    if content.Some? && !targetUp { content := None; }
  }
}
