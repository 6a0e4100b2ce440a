/** Whole requests: a sequence of backups, deletions, retention passes and schedule edits, each run
    to its end, as a run of the lifecycle's atomic steps. */
module Operations {
  import opened GoText
  import opened Metadata
  import opened Adapters
  import opened DumpPipe
  import opened Lifecycle
  import opened Backup
  import opened Retention

  /** Deletions and passes are fault-free; a backup may fail anywhere. */
  datatype Op =
    | Back(j: Job, saved: bool, partial: Option<Text>, id: Text, finishedAt: int, up: bool)
    | Remove(id: Text)
    | Retain(clock: Clock)
    | Edit(step: Step)

  function Perform(d: Storage, c: Codec, canon: Canon, st: Stores, op: Op): Stores {
    match op
    case Back(j, saved, partial, id, finishedAt, up) =>
      BackupOutcome(KeysOf(d), c, st, j, saved, partial, id, finishedAt, up).0
    case Remove(id) => DeleteOutcome(d, canon, st, id, true, true).0
    case Retain(clock) => Pass(d, st, clock, NO_FAULTS)
    case Edit(AddSchedule(sc)) =>
      st.(tables := match InsertSchedule(st.tables, sc) case None => st.tables case Some(t) => t)
    case Edit(EditSchedule(sc)) => st.(tables := ReplaceSchedule(st.tables, sc))
    case Edit(RunSchedule(id, at)) => st.(tables := TouchSchedule(st.tables, id, at))
    case Edit(DeleteSchedule(id)) => st.(tables := DropSchedule(st.tables, id))
    case Edit(_) => st
  }

  function PerformAll(d: Storage, c: Codec, canon: Canon, st: Stores, ops: seq<Op>): Stores
    decreases |ops|
  {
    if ops == [] then st else PerformAll(d, c, canon, Perform(d, c, canon, st, ops[0]), ops[1..])
  }

  /** Which rows a request leaves: a backup adds its own exactly if all went well, a deletion takes away the
      one it names, unless that one's file is missing on Local, and a pass all expired ones. */
  lemma RowsLeft(d: Storage, c: Codec, canon: Canon, st: Stores, op: Op, k: Text)
    requires Consistent(st.tables)
    ensures k in Perform(d, c, canon, st, op).tables.backups
       <==> match op
            case Back(j, saved, _, id, _, up) =>
              || k in st.tables.backups
              || (k == id && saved && j.dumpErr == None && up
                  && (j.scheduleId.Some? ==> j.scheduleId.value in st.tables.schedules))
            case Remove(id) =>
              && k in st.tables.backups
              && (canon(id) == Some(k) ==> d.missingIsError && d.delete(st.tables.backups[k].path) !in st.objects)
            case Retain(clock) => k in st.tables.backups && !Expired(st.tables, clock, k)
            case Edit(_) => k in st.tables.backups
  {
  }

  function JobsOf(ops: seq<Op>): seq<Job> {
    if ops == [] then [] else (if ops[0].Back? then [ops[0].j] else []) + JobsOf(ops[1..])
  }

  /** A system with these stores that satisfies the invariant and has no row without its object. */
  ghost predicate Models(keys: Keys, c: Codec, jobs: set<Job>, st: Stores, s: System) {
    && st == Stores(s.objects, s.tables) && Inv(keys, c, jobs, s)
    && forall id | id in s.tables.backups :: s.rows[id] !in s.deleted
  }

  lemma BackModels(keys: Keys, c: Codec, jobs: set<Job>, st: Stores, s: System, op: Op) returns (r: System)
    requires Apart(keys, jobs) && Models(keys, c, jobs, st, s) && op.Back? && op.j in jobs && op.j !in s.saved
    ensures var out := BackupOutcome(keys, c, st, op.j, op.saved, op.partial, op.id, op.finishedAt, op.up);
            Models(keys, c, jobs, out.0, r)
    ensures r.saved <= s.saved + {op.j}
  {
    var steps := BackupSteps(op.j, op.saved, op.partial, op.id, op.finishedAt, op.up);
    r := BackupIsSteps(keys, c, jobs, s, op.j, op.saved, op.partial, op.id, op.finishedAt, op.up);
    RunKept(keys, c, jobs, s, steps, r);
    assert op.j !in s.deleted;
    forall id | id in r.tables.backups
      ensures r.rows[id] !in r.deleted
    {
      assert r.rows[id] == op.j || (id in s.tables.backups && r.rows[id] == s.rows[id]);
    }
  }

  /** The calls that remove some backups one after the other. */
  function PurgeSteps(s: System, ids: seq<Text>): seq<Step>
    requires forall id | id in ids :: id in s.rows
  {
    if ids == [] then []
    else [Step.DeleteObject(s.rows[ids[0]]), Step.DeleteRow(ids[0])] + PurgeSteps(s, ids[1..])
  }

  ghost function KeysGone(keys: Keys, s: System, ids: seq<Text>): set<Text>
    requires forall id | id in ids :: id in s.rows
  {
    set id | id in ids :: keys.delete(keys.location(s.rows[id]))
  }

  ghost function JobsGone(s: System, ids: seq<Text>): set<Job>
    requires forall id | id in ids :: id in s.rows
  {
    set id | id in ids :: s.rows[id]
  }

  ghost function Purged(keys: Keys, s: System, ids: seq<Text>): System
    requires forall id | id in ids :: id in s.rows
  {
    s.(objects := s.objects - KeysGone(keys, s, ids),
       tables := s.tables.(backups := s.tables.backups - (set id | id in ids)),
       deleted := s.deleted + JobsGone(s, ids))
  }

  lemma PurgedOneMore(keys: Keys, s: System, id: Text, rest: seq<Text>)
    requires id in s.rows && forall k | k in rest :: k in s.rows
    ensures var m := s.(objects := s.objects - {keys.delete(keys.location(s.rows[id]))},
                        deleted := s.deleted + {s.rows[id]}, tables := DropBackup(s.tables, id));
            Purged(keys, m, rest) == Purged(keys, s, [id] + rest)
  {
  }

  lemma {:induction false} PurgeRuns(keys: Keys, c: Codec, jobs: set<Job>, s: System, ids: seq<Text>)
    requires forall id | id in ids :: id in s.rows && s.rows[id] in s.inserted
    ensures Runs(keys, c, jobs, s, PurgeSteps(s, ids), Purged(keys, s, ids))
    decreases |ids|
  {
    if ids == [] {
      assert Purged(keys, s, ids) == s;
    } else {
      var id, rest := ids[0], ids[1..];
      var t1, t2 := Step.DeleteObject(s.rows[id]), Step.DeleteRow(id);
      var m1 := Apply(keys, c, s, t1);
      var m := Apply(keys, c, m1, t2);
      PurgeRuns(keys, c, jobs, m, rest);
      SameSteps(s, m, rest);
      PurgedOneMore(keys, s, id, rest);
      assert [id] + rest == ids;
      var steps := PurgeSteps(s, ids);
      assert steps[0] == t1 && steps[1..][0] == t2 && steps[1..][1..] == PurgeSteps(s, rest);
      assert Runs(keys, c, jobs, m1, steps[1..], Purged(keys, s, ids));
    }
  }

  lemma {:induction false} SameSteps(s: System, m: System, ids: seq<Text>)
    requires m.rows == s.rows && forall id | id in ids :: id in s.rows
    ensures PurgeSteps(m, ids) == PurgeSteps(s, ids)
  {
    if ids != [] { SameSteps(s, m, ids[1..]); }
  }

  lemma PurgeModels(keys: Keys, c: Codec, jobs: set<Job>, st: Stores, s: System, ids: seq<Text>)
    requires Apart(keys, jobs) && Models(keys, c, jobs, st, s)
    requires forall id | id in ids :: id in s.tables.backups
    ensures forall id | id in ids :: id in s.rows
    ensures var r := Purged(keys, s, ids); Models(keys, c, jobs, Stores(r.objects, r.tables), r)
  {
    PurgeRuns(keys, c, jobs, s, ids);
    RunKept(keys, c, jobs, s, PurgeSteps(s, ids), Purged(keys, s, ids));
  }

  ghost function Listed(ids: set<Text>): (s: seq<Text>)
    ensures forall id :: id in s <==> id in ids
  {
    if ids == {} then [] else var id :| id in ids; [id] + Listed(ids - {id})
  }

  lemma PurgedIsRemoved(d: Storage, s: System, ids: seq<Text>, due: set<Text>)
    requires (forall id :: id in ids <==> id in due) && due <= s.tables.backups.Keys
    requires forall id | id in due :: id in s.rows && s.tables.backups[id].path == KeysOf(d).location(s.rows[id])
    ensures var r := Purged(KeysOf(d), s, ids);
            && r.objects == s.objects - GoneKeys(d, s.tables, due)
            && r.tables == s.tables.(backups := s.tables.backups - due) && r.saved == s.saved
  {
  }

  lemma RowPaths(keys: Keys, c: Codec, jobs: set<Job>, s: System, id: Text)
    requires Inv(keys, c, jobs, s) && id in s.tables.backups
    ensures id in s.rows && s.tables.backups[id].path == keys.location(s.rows[id])
  {
  }

  /** Removing some rows with their objects leaves every other row its object. */
  lemma PurgeSet(d: Storage, c: Codec, jobs: set<Job>, st: Stores, s: System, due: set<Text>) returns (r: System)
    requires Apart(KeysOf(d), jobs) && Models(KeysOf(d), c, jobs, st, s) && due <= st.tables.backups.Keys
    ensures Models(KeysOf(d), c, jobs, Removed(d, st, due, NO_FAULTS), r) && r.saved == s.saved
  {
    var ids := Listed(due);
    PurgeModels(KeysOf(d), c, jobs, st, s, ids);
    forall id | id in due
      ensures id in s.rows && s.tables.backups[id].path == KeysOf(d).location(s.rows[id])
    {
      RowPaths(KeysOf(d), c, jobs, s, id);
    }
    PurgedIsRemoved(d, s, ids, due);
    RemovedPlainly(d, st, due);
    r := Purged(KeysOf(d), s, ids);
  }

  lemma RemovedPlainly(d: Storage, st: Stores, due: set<Text>)
    ensures Removed(d, st, due, NO_FAULTS)
         == Stores(st.objects - GoneKeys(d, st.tables, due), st.tables.(backups := st.tables.backups - due))
  {
    var none: set<Text> := {};
    assert due - none == due;
  }

  lemma RetainModels(d: Storage, c: Codec, jobs: set<Job>, st: Stores, s: System, clock: Clock) returns (r: System)
    requires Apart(KeysOf(d), jobs) && Models(KeysOf(d), c, jobs, st, s)
    ensures Models(KeysOf(d), c, jobs, Pass(d, st, clock, NO_FAULTS), r) && r.saved == s.saved
  {
    r := PurgeSet(d, c, jobs, st, s, Due(st.tables, clock, NO_FAULTS));
  }

  lemma RowDeletes(d: Storage, c: Codec, jobs: set<Job>, st: Stores, s: System, k: Text)
    requires Apart(KeysOf(d), jobs) && Models(KeysOf(d), c, jobs, st, s) && k in st.tables.backups
    ensures d.delete(st.tables.backups[k].path) in st.objects
  {
  }

  lemma OneGone(d: Storage, st: Stores, k: Text)
    requires k in st.tables.backups && d.delete(st.tables.backups[k].path) in st.objects
    ensures GoneKeys(d, st.tables, {k}) == {d.delete(st.tables.backups[k].path)}
    ensures forall canon: Canon, id | canon(id) == Some(k) ::
              DeleteOutcome(d, canon, st, id, true, true).0
              == Stores(st.objects - GoneKeys(d, st.tables, {k}), st.tables.(backups := st.tables.backups - {k}))
  {
  }

  lemma RemoveModels(d: Storage, c: Codec, canon: Canon, jobs: set<Job>, st: Stores, s: System, id: Text)
    returns (r: System)
    requires Apart(KeysOf(d), jobs) && Models(KeysOf(d), c, jobs, st, s)
    ensures Models(KeysOf(d), c, jobs, DeleteOutcome(d, canon, st, id, true, true).0, r) && r.saved == s.saved
  {
    if canon(id).Some? && canon(id).value in st.tables.backups {
      RowDeletes(d, c, jobs, st, s, canon(id).value);
      OneGone(d, st, canon(id).value);
      RemovedPlainly(d, st, {canon(id).value});
      r := PurgeSet(d, c, jobs, st, s, {canon(id).value});
    } else {
      r := s;
    }
  }

  lemma EditModels(d: Storage, c: Codec, canon: Canon, jobs: set<Job>, st: Stores, s: System, t: Step)
    returns (r: System)
    requires Apart(KeysOf(d), jobs) && Models(KeysOf(d), c, jobs, st, s)
    ensures Models(KeysOf(d), c, jobs, Perform(d, c, canon, st, Edit(t)), r) && r.saved == s.saved
  {
    r := s;
    if t.AddSchedule? || t.EditSchedule? || t.RunSchedule? || t.DeleteSchedule? {
      r := Apply(KeysOf(d), c, s, t);
      StepKept(KeysOf(d), c, jobs, s, t);
    }
  }

  lemma {:induction false} OpsModel(d: Storage, c: Codec, canon: Canon, jobs: set<Job>, st: Stores, s: System,
                                    ops: seq<Op>)
    returns (r: System)
    requires Apart(KeysOf(d), jobs) && Models(KeysOf(d), c, jobs, st, s)
    requires forall j | j in JobsOf(ops) :: j in jobs && j !in s.saved
    requires forall i, k | 0 <= i < k < |JobsOf(ops)| :: JobsOf(ops)[i] != JobsOf(ops)[k]
    ensures Models(KeysOf(d), c, jobs, PerformAll(d, c, canon, st, ops), r)
    decreases |ops|
  {
    if ops == [] { return s; }
    var op, tail := ops[0], JobsOf(ops[1..]);
    var m: System;
    match op {
      case Back(j, _, _, _, _, _) =>
        assert JobsOf(ops) == [j] + tail;
        assert JobsOf(ops)[0] == j && forall i | 0 <= i < |tail| :: JobsOf(ops)[i + 1] == tail[i];
        m := BackModels(KeysOf(d), c, jobs, st, s, op);
      case Remove(id) => m := RemoveModels(d, c, canon, jobs, st, s, id);
      case Retain(clock) => m := RetainModels(d, c, jobs, st, s, clock);
      case Edit(t) => m := EditModels(d, c, canon, jobs, st, s, t);
    }
    assert op.Back? || JobsOf(ops) == tail;
    r := OpsModel(d, c, canon, jobs, Perform(d, c, canon, st, op), m, ops[1..]);
  }

  lemma RowsDiffer(keys: Keys, c: Codec, jobs: set<Job>, r: System, id: Text)
    requires Apart(keys, jobs) && Inv(keys, c, jobs, r) && id in r.tables.backups
    ensures forall k | k in r.tables.backups && k != id :: r.tables.backups[k].path != r.tables.backups[id].path
  {
  }

  lemma OpenedRow(d: Storage, c: Codec, canon: Canon, st: Stores, j: Job, id: Text)
    requires Lawful(c) && id in st.tables.backups && canon(id) == Some(id)
    requires ObjectIntact(KeysOf(d), c, st.objects, j) && st.tables.backups[id].path == d.location(Object(j))
    requires d.open(d.location(Object(j))) == Some(d.save(Object(j)))
    ensures RestoreOutcome(d, c, canon, st, id) == Some(Flatten(j.chunks))
  {
  }

  /** What the stores promise about one row, and the job that it came from. */
  ghost predicate Promise(d: Storage, c: Codec, canon: Canon, jobs: set<Job>, st: Stores, id: Text, j: Job)
    requires id in st.tables.backups
  {
    var b := st.tables.backups[id];
    && j in jobs && j.dumpErr == None && b.kind == j.kind && b.startedAt == j.start
    && (b.scheduleId == None || b.scheduleId == j.scheduleId)
    && RestoreOutcome(d, c, canon, st, id) == Some(Flatten(j.chunks))
    && (forall k | k in st.tables.backups && k != id :: st.tables.backups[k].path != b.path)
    && Consistent(st.tables)
  }

  lemma RowOfJob(keys: Keys, c: Codec, jobs: set<Job>, st: Stores, r: System, id: Text)
    requires Models(keys, c, jobs, st, r) && id in st.tables.backups
    ensures id in r.rows && r.rows[id] in jobs && r.rows[id].dumpErr == None && Consistent(st.tables)
    ensures RowMatches(keys, r.rows[id], st.tables.backups[id]) && ObjectIntact(keys, c, st.objects, r.rows[id])
  {
  }

  lemma ModelRestores(d: Storage, c: Codec, canon: Canon, jobs: set<Job>, st: Stores, r: System, id: Text)
    returns (j: Job)
    requires Lawful(c) && Suited(d, jobs)
    requires Models(KeysOf(d), c, jobs, st, r) && id in st.tables.backups && canon(id) == Some(id)
    ensures Promise(d, c, canon, jobs, st, id, j)
  {
    RowOfJob(KeysOf(d), c, jobs, st, r, id);
    j := r.rows[id];
    RowsDiffer(KeysOf(d), c, jobs, r, id);
    OpenedRow(d, c, canon, st, j, id);
  }

  // ---- main result ----

  /** After any sequence of backups, fault-free deletions and passes, and schedule edits, by jobs with
      keys of their own, restoring any row yields the whole dump that some successful call made under the
      row's type and name, no two rows share a location, and every schedule reference holds. */
  lemma EveryRowRestores(d: Storage, c: Codec, canon: Canon, jobs: set<Job>, ops: seq<Op>, id: Text)
    returns (j: Job)
    requires Lawful(c) && Suited(d, jobs)
    requires forall i | i in JobsOf(ops) :: i in jobs
    requires forall i, k | 0 <= i < k < |JobsOf(ops)| :: JobsOf(ops)[i] != JobsOf(ops)[k]
    requires canon(id) == Some(id)
    requires id in PerformAll(d, c, canon, Stores(map[], Tables(map[], map[])), ops).tables.backups
    ensures Promise(d, c, canon, jobs, PerformAll(d, c, canon, Stores(map[], Tables(map[], map[])), ops), id, j)
  {
    var st0 := Stores(map[], Tables(map[], map[]));
    var r := OpsModel(d, c, canon, jobs, st0, EMPTY, ops);
    j := ModelRestores(d, c, canon, jobs, PerformAll(d, c, canon, st0, ops), r, id);
  }
}
