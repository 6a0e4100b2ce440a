/** The backups and schedules tables with their constraints, and the store that changes them.
    `up` says whether the database answers; a call that fails changes nothing. */
module Metadata {
  import opened GoText

  /** PostgreSQL's reading of a UUID literal: its canonical spelling, or None. */
  type Canon = Text -> Option<Text>

  datatype Backup = Backup(
    id: Text, name: Text, kind: Text, path: Text, startedAt: int, finishedAt: int, scheduleId: Option<Text>)

  datatype Schedule = Schedule(
    id: Text, dbType: Text, source: Text, cronExpr: Text, retentionDays: int, createdAt: int, lastRun: Option<int>)

  datatype Tables = Tables(backups: map<Text, Backup>, schedules: map<Text, Schedule>)

  /** Rows sit under their own keys, and no schedule reference dangles. */
  ghost predicate Consistent(t: Tables) {
    && (forall id | id in t.backups :: t.backups[id].id == id)
    && (forall id | id in t.schedules :: t.schedules[id].id == id)
    && (forall id | id in t.backups :: t.backups[id].scheduleId.Some? ==> t.backups[id].scheduleId.value in t.schedules)
  }

  /** What a listing of all schedules returns. */
  ghost predicate Lists(scs: seq<Schedule>, t: Tables) {
    forall sc: Schedule :: sc in scs <==> sc.id in t.schedules && t.schedules[sc.id] == sc
  }

  /** The key must be new and the schedule reference, if any, must exist. */
  function InsertBackup(t: Tables, b: Backup): Option<Tables> {
    if b.id in t.backups then None
    else if b.scheduleId.Some? && b.scheduleId.value !in t.schedules then None
    else Some(t.(backups := t.backups[b.id := b]))
  }

  function DropBackup(t: Tables, id: Text): Tables {
    t.(backups := t.backups - {id})
  }

  function InsertSchedule(t: Tables, sc: Schedule): Option<Tables> {
    if sc.id in t.schedules then None else Some(t.(schedules := t.schedules[sc.id := sc]))
  }

  /** The four editable columns of one row. */
  function Edited(row: Schedule, sc: Schedule): Schedule {
    row.(dbType := sc.dbType, source := sc.source, cronExpr := sc.cronExpr, retentionDays := sc.retentionDays)
  }

  function ReplaceSchedule(t: Tables, sc: Schedule): Tables {
    if sc.id in t.schedules then t.(schedules := t.schedules[sc.id := Edited(t.schedules[sc.id], sc)]) else t
  }

  function TouchSchedule(t: Tables, id: Text, at: int): Tables {
    if id in t.schedules then t.(schedules := t.schedules[id := t.schedules[id].(lastRun := Some(at))]) else t
  }

  /** ON DELETE SET NULL */
  function Orphaned(b: Backup, id: Text): Backup {
    if b.scheduleId == Some(id) then b.(scheduleId := None) else b
  }

  function DropSchedule(t: Tables, id: Text): Tables {
    Tables(map k | k in t.backups :: Orphaned(t.backups[k], id), t.schedules - {id})
  }

  lemma BackupConstraints(t: Tables, b: Backup)
    requires Consistent(t)
    ensures InsertBackup(t, b).Some? ==> Consistent(InsertBackup(t, b).value)
  {
  }

  lemma DropConstraints(t: Tables, id: Text)
    requires Consistent(t)
    ensures var r := DropSchedule(t, id);
            Consistent(r) && r.backups.Keys == t.backups.Keys
            && forall k | k in t.backups ::
                 r.backups[k] == t.backups[k] || r.backups[k] == t.backups[k].(scheduleId := None)
  {
  }

  // ---- ORDER BY ... DESC ----

  lemma {:induction false} Latest(at: Text -> int, ids: set<Text>) returns (id: Text)
    requires ids != {}
    ensures id in ids && forall k | k in ids :: at(k) <= at(id)
    decreases ids
  {
    id :| id in ids;
    if ids != {id} {
      var other := Latest(at, ids - {id});
      if at(other) > at(id) { id := other; }
    }
  }

  /** No id twice, and none before one with a later time. */
  ghost predicate Descending(at: Text -> int, order: seq<Text>) {
    forall i, k | 0 <= i < k < |order| :: order[i] != order[k] && at(order[i]) >= at(order[k])
  }

  method LatestFirst(at: Text -> int, ids: set<Text>) returns (order: seq<Text>)
    ensures Descending(at, order) && forall id :: id in order <==> id in ids
  {
    var left := ids;
    order := [];
    while left != {}
      invariant left <= ids && Descending(at, order)
      invariant forall id :: id in order <==> id in ids && id !in left
      invariant forall id, k | id in order && k in left :: at(id) >= at(k)
      decreases left
    {
      var _ := Latest(at, left);
      var id :| id in left && forall k | k in left :: at(k) <= at(id);
      order, left := order + [id], left - {id};
    }
  }

  /** The scan loop: the rows under these ids, in this order. */
  method Fetch<T>(table: map<Text, T>, order: seq<Text>) returns (rows: seq<T>)
    requires forall i | 0 <= i < |order| :: order[i] in table
    ensures |rows| == |order| && forall i | 0 <= i < |rows| :: rows[i] == table[order[i]]
  {
    rows := [];
    while |rows| < |order|
      invariant |rows| <= |order| && forall i | 0 <= i < |rows| :: rows[i] == table[order[i]]
    {
      rows := rows + [table[order[|rows|]]];
    }
  }

  lemma FetchedExactly(t: Tables, scheduleId: Text, order: seq<Text>, rows: seq<Backup>)
    requires Consistent(t)
    requires forall id :: id in order <==> id in t.backups && t.backups[id].scheduleId == Some(scheduleId)
    requires |rows| == |order| && forall i | 0 <= i < |rows| :: order[i] in t.backups && rows[i] == t.backups[order[i]]
    ensures forall b :: b in rows <==> b.id in t.backups && t.backups[b.id] == b && b.scheduleId == Some(scheduleId)
  {
  }

  class Store {
    const canon: Canon
    var backups: map<Text, Backup>
    var schedules: map<Text, Schedule>

    function State(): Tables
      reads this
    {
      Tables(backups, schedules)
    }

    constructor (canon: Canon)
      ensures this.canon == canon && State() == Tables(map[], map[])
    {
      this.canon := canon;
      backups, schedules := map[], map[];
    }

    method AddBackup(b: Backup, up: bool) returns (id: Option<Text>)
      modifies this
      ensures id == if up && InsertBackup(old(State()), b).Some? then Some(b.id) else None
      ensures State() == if id.Some? then InsertBackup(old(State()), b).value else old(State())
    {
      if !up || b.id in backups || (b.scheduleId.Some? && b.scheduleId.value !in schedules) {
        return None;
      }
      backups := backups[b.id := b];
      id := Some(b.id);
    }

    method GetBackup(id: Text, up: bool) returns (b: Option<Backup>)
      ensures b == match canon(id)
                   case Some(k) => if up && k in backups then Some(backups[k]) else None
                   case None => None
    {
      var k := canon(id);
      if !up || k.None? || k.value !in backups { return None; }
      b := Some(backups[k.value]);
    }

    method DeleteBackup(id: Text, up: bool) returns (ok: bool)
      modifies this
      ensures ok <==> up && canon(id).Some?
      ensures State() == if ok then DropBackup(old(State()), canon(id).value) else old(State())
    {
      var k := canon(id);
      ok := up && k.Some?;
      if ok { backups := backups - {k.value}; }
    }

    method ListBackupsBySchedule(scheduleId: Text, up: bool) returns (rows: Option<seq<Backup>>)
      requires Consistent(State())
      ensures rows.Some? <==> up
      ensures up ==>
                forall b ::
                  b in rows.value <==> b.id in backups && backups[b.id] == b && b.scheduleId == Some(scheduleId)
      ensures up ==> forall i, k | 0 <= i < k < |rows.value| ::
                       rows.value[i].id != rows.value[k].id && rows.value[i].finishedAt >= rows.value[k].finishedAt
    {
      if !up { return None; }
      var table := backups;
      var at := id => if id in table then table[id].finishedAt else 0;
      var order := LatestFirst(at, set id | id in table && table[id].scheduleId == Some(scheduleId));
      assert forall i | 0 <= i < |order| :: order[i] in order;
      var res := Fetch(table, order);
      FetchedExactly(State(), scheduleId, order, res);
      rows := Some(res);
    }

    method ListSchedules(up: bool) returns (rows: Option<seq<Schedule>>)
      requires Consistent(State())
      ensures rows.Some? <==> up
      ensures up ==> forall sc :: sc in rows.value <==> sc.id in schedules && schedules[sc.id] == sc
      ensures up ==> forall i, k | 0 <= i < k < |rows.value| ::
                       rows.value[i].id != rows.value[k].id && rows.value[i].createdAt >= rows.value[k].createdAt
    {
      if !up { return None; }
      var table := schedules;
      var at := id => if id in table then table[id].createdAt else 0;
      var order := LatestFirst(at, table.Keys);
      assert forall i | 0 <= i < |order| :: order[i] in order;
      var res := Fetch(table, order);
      rows := Some(res);
    }

    method AddSchedule(sc: Schedule, up: bool) returns (id: Option<Text>)
      modifies this
      ensures id == if up && InsertSchedule(old(State()), sc).Some? then Some(sc.id) else None
      ensures State() == if id.Some? then InsertSchedule(old(State()), sc).value else old(State())
    {
      if !up || sc.id in schedules { return None; }
      schedules := schedules[sc.id := sc];
      id := Some(sc.id);
    }

    method GetSchedule(id: Text, up: bool) returns (sc: Option<Schedule>)
      ensures sc == match canon(id)
                    case Some(k) => if up && k in schedules then Some(schedules[k]) else None
                    case None => None
    {
      var k := canon(id);
      if !up || k.None? || k.value !in schedules { return None; }
      sc := Some(schedules[k.value]);
    }

    method UpdateSchedule(sc: Schedule, up: bool) returns (ok: bool)
      modifies this
      ensures ok == up
      ensures State() == if ok then ReplaceSchedule(old(State()), sc) else old(State())
    {
      ok := up;
      if ok && sc.id in schedules { schedules := schedules[sc.id := Edited(schedules[sc.id], sc)]; }
    }

    method UpdateScheduleLastRun(id: Text, at: int, up: bool) returns (ok: bool)
      modifies this
      ensures ok == up && backups == old(backups) && schedules.Keys == old(schedules).Keys
      ensures forall k | k in schedules ::
                schedules[k] == if up && canon(id) == Some(k) then old(schedules)[k].(lastRun := Some(at))
                                else old(schedules)[k]
      ensures canon(id) == Some(id) ==> State() == if ok then TouchSchedule(old(State()), id, at) else old(State())
    {
      var k := canon(id);
      ok := up;
      if ok && k.Some? && k.value in schedules {
        schedules := schedules[k.value := schedules[k.value].(lastRun := Some(at))];
      }
    }

    method DeleteSchedule(id: Text, up: bool) returns (ok: bool)
      modifies this
      ensures ok <==> up && canon(id).Some?
      ensures State() == if ok then DropSchedule(old(State()), canon(id).value) else old(State())
    {
      var k := canon(id);
      ok := up && k.Some?;
      if ok {
        backups := map b | b in backups :: Orphaned(backups[b], k.value);
        schedules := schedules - {k.value};
      }
    }
  }
}
