/** The cron table, the map from schedule ids to its entries, and the jobs captured in it. */
module CronTable {
  import opened GoText
  import opened Metadata

  /** A cron entry runs a closure: a backup with the schedule it captured, or the retention pass. */
  datatype Entry = ScheduleJob(sc: Schedule) | RetentionJob

  /** `parses` stands for the cron library's five-field parser. Entry ids count up from one. */
  datatype Cron = Cron(entries: map<nat, Entry>, last: nat, ids: map<Text, nat>)

  const NO_JOBS := Cron(map[], 0, map[])

  function AddEntry(c: Cron, e: Entry): Cron {
    c.(entries := c.entries[c.last + 1 := e], last := c.last + 1)
  }

  /** A schedule that already has an entry is left alone, even if it has changed since. */
  function Add(parses: Text -> bool, c: Cron, sc: Schedule): (Cron, Option<nat>) {
    if sc.id in c.ids then (c, Some(c.ids[sc.id]))
    else if !parses(sc.cronExpr) then (c, None)
    else (AddEntry(c, ScheduleJob(sc)).(ids := c.ids[sc.id := c.last + 1]), Some(c.last + 1))
  }

  function Remove(c: Cron, id: Text): Cron {
    if id in c.ids then c.(entries := c.entries - {c.ids[id]}, ids := c.ids - {id}) else c
  }

  const RETENTION_SPEC: Text := [51, 48, 32, 42, 32, 42, 32, 42, 32, 42, 32, 42]   // 30 * * * * *

  function AddRetention(parses: Text -> bool, c: Cron): Cron {
    if parses(RETENTION_SPEC) then AddEntry(c, RetentionJob) else c
  }

  /** The map is a bijection between the schedules it knows and the schedule entries of the table,
      and each entry's job captured the schedule that the map knows it by. */
  ghost predicate Indexed(parses: Text -> bool, c: Cron) {
    && (forall id | id in c.ids ::
          c.ids[id] in c.entries && c.entries[c.ids[id]].ScheduleJob? && c.entries[c.ids[id]].sc.id == id)
    && (forall e | e in c.entries && c.entries[e].ScheduleJob? ::
          c.entries[e].sc.id in c.ids && c.ids[c.entries[e].sc.id] == e && parses(c.entries[e].sc.cronExpr))
    && (forall e | e in c.entries :: 1 <= e <= c.last)
  }

  class Scheduler {
    const parses: Text -> bool
    var entries: map<nat, Entry>
    var last: nat
    var scheduleEntryIDs: map<Text, nat>

    function State(): Cron
      reads this
    {
      Cron(entries, last, scheduleEntryIDs)
    }

    constructor (parses: Text -> bool)
      ensures this.parses == parses && State() == NO_JOBS
    {
      this.parses := parses;
      entries, last, scheduleEntryIDs := map[], 0, map[];
    }

    method AddSchedule(sc: Schedule) returns (entry: Option<nat>)
      modifies this
      ensures (State(), entry) == Add(parses, old(State()), sc)
    {
      if sc.id in scheduleEntryIDs { return Some(scheduleEntryIDs[sc.id]); }
      if !parses(sc.cronExpr) { return None; }
      last := last + 1;
      entries := entries[last := ScheduleJob(sc)];
      scheduleEntryIDs := scheduleEntryIDs[sc.id := last];
      entry := Some(last);
    }

    method RemoveSchedule(id: Text)
      modifies this
      ensures State() == Remove(old(State()), id)
    {
      if id in scheduleEntryIDs {
        entries := entries - {scheduleEntryIDs[id]};
        scheduleEntryIDs := scheduleEntryIDs - {id};
      }
    }

    method StartRetentionPolicy()
      modifies this
      ensures State() == AddRetention(parses, old(State()))
    {
      if parses(RETENTION_SPEC) {
        last := last + 1;
        entries := entries[last := RetentionJob];
      }
    }

    /** The loop at startup: unparsable schedules are skipped. */
    method LoadSchedules(schedules: seq<Schedule>)
      modifies this
      ensures State() == AddAll(parses, old(State()), schedules)
    {
      ghost var start := State();
      var i := 0;
      while i < |schedules|
        invariant 0 <= i <= |schedules|
        invariant AddAll(parses, State(), schedules[i..]) == AddAll(parses, start, schedules)
      {
        assert schedules[i..][1..] == schedules[i + 1..];
        var _ := AddSchedule(schedules[i]);
        i := i + 1;
      }
    }
  }

  function AddAll(parses: Text -> bool, c: Cron, scs: seq<Schedule>): Cron
    decreases |scs|
  {
    if scs == [] then c else AddAll(parses, Add(parses, c, scs[0]).0, scs[1..])
  }

  datatype Call = CallAdd(sc: Schedule) | CallRemove(id: Text) | CallRetention

  function CallAll(parses: Text -> bool, c: Cron, calls: seq<Call>): Cron
    decreases |calls|
  {
    if calls == [] then c
    else
      var next := match calls[0]
                  case CallAdd(sc) => Add(parses, c, sc).0
                  case CallRemove(id) => Remove(c, id)
                  case CallRetention => AddRetention(parses, c);
      CallAll(parses, next, calls[1..])
  }

  lemma IndexKept(parses: Text -> bool, c: Cron, sc: Schedule, id: Text)
    requires Indexed(parses, c)
    ensures Indexed(parses, Add(parses, c, sc).0)
    ensures Indexed(parses, Remove(c, id)) && Indexed(parses, AddRetention(parses, c))
  {
  }

  /** After every sequence of additions and removals, failed and repeated ones included, the map and
      the table agree both ways, so no two schedules share an entry and no entry is left behind. */
  lemma {:induction false} IndexIsBijection(parses: Text -> bool, c: Cron, calls: seq<Call>)
    requires Indexed(parses, c)
    ensures Indexed(parses, CallAll(parses, c, calls))
    ensures var r := CallAll(parses, c, calls); forall i, k | i in r.ids && k in r.ids && i != k :: r.ids[i] != r.ids[k]
    decreases |calls|
  {
    if calls != [] {
      match calls[0]
      case CallAdd(sc) =>
        IndexKept(parses, c, sc, []);
        IndexIsBijection(parses, Add(parses, c, sc).0, calls[1..]);
      case CallRemove(id) =>
        assert Indexed(parses, Remove(c, id));
        IndexIsBijection(parses, Remove(c, id), calls[1..]);
      case CallRetention =>
        assert Indexed(parses, AddRetention(parses, c));
        IndexIsBijection(parses, AddRetention(parses, c), calls[1..]);
    }
  }
}
