/** Creating, updating and deleting schedules in the store and in cron, one request at a time. */
module ScheduleController {
  import opened GoText
  import opened Metadata
  import opened CronTable

  datatype Control = Control(tables: Tables, cron: Cron)

  /** The four fields that a request may set; None where an update leaves one out. */
  datatype Request = Request(
    dbType: Option<Text>, source: Option<Text>, cronExpr: Option<Text>, retentionDays: Option<int>)

  datatype Status = BadRequest | NotFound | Failed | Done

  function Or<T>(o: Option<T>, default: T): T { if o.Some? then o.value else default }

  function Merge(sc: Schedule, r: Request): Schedule {
    sc.(dbType := Or(r.dbType, sc.dbType), source := Or(r.source, sc.source),
        cronExpr := Or(r.cronExpr, sc.cronExpr), retentionDays := Or(r.retentionDays, sc.retentionDays))
  }

  predicate Acceptable(sc: Schedule) {
    sc.dbType != [] && sc.source != [] && sc.cronExpr != [] && sc.retentionDays >= 1
  }

  function Fresh(id: Text, r: Request, now: int): Schedule {
    Merge(Schedule(id, [], [], [], 0, now, None), r)
  }

  /** One request or job run. The flags say which store calls succeed. */
  datatype Op =
    | Create(id: Text, req: Request, now: int, addUp: bool, getUp: bool)
    | Update(id: Text, req: Request, getUp: bool, updateUp: bool)
    | Delete(id: Text, up: bool)
    | JobRan(id: Text, at: int)

  function CreateSpec(parses: Text -> bool, canon: Canon, s: Control, op: Op): (Control, Status)
    requires op.Create?
  {
    var sc := Fresh(op.id, op.req, op.now);
    if !Acceptable(sc) then (s, BadRequest)
    else if !op.addUp || InsertSchedule(s.tables, sc).None? then (s, Failed)
    else
      var s' := s.(tables := InsertSchedule(s.tables, sc).value);
      if !op.getUp || canon(op.id).None? || canon(op.id).value !in s'.tables.schedules then (s', Failed)
      else
        var (cron, entry) := Add(parses, s.cron, s'.tables.schedules[canon(op.id).value]);
        (s'.(cron := cron), if entry.Some? then Done else Failed)
  }

  /** The old job is removed by the id as the request spells it, the row is found by what the
      database makes of that spelling, and the new job is added under the row's own id. */
  function UpdateSpec(parses: Text -> bool, canon: Canon, s: Control, op: Op): (Control, Status)
    requires op.Update?
  {
    if !op.getUp || canon(op.id).None? || canon(op.id).value !in s.tables.schedules then (s, NotFound)
    else
      var sc := Merge(s.tables.schedules[canon(op.id).value], op.req);
      if !Acceptable(sc) then (s, BadRequest)
      else
        var removed := s.(cron := Remove(s.cron, op.id));
        if !op.updateUp then (removed, Failed)
        else
          var (cron, entry) := Add(parses, removed.cron, sc);
          (Control(ReplaceSchedule(s.tables, sc), cron), if entry.Some? then Done else Failed)
  }

  function DeleteSpec(canon: Canon, s: Control, op: Op): (Control, Status)
    requires op.Delete?
  {
    if !op.up || canon(op.id).None? then (s, Failed)
    else (Control(DropSchedule(s.tables, canon(op.id).value), Remove(s.cron, op.id)), Done)
  }

  function Perform(parses: Text -> bool, canon: Canon, s: Control, op: Op): (Control, Status) {
    match op
    case Create(_, _, _, _, _) => CreateSpec(parses, canon, s, op)
    case Update(_, _, _, _) => UpdateSpec(parses, canon, s, op)
    case Delete(_, _) => DeleteSpec(canon, s, op)
    case JobRan(id, at) => (s.(tables := TouchSchedule(s.tables, id, at)), Done)
  }

  method HandleCreate(store: Store, sched: Scheduler, op: Op) returns (r: Status)
    requires op.Create?
    modifies store, sched
    ensures (Control(store.State(), sched.State()), r)
         == CreateSpec(sched.parses, store.canon, Control(old(store.State()), old(sched.State())), op)
  {
    var sc := Fresh(op.id, op.req, op.now);
    if !Acceptable(sc) { return BadRequest; }
    var id := store.AddSchedule(sc, op.addUp);
    if id.None? { return Failed; }
    var full := store.GetSchedule(id.value, op.getUp);
    if full.None? { return Failed; }
    var entry := sched.AddSchedule(full.value);
    r := if entry.Some? then Done else Failed;
  }

  method HandleUpdate(store: Store, sched: Scheduler, op: Op) returns (r: Status)
    requires op.Update?
    modifies store, sched
    ensures (Control(store.State(), sched.State()), r)
         == UpdateSpec(sched.parses, store.canon, Control(old(store.State()), old(sched.State())), op)
  {
    var found := store.GetSchedule(op.id, op.getUp);
    if found.None? { return NotFound; }
    var sc := Merge(found.value, op.req);
    if !Acceptable(sc) { return BadRequest; }
    sched.RemoveSchedule(op.id);
    var ok := store.UpdateSchedule(sc, op.updateUp);
    if !ok { return Failed; }
    var entry := sched.AddSchedule(sc);
    r := if entry.Some? then Done else Failed;
  }

  method HandleDelete(store: Store, sched: Scheduler, op: Op) returns (r: Status)
    requires op.Delete?
    modifies store, sched
    ensures (Control(store.State(), sched.State()), r)
         == DeleteSpec(store.canon, Control(old(store.State()), old(sched.State())), op)
  {
    var ok := store.DeleteSchedule(op.id, op.up);
    if !ok { return Failed; }
    sched.RemoveSchedule(op.id);
    r := Done;
  }

  // ---- what a request leaves behind, field by field ----

  /** The fields that a creation must give: none blank, and at least one day. */
  predicate Complies(req: Request) {
    && req.dbType.Some? && req.dbType.value != [] && req.source.Some? && req.source.value != []
    && req.cronExpr.Some? && req.cronExpr.value != [] && req.retentionDays.Some? && req.retentionDays.value >= 1
  }

  /** A creation with a new id stores the request's fields and nothing else, and when it is answered
      Done, cron runs a job that captured exactly that row. */
  lemma CreateLeaves(parses: Text -> bool, canon: Canon, s: Control, id: Text, req: Request, now: int,
                     addUp: bool, getUp: bool)
    requires canon(id) == Some(id) && id !in s.cron.ids
    ensures var (r, status) := Perform(parses, canon, s, Create(id, req, now, addUp, getUp));
            var stored := Complies(req) && addUp && id !in s.tables.schedules;
            && (status == BadRequest <==> !Complies(req))
            && (status == Done <==> stored && getUp && parses(req.cronExpr.value))
            && status != NotFound && r.tables.backups == s.tables.backups
            && (stored ==>
                  r.tables.schedules
                  == s.tables.schedules[id := Schedule(id, req.dbType.value, req.source.value, req.cronExpr.value,
                                                       req.retentionDays.value, now, None)])
            && (!stored ==> r == s)
            && (status == Done ==>
                  id in r.cron.ids && r.cron.ids[id] in r.cron.entries
                  && r.cron.entries[r.cron.ids[id]] == ScheduleJob(r.tables.schedules[id])
                  && r.cron.ids == s.cron.ids[id := r.cron.ids[id]]
                  && r.cron.entries == s.cron.entries[r.cron.ids[id] := ScheduleJob(r.tables.schedules[id])])
            && (status != Done ==> r.cron == s.cron)
  {
  }

  /** An update gives the row each field that the request has and keeps each that it leaves out, the id,
      the creation time and the last run; a blank field or less than a day in the outcome is refused.
      Answered Done, the job under the row's id captured that row, unless the id was spelled in another
      way while that job ran: then it is left as it was. */
  lemma UpdateLeaves(parses: Text -> bool, canon: Canon, s: Control, id: Text, req: Request, getUp: bool,
                     updateUp: bool)
    requires WellFormed(parses, canon, s)
    ensures var (r, status) := Perform(parses, canon, s, Update(id, req, getUp, updateUp));
            && (status == NotFound <==> !getUp || canon(id).None? || canon(id).value !in s.tables.schedules)
            && r.tables.backups == s.tables.backups
            && (status == NotFound || status == BadRequest ==> r == s)
            && (status != NotFound ==>
                  var k := canon(id).value;
                  var was := s.tables.schedules[k];
                  var row := Schedule(k, if req.dbType.Some? then req.dbType.value else was.dbType,
                                      if req.source.Some? then req.source.value else was.source,
                                      if req.cronExpr.Some? then req.cronExpr.value else was.cronExpr,
                                      if req.retentionDays.Some? then req.retentionDays.value else was.retentionDays,
                                      was.createdAt, was.lastRun);
                  var fine := row.dbType != [] && row.source != [] && row.cronExpr != [] && row.retentionDays >= 1;
                  var stale := k != id && k in s.cron.ids;
                  && (status == BadRequest <==> !fine)
                  && (status == Done <==> fine && updateUp && (stale || parses(row.cronExpr)))
                  && (fine ==>
                        r.tables.schedules == if updateUp then s.tables.schedules[k := row] else s.tables.schedules)
                  && (status == Done ==>
                        k in r.cron.ids && r.cron.ids[k] in r.cron.entries
                        && r.cron.entries[r.cron.ids[k]]
                           == if stale then s.cron.entries[s.cron.ids[k]] else ScheduleJob(row))
                  && (status == Failed && !stale ==> k !in r.cron.ids))
            && (forall j | j != id && canon(id) != Some(j) ::
                  (j in r.cron.ids <==> j in s.cron.ids)
                  && (j in r.cron.ids ==>
                        r.cron.ids[j] == s.cron.ids[j] && r.cron.ids[j] in r.cron.entries
                        && r.cron.entries[r.cron.ids[j]] == s.cron.entries[s.cron.ids[j]]))
  {
  }

  /** A deletion removes the row that the id names, clears the references to it, and stops the job under
      the id as it is spelled; everything else stays. It is answered Done also for an unknown id. */
  lemma DeleteLeaves(parses: Text -> bool, canon: Canon, s: Control, id: Text, up: bool)
    requires WellFormed(parses, canon, s)
    ensures var (r, status) := Perform(parses, canon, s, Delete(id, up));
            && (status == Done <==> up && canon(id).Some?) && (status == Done || status == Failed)
            && (status == Failed ==> r == s)
            && (status == Done ==>
                  && r.tables.schedules == s.tables.schedules - {canon(id).value}
                  && r.tables.backups.Keys == s.tables.backups.Keys
                  && (forall k | k in s.tables.backups ::
                        var b := s.tables.backups[k];
                        r.tables.backups[k] == if b.scheduleId == canon(id) then b.(scheduleId := None) else b)
                  && id !in r.cron.ids
                  && (forall k | k != id :: k in r.cron.ids <==> k in s.cron.ids)
                  && (forall e | e in r.cron.entries :: e in s.cron.entries && r.cron.entries[e] == s.cron.entries[e])
                  && (forall e | e in s.cron.entries && e !in r.cron.entries ::
                        s.cron.entries[e].ScheduleJob? && s.cron.entries[e].sc.id == id))
  {
  }

  /** A job that has run leaves its time on the row and nothing else. */
  lemma JobRanLeaves(parses: Text -> bool, canon: Canon, s: Control, id: Text, at: int)
    requires id in s.tables.schedules
    ensures var (r, _) := Perform(parses, canon, s, JobRan(id, at));
            r.cron == s.cron && r.tables.backups == s.tables.backups
            && r.tables.schedules == s.tables.schedules[id := s.tables.schedules[id].(lastRun := Some(at))]
  {
  }

  /** Retention runs from the table exactly if its own expression parses, once for each start. */
  lemma RetentionScheduled(parses: Text -> bool)
    ensures var c := Started(parses).cron;
            if parses(Ascii("30 * * * * *")) then c.entries == map[1 := RetentionJob] else c.entries == map[]
  {
    assert Ascii("30 * * * * *") == RETENTION_SPEC;
  }

  // ---- agreement of cron with the store ----

  /** What a job uses of the schedule it captured. */
  predicate SameJob(row: Schedule, job: Schedule) {
    row.id == job.id && row.dbType == job.dbType && row.source == job.source
    && row.cronExpr == job.cronExpr && row.retentionDays == job.retentionDays
  }

  ghost predicate WellFormed(parses: Text -> bool, canon: Canon, s: Control) {
    Indexed(parses, s.cron) && Consistent(s.tables) && forall id | id in s.tables.schedules :: canon(id) == Some(id)
  }

  /** Every running job is a stored schedule's, field for field. */
  ghost predicate Agrees(s: Control) {
    forall id | id in s.cron.ids ::
      && s.cron.ids[id] in s.cron.entries && s.cron.entries[s.cron.ids[id]].ScheduleJob?
      && id in s.tables.schedules && SameJob(s.tables.schedules[id], s.cron.entries[s.cron.ids[id]].sc)
  }

  /** And every stored schedule with a cron expression that parses is running. */
  ghost predicate Complete(parses: Text -> bool, s: Control) {
    forall id | id in s.tables.schedules && parses(s.tables.schedules[id].cronExpr) :: id in s.cron.ids
  }

  /** Ids in the spelling that the database uses; new ids come from uuid.New, which uses it too. */
  predicate Canonical(canon: Canon, op: Op) {
    match op
    case Create(id, _, _, _, _) => canon(id) == Some(id)
    case Update(id, _, _, _) => canon(id) == None || canon(id) == Some(id)
    case Delete(id, _) => canon(id) == None || canon(id) == Some(id)
    case JobRan(_, _) => true
  }

  predicate NoFaults(op: Op) {
    match op
    case Create(_, _, _, addUp, getUp) => addUp && getUp
    case Update(_, _, getUp, updateUp) => getUp && updateUp
    case Delete(_, up) => up
    case JobRan(_, _) => true
  }

  ghost predicate Good(parses: Text -> bool, canon: Canon, s: Control) {
    WellFormed(parses, canon, s) && Agrees(s)
  }

  lemma JobAdded(parses: Text -> bool, canon: Canon, s: Control, sc: Schedule)
    requires Good(parses, canon, s) && sc.id in s.tables.schedules && SameJob(s.tables.schedules[sc.id], sc)
    ensures var cron := Add(parses, s.cron, sc).0;
            Good(parses, canon, s.(cron := cron)) && s.cron.ids.Keys <= cron.ids.Keys
            && (parses(sc.cronExpr) ==> sc.id in cron.ids)
  {
  }

  lemma JobRemoved(parses: Text -> bool, canon: Canon, s: Control, id: Text)
    requires Good(parses, canon, s)
    ensures Good(parses, canon, s.(cron := Remove(s.cron, id)))
    ensures Remove(s.cron, id).ids.Keys == s.cron.ids.Keys - {id}
  {
  }

  const NO_SCHEDULE := Schedule([], [], [], [], 0, 0, None)

  lemma RowAdded(parses: Text -> bool, canon: Canon, s: Control, sc: Schedule)
    requires Good(parses, canon, s) && canon(sc.id) == Some(sc.id) && InsertSchedule(s.tables, sc).Some?
    ensures Good(parses, canon, s.(tables := InsertSchedule(s.tables, sc).value))
  {
  }

  lemma RowReplaced(parses: Text -> bool, canon: Canon, s: Control, sc: Schedule)
    requires Good(parses, canon, s) && sc.id !in s.cron.ids
    ensures Good(parses, canon, s.(tables := ReplaceSchedule(s.tables, sc)))
  {
  }

  lemma RowDropped(parses: Text -> bool, canon: Canon, s: Control, id: Text)
    requires Good(parses, canon, s) && id !in s.cron.ids
    ensures Good(parses, canon, s.(tables := DropSchedule(s.tables, id)))
  {
  }

  lemma CreateKept(parses: Text -> bool, canon: Canon, s: Control, op: Op)
    requires op.Create? && Good(parses, canon, s) && Canonical(canon, op)
    ensures var r := CreateSpec(parses, canon, s, op).0;
            Good(parses, canon, r) && (Complete(parses, s) && NoFaults(op) ==> Complete(parses, r))
  {
    var sc := Fresh(op.id, op.req, op.now);
    if Acceptable(sc) && op.addUp && InsertSchedule(s.tables, sc).Some? {
      RowAdded(parses, canon, s, sc);
      if op.getUp { JobAdded(parses, canon, s.(tables := InsertSchedule(s.tables, sc).value), sc); }
    }
  }

  lemma UpdateKept(parses: Text -> bool, canon: Canon, s: Control, op: Op)
    requires op.Update? && Good(parses, canon, s) && Canonical(canon, op)
    ensures var r := UpdateSpec(parses, canon, s, op).0;
            Good(parses, canon, r) && (Complete(parses, s) && NoFaults(op) ==> Complete(parses, r))
  {
    if op.getUp && canon(op.id).Some? && op.id in s.tables.schedules {
      var sc := Merge(s.tables.schedules[op.id], op.req);
      JobRemoved(parses, canon, s, op.id);
      var s1 := s.(cron := Remove(s.cron, op.id));
      RowReplaced(parses, canon, s1, sc);
      JobAdded(parses, canon, s1.(tables := ReplaceSchedule(s1.tables, sc)), sc);
    }
  }

  lemma DeleteKept(parses: Text -> bool, canon: Canon, s: Control, op: Op)
    requires op.Delete? && Good(parses, canon, s) && Canonical(canon, op)
    ensures var r := DeleteSpec(canon, s, op).0;
            Good(parses, canon, r) && (Complete(parses, s) ==> Complete(parses, r))
  {
    if op.up && canon(op.id).Some? {
      JobRemoved(parses, canon, s, op.id);
      RowDropped(parses, canon, s.(cron := Remove(s.cron, op.id)), op.id);
    }
  }

  lemma JobRanKept(parses: Text -> bool, canon: Canon, s: Control, id: Text, at: int)
    requires Good(parses, canon, s)
    ensures var r := s.(tables := TouchSchedule(s.tables, id, at));
            Good(parses, canon, r) && (Complete(parses, s) ==> Complete(parses, r))
  {
  }

  function PerformAll(parses: Text -> bool, canon: Canon, s: Control, ops: seq<Op>): Control
    decreases |ops|
  {
    if ops == [] then s else PerformAll(parses, canon, Perform(parses, canon, s, ops[0]).0, ops[1..])
  }

  lemma {:induction false} RunKept(parses: Text -> bool, canon: Canon, s: Control, ops: seq<Op>)
    requires Good(parses, canon, s) && forall op | op in ops :: Canonical(canon, op)
    ensures Good(parses, canon, PerformAll(parses, canon, s, ops))
    ensures Complete(parses, s) && (forall op | op in ops :: NoFaults(op)) ==>
              Complete(parses, PerformAll(parses, canon, s, ops))
    decreases |ops|
  {
    if ops != [] {
      var op := ops[0];
      assert op in ops && forall o | o in ops[1..] :: o in ops;
      match op {
        case Create(_, _, _, _, _) => CreateKept(parses, canon, s, op);
        case Update(_, _, _, _) => UpdateKept(parses, canon, s, op);
        case Delete(_, _) => DeleteKept(parses, canon, s, op);
        case JobRan(id, at) => JobRanKept(parses, canon, s, id, at);
      }
      RunKept(parses, canon, Perform(parses, canon, s, op).0, ops[1..]);
    }
  }

  // ---- main results ----

  /** The controller over an empty store, after Start. */
  function Started(parses: Text -> bool): Control {
    Control(Tables(map[], map[]), AddRetention(parses, NO_JOBS))
  }

  /** Whatever store calls fail, every running job is a stored schedule's, field for field. */
  lemma JobsMatchStore(parses: Text -> bool, canon: Canon, ops: seq<Op>)
    requires forall op | op in ops :: Canonical(canon, op)
    ensures var r := PerformAll(parses, canon, Started(parses), ops); Indexed(parses, r.cron) && Agrees(r)
  {
    RunKept(parses, canon, Started(parses), ops);
  }

  /** Exactly which requests leave a parseable schedule without its job: a creation whose row cannot
      be read back, and an update whose row cannot be written after its job was removed. */
  lemma CompletenessLostExactly(parses: Text -> bool, canon: Canon, s: Control, op: Op)
    requires Good(parses, canon, s) && Complete(parses, s) && Canonical(canon, op)
    ensures Complete(parses, Perform(parses, canon, s, op).0) <==>
              match op
              case Create(id, req, now, addUp, getUp) =>
                getUp || !addUp || !Acceptable(Fresh(id, req, now)) || id in s.tables.schedules
                || !parses(Fresh(id, req, now).cronExpr)
              case Update(id, req, getUp, updateUp) =>
                updateUp || !getUp || id !in s.tables.schedules || !Acceptable(Merge(s.tables.schedules[id], req))
                || !parses(s.tables.schedules[id].cronExpr)
              case _ => true
  {
  }

  /** Where the job that an id has comes from. */
  ghost predicate From(c: Cron, id: Text, scs: seq<Schedule>, before: Cron)
    requires id in c.ids && c.ids[id] in c.entries && c.entries[c.ids[id]].ScheduleJob?
  {
    c.entries[c.ids[id]].sc in scs
    || (id in before.ids && before.ids[id] in before.entries && c.entries[c.ids[id]] == before.entries[before.ids[id]])
  }

  lemma AddedJob(parses: Text -> bool, c: Cron, sc: Schedule)
    requires Indexed(parses, c)
    ensures var r := Add(parses, c, sc).0;
            && Indexed(parses, r) && c.ids.Keys <= r.ids.Keys && (parses(sc.cronExpr) ==> sc.id in r.ids)
            && forall id | id in r.ids :: From(r, id, [sc], c)
  {
    IndexKept(parses, c, sc, []);
  }

  lemma {:induction false} LoadedJobs(parses: Text -> bool, c: Cron, scs: seq<Schedule>)
    requires Indexed(parses, c)
    ensures var r := AddAll(parses, c, scs);
            && Indexed(parses, r) && c.ids.Keys <= r.ids.Keys
            && (forall sc | sc in scs && parses(sc.cronExpr) :: sc.id in r.ids)
            && (forall id | id in r.ids :: From(r, id, scs, c))
    decreases |scs|
  {
    if scs != [] {
      AddedJob(parses, c, scs[0]);
      LoadedJobs(parses, Add(parses, c, scs[0]).0, scs[1..]);
      assert forall sc | sc in scs[1..] :: sc in scs;
    }
  }

  /** Two tables whose schedule entries run the same jobs. */
  ghost predicate SameJobs(parses: Text -> bool, c1: Cron, c2: Cron) {
    && Indexed(parses, c1) && Indexed(parses, c2) && c1.ids.Keys == c2.ids.Keys
    && forall id | id in c1.ids :: SameJob(c1.entries[c1.ids[id]].sc, c2.entries[c2.ids[id]].sc)
  }

  lemma ReloadMatches(parses: Text -> bool, canon: Canon, s: Control, scs: seq<Schedule>)
    requires Good(parses, canon, s) && Complete(parses, s) && Lists(scs, s.tables)
    ensures SameJobs(parses, AddAll(parses, NO_JOBS, scs), s.cron)
  {
    LoadedJobs(parses, NO_JOBS, scs);
    forall id | id in s.cron.ids
      ensures id in AddAll(parses, NO_JOBS, scs).ids
    {
      assert s.tables.schedules[id] in scs;
    }
  }

  /** Without store failures the schedules that run are exactly the stored ones that parse, and a
      controller that starts afresh from the store runs the same jobs. */
  lemma RestartIsInvisible(parses: Text -> bool, canon: Canon, ops: seq<Op>, scs: seq<Schedule>)
    requires forall op | op in ops :: Canonical(canon, op) && NoFaults(op)
    requires Lists(scs, PerformAll(parses, canon, Started(parses), ops).tables)
    ensures var r := PerformAll(parses, canon, Started(parses), ops);
            && (forall id :: id in r.cron.ids <==> id in r.tables.schedules && parses(r.tables.schedules[id].cronExpr))
            && SameJobs(parses, AddRetention(parses, AddAll(parses, NO_JOBS, scs)), r.cron)
  {
    RunKept(parses, canon, Started(parses), ops);
    ReloadMatches(parses, canon, PerformAll(parses, canon, Started(parses), ops), scs);
    IndexKept(parses, AddAll(parses, NO_JOBS, scs), NO_SCHEDULE, []);
  }

  lemma StaysConsistent(parses: Text -> bool, canon: Canon, s: Control, op: Op)
    requires Consistent(s.tables)
    ensures Consistent(Perform(parses, canon, s, op).0.tables)
  {
    match op
    case Delete(id, up) => if up && canon(id).Some? { DropConstraints(s.tables, canon(id).value); }
    case _ =>
  }

  lemma {:induction false} RunConsistent(parses: Text -> bool, canon: Canon, s: Control, ops: seq<Op>)
    requires Consistent(s.tables)
    ensures Consistent(PerformAll(parses, canon, s, ops).tables)
    decreases |ops|
  {
    if ops != [] {
      StaysConsistent(parses, canon, s, ops[0]);
      RunConsistent(parses, canon, Perform(parses, canon, s, ops[0]).0, ops[1..]);
    }
  }

  lemma LoadedAgrees(parses: Text -> bool, t: Tables, scs: seq<Schedule>)
    requires Consistent(t) && Lists(scs, t)
    ensures var s := Control(t, AddAll(parses, NO_JOBS, scs));
            Indexed(parses, s.cron) && Agrees(s) && Complete(parses, s)
  {
    LoadedJobs(parses, NO_JOBS, scs);
    forall id | id in t.schedules && parses(t.schedules[id].cronExpr)
      ensures id in AddAll(parses, NO_JOBS, scs).ids
    {
      assert t.schedules[id] in scs;
    }
  }

  lemma RetentionAside(parses: Text -> bool, t: Tables, c: Cron)
    requires Indexed(parses, c) && Agrees(Control(t, c)) && Complete(parses, Control(t, c))
    ensures var s := Control(t, AddRetention(parses, c));
            Indexed(parses, s.cron) && Agrees(s) && Complete(parses, s)
  {
    IndexKept(parses, c, NO_SCHEDULE, []);
  }

  /** A restart heals: whatever store calls failed and however ids were spelled, a controller that
      starts from the stored schedules runs exactly those that parse, field for field. */
  lemma RestartHeals(parses: Text -> bool, canon: Canon, ops: seq<Op>, scs: seq<Schedule>)
    requires Lists(scs, PerformAll(parses, canon, Started(parses), ops).tables)
    ensures var t := PerformAll(parses, canon, Started(parses), ops).tables;
            var s := Control(t, AddRetention(parses, AddAll(parses, NO_JOBS, scs)));
            Indexed(parses, s.cron) && Agrees(s) && Complete(parses, s)
  {
    var t := PerformAll(parses, canon, Started(parses), ops).tables;
    RunConsistent(parses, canon, Started(parses), ops);
    LoadedAgrees(parses, t, scs);
    RetentionAside(parses, t, AddAll(parses, NO_JOBS, scs));
  }

  /** What a request outside the canonical spelling does: the database finds the row, the map from
      ids does not find the job. An update then keeps the agreement exactly when no job was running
      or the edit changes nothing that the job uses. */
  lemma UpdateAgreesExactly(parses: Text -> bool, canon: Canon, s: Control, id: Text, req: Request, row: Text)
    requires Good(parses, canon, s) && canon(id) == Some(row) && row in s.tables.schedules
    requires Acceptable(Merge(s.tables.schedules[row], req))
    ensures Agrees(UpdateSpec(parses, canon, s, Update(id, req, true, true)).0)
       <==> id == row || row !in s.cron.ids || SameJob(Merge(s.tables.schedules[row], req), s.tables.schedules[row])
  {
    var op := Update(id, req, true, true);
    var sc := Merge(s.tables.schedules[row], req);
    if id == row {
      UpdateKept(parses, canon, s, op);
    } else {
      assert id !in s.cron.ids;
      if row !in s.cron.ids {
        RowReplaced(parses, canon, s, sc);
        JobAdded(parses, canon, s.(tables := ReplaceSchedule(s.tables, sc)), sc);
      } else {
        var r := UpdateSpec(parses, canon, s, op).0;
        assert r.cron == s.cron && r.tables.schedules[row] == Edited(s.tables.schedules[row], sc);
      }
    }
  }

  /** A deletion keeps the agreement exactly when the id is canonical or no job was running. */
  lemma DeleteAgreesExactly(parses: Text -> bool, canon: Canon, s: Control, id: Text, row: Text)
    requires Good(parses, canon, s) && canon(id) == Some(row)
    ensures Agrees(DeleteSpec(canon, s, Delete(id, true)).0) <==> id == row || row !in s.cron.ids
  {
  }

  /** Right after a creation the schedule is stored and its job runs. */
  lemma JustCreated(parses: Text -> bool, canon: Canon, row: Text, req: Request, now: int)
    requires canon(row) == Some(row) && Acceptable(Fresh(row, req, now)) && parses(Fresh(row, req, now).cronExpr)
    ensures var sc := Fresh(row, req, now);
            var s := Perform(parses, canon, Started(parses), Create(row, req, now, true, true)).0;
            && s.tables == Tables(map[], map[row := sc]) && s.cron.ids.Keys == {row}
            && s.cron.ids[row] in s.cron.entries && s.cron.entries[s.cron.ids[row]] == ScheduleJob(sc)
  {
  }

  lemma TwoOps(parses: Text -> bool, canon: Canon, s: Control, a: Op, b: Op)
    ensures PerformAll(parses, canon, s, [a, b]) == Perform(parses, canon, Perform(parses, canon, s, a).0, b).0
  {
    assert [a, b][1..] == [b];
    assert PerformAll(parses, canon, Perform(parses, canon, s, a).0, [b])
        == PerformAll(parses, canon, Perform(parses, canon, Perform(parses, canon, s, a).0, b).0, [b][1..]);
  }

  /** A run that shows it, for every schedule that can be stored and every other spelling of its id:
      after a deletion under that spelling the row is gone and the job still runs. */
  lemma SpelledOtherwise(parses: Text -> bool, canon: Canon, row: Text, id: Text, req: Request, now: int)
    requires canon(row) == canon(id) == Some(row) && id != row
    requires Acceptable(Fresh(row, req, now)) && parses(Fresh(row, req, now).cronExpr)
    ensures var r := PerformAll(parses, canon, Started(parses), [Create(row, req, now, true, true), Delete(id, true)]);
            && r.tables.schedules == map[] && row in r.cron.ids
            && r.cron.ids[row] in r.cron.entries && r.cron.entries[r.cron.ids[row]] == ScheduleJob(Fresh(row, req, now))
  {
    JustCreated(parses, canon, row, req, now);
    TwoOps(parses, canon, Started(parses), Create(row, req, now, true, true), Delete(id, true));
  }

  /** And after an update under that spelling the row has the new fields and the job the old ones. */
  lemma UpdatedOtherwise(parses: Text -> bool, canon: Canon, row: Text, id: Text, req: Request, now: int, edit: Request)
    requires canon(row) == canon(id) == Some(row) && id != row
    requires Acceptable(Fresh(row, req, now)) && parses(Fresh(row, req, now).cronExpr)
    requires Acceptable(Merge(Fresh(row, req, now), edit))
    ensures var sc, edited := Fresh(row, req, now), Merge(Fresh(row, req, now), edit);
            var ops := [Create(row, req, now, true, true), Update(id, edit, true, true)];
            var r := PerformAll(parses, canon, Started(parses), ops);
            && r.tables.schedules == map[row := edited] && row in r.cron.ids
            && r.cron.ids[row] in r.cron.entries && r.cron.entries[r.cron.ids[row]] == ScheduleJob(sc)
            && (Agrees(r) <==> SameJob(edited, sc))
  {
    JustCreated(parses, canon, row, req, now);
    TwoOps(parses, canon, Started(parses), Create(row, req, now, true, true), Update(id, edit, true, true));
  }
}
