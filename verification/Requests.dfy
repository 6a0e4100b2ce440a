/** API deletions and retention passes as programs of store and storage calls. Any number of them
    interleave with backups and schedule edits, and any call may fail. */
module Requests {
  import opened GoText
  import opened Metadata
  import opened Adapters
  import opened DumpPipe
  import opened Lifecycle
  import opened Backup
  import Retention
  import Operations

  /** A backup row that a request has read and will remove, with the job that it came from as history. */
  datatype Victim = Victim(row: Metadata.Backup, job: Job)

  /** Where a request stands, by the call that it makes next. */
  datatype Worker =
    | Wanted(id: Text)                                                           // DELETE: GetBackup
    | Doomed(v: Victim)                                                          // DELETE: adapter.Delete
    | Halfway(v: Victim)                                                         // DELETE: DeleteBackup
    | Starting                                                                   // pass: ListSchedules
    | Sweeping(schedules: seq<Schedule>, victims: seq<Victim>)                   // pass: a listing or adapter.Delete
    | SweepHalfway(schedules: seq<Schedule>, v: Victim, victims: seq<Victim>)    // pass: DeleteBackup of `v`
    | Finished

  /** The lifecycle's system, the requests at work, and the ids whose row a request could not delete. */
  datatype Site = Site(s: System, workers: map<nat, Worker>, stuck: set<Text>)

  /** `up` says whether the call is answered; `schedules` and `rows` are what a listing returns. */
  datatype Move =
    | Other(t: Step)
    | Arrive(n: nat, w: Worker)
    | Go(n: nat, up: bool, now: int, schedules: seq<Schedule>, rows: seq<Text>)

  ghost predicate ListsOf(rows: seq<Text>, t: Tables, sc: Schedule) {
    forall id :: id in rows <==> id in t.backups && t.backups[id].scheduleId == Some(sc.id)
  }

  ghost predicate CanMove(jobs: set<Job>, x: Site, m: Move) {
    match m
    case Other(t) => Enabled(x.s, jobs, t) && !t.DeleteObject? && !t.DeleteRow?
    case Arrive(n, w) => n !in x.workers && (w.Wanted? || w.Starting?)
    case Go(n, _, _, schedules, rows) =>
      n in x.workers
      && (x.workers[n].Starting? ==> Lists(schedules, x.s.tables))
      && (x.workers[n].Sweeping? && x.workers[n].victims == [] && x.workers[n].schedules != [] ==>
            ListsOf(rows, x.s.tables, x.workers[n].schedules[0]))
  }

  const NO_JOB := Job([], [], None, 0, [], None)

  function VictimOf(s: System, id: Text): Victim
    requires id in s.tables.backups
  {
    Victim(s.tables.backups[id], if id in s.rows then s.rows[id] else NO_JOB)
  }

  /** The listed rows that finished before the cutoff. */
  function OldVictims(s: System, rows: seq<Text>, cutoff: int): seq<Victim> {
    if rows == [] then []
    else
      (if rows[0] in s.tables.backups && s.tables.backups[rows[0]].finishedAt < cutoff
       then [VictimOf(s, rows[0])] else [])
      + OldVictims(s, rows[1..], cutoff)
  }

  function ObjectGone(d: Storage, s: System, v: Victim): System {
    s.(objects := s.objects - {d.delete(v.row.path)}, deleted := s.deleted + {v.job})
  }

  function RowGone(s: System, v: Victim): System {
    s.(tables := DropBackup(s.tables, v.row.id))
  }

  /** The next call of one request: the new system, where the request stands then, and the id that is
      stuck if its row could not be deleted. */
  function Advance(d: Storage, canon: Canon, s: System, w: Worker, m: Move): (System, Worker, set<Text>)
    requires m.Go?
  {
    match w
    case Wanted(id) =>
      (match canon(id)
       case Some(k) => if m.up && k in s.tables.backups then (s, Doomed(VictimOf(s, k)), {}) else (s, Finished, {})
       case None => (s, Finished, {}))
    case Doomed(v) =>
      if !m.up || (d.missingIsError && d.delete(v.row.path) !in s.objects) then (s, Finished, {})
      else (ObjectGone(d, s, v), Halfway(v), {})
    case Halfway(v) => if m.up then (RowGone(s, v), Finished, {}) else (s, Finished, {v.row.id})
    case Starting => if m.up then (s, Sweeping(m.schedules, []), {}) else (s, Finished, {})
    case Sweeping(scs, vs) =>
      if vs != [] then (if m.up then ObjectGone(d, s, vs[0]) else s, SweepHalfway(scs, vs[0], vs[1..]), {})
      else if scs == [] then (s, Finished, {})
      else if scs[0].retentionDays <= 0 || !m.up then (s, Sweeping(scs[1..], []), {})
      else (s, Sweeping(scs[1..], OldVictims(s, m.rows, Retention.Cutoff(m.now, scs[0].retentionDays))), {})
    case SweepHalfway(scs, v, vs) =>
      (if m.up then RowGone(s, v) else s, Sweeping(scs, vs), if m.up then {} else {v.row.id})
    case Finished => (s, Finished, {})
  }

  function Moved(d: Storage, c: Codec, canon: Canon, x: Site, m: Move): Site
    requires m.Go? ==> m.n in x.workers
  {
    match m
    case Other(t) => x.(s := Apply(KeysOf(d), c, x.s, t))
    case Arrive(n, w) => x.(workers := x.workers[n := w])
    case Go(n, _, _, _, _) =>
      var (s, w, stuck) := Advance(d, canon, x.s, x.workers[n], m);
      Site(s, x.workers[n := w], x.stuck + stuck)
  }

  ghost predicate Interleaved(d: Storage, c: Codec, canon: Canon, jobs: set<Job>, x: Site, moves: seq<Move>, r: Site)
    decreases |moves|
  {
    if moves == [] then x == r
    else CanMove(jobs, x, moves[0]) && Interleaved(d, c, canon, jobs, Moved(d, c, canon, x, moves[0]), moves[1..], r)
  }

  // ---- what the requests know ----

  function Held(w: Worker): seq<Victim> {
    match w
    case Doomed(v) => [v]
    case Halfway(v) => [v]
    case Sweeping(_, vs) => vs
    case SweepHalfway(_, v, vs) => [v] + vs
    case _ => []
  }

  /** A pass between its first listing and its end. */
  predicate AtWork(w: Worker) { w.Sweeping? || w.SweepHalfway? }

  /** The request has deleted the object of this row and not yet the row. */
  predicate Between(w: Worker, id: Text) {
    (w.Halfway? || w.SweepHalfway?) && w.v.row.id == id
  }

  /** A row that was read is its job's only row, if it is still there. */
  ghost predicate VictimOk(keys: Keys, s: System, v: Victim) {
    v.job in s.inserted && v.row.path == keys.location(v.job)
    && forall k | k in s.tables.backups && k in s.rows && s.rows[k] == v.job :: k == v.row.id
  }

  ghost predicate HeldOk(keys: Keys, s: System, w: Worker) {
    forall v | v in Held(w) :: VictimOk(keys, s, v)
  }

  ghost predicate SomeoneBetween(workers: map<nat, Worker>, id: Text) {
    exists n :: n in workers && Between(workers[n], id)
  }

  /** A row without its object has a request between its two calls, or is stuck. */
  ghost predicate Covered(s: System, workers: map<nat, Worker>, stuck: set<Text>) {
    forall k | k in s.tables.backups && k in s.rows && s.rows[k] in s.deleted ::
      k in stuck || SomeoneBetween(workers, k)
  }

  ghost predicate SiteInv(keys: Keys, c: Codec, jobs: set<Job>, x: Site) {
    && Inv(keys, c, jobs, x.s)
    && (forall n | n in x.workers :: HeldOk(keys, x.s, x.workers[n]))
    && Covered(x.s, x.workers, x.stuck)
  }

  /** No row is new except for jobs that had none, and none of those without a row gets one. */
  ghost predicate OnlyNewJobs(s: System, r: System) {
    && s.inserted <= r.inserted
    && forall k | k in r.tables.backups && k in r.rows ::
         (k in s.tables.backups && k in s.rows && r.rows[k] == s.rows[k]) || r.rows[k] !in s.inserted
  }

  lemma HeldLater(keys: Keys, s: System, r: System, w: Worker)
    requires HeldOk(keys, s, w) && OnlyNewJobs(s, r)
    ensures HeldOk(keys, r, w)
  {
  }

  lemma OtherAdds(keys: Keys, c: Codec, jobs: set<Job>, s: System, t: Step)
    requires Apart(keys, jobs) && Inv(keys, c, jobs, s)
    requires Enabled(s, jobs, t) && !t.DeleteObject? && !t.DeleteRow?
    ensures var r := Apply(keys, c, s, t); OnlyNewJobs(s, r) && r.deleted == s.deleted
  {
  }

  lemma OtherKept(keys: Keys, c: Codec, jobs: set<Job>, x: Site, t: Step)
    requires Apart(keys, jobs) && SiteInv(keys, c, jobs, x)
    requires Enabled(x.s, jobs, t) && !t.DeleteObject? && !t.DeleteRow?
    ensures SiteInv(keys, c, jobs, x.(s := Apply(keys, c, x.s, t)))
  {
    var r := Apply(keys, c, x.s, t);
    StepKept(keys, c, jobs, x.s, t);
    OtherAdds(keys, c, jobs, x.s, t);
    forall n | n in x.workers ensures HeldOk(keys, r, x.workers[n]) { HeldLater(keys, x.s, r, x.workers[n]); }
  }

  lemma ReadOk(keys: Keys, c: Codec, jobs: set<Job>, s: System, id: Text)
    requires Inv(keys, c, jobs, s) && id in s.tables.backups
    ensures VictimOk(keys, s, VictimOf(s, id))
  {
  }

  lemma {:induction false} OldVictimsOk(keys: Keys, c: Codec, jobs: set<Job>, s: System, rows: seq<Text>, cutoff: int)
    requires Inv(keys, c, jobs, s)
    ensures forall v | v in OldVictims(s, rows, cutoff) :: VictimOk(keys, s, v)
  {
    if rows != [] {
      OldVictimsOk(keys, c, jobs, s, rows[1..], cutoff);
      if rows[0] in s.tables.backups { ReadOk(keys, c, jobs, s, rows[0]); }
    }
  }

  lemma ObjectGoneKept(d: Storage, c: Codec, jobs: set<Job>, s: System, v: Victim)
    requires Apart(KeysOf(d), jobs) && Inv(KeysOf(d), c, jobs, s) && VictimOk(KeysOf(d), s, v)
    ensures Inv(KeysOf(d), c, jobs, ObjectGone(d, s, v)) && OnlyNewJobs(s, ObjectGone(d, s, v))
    ensures ObjectGone(d, s, v).tables == s.tables && ObjectGone(d, s, v).rows == s.rows
    ensures forall k | k in s.tables.backups && s.rows[k] in ObjectGone(d, s, v).deleted ::
              s.rows[k] in s.deleted || k == v.row.id
  {
  }

  lemma RowGoneKept(keys: Keys, c: Codec, jobs: set<Job>, s: System, v: Victim)
    requires Apart(keys, jobs) && Inv(keys, c, jobs, s)
    ensures Inv(keys, c, jobs, RowGone(s, v)) && OnlyNewJobs(s, RowGone(s, v))
  {
  }

  /** What one call of one request does to what is known. */
  ghost predicate CallKept(keys: Keys, c: Codec, jobs: set<Job>, s: System, w: Worker, r: System, w': Worker,
                           stuck: set<Text>)
  {
    && Inv(keys, c, jobs, r) && OnlyNewJobs(s, r) && HeldOk(keys, r, w') && r.rows == s.rows
    && r.tables.backups.Keys <= s.tables.backups.Keys
    && (forall k | k in r.tables.backups && s.rows[k] in r.deleted :: s.rows[k] in s.deleted || Between(w', k))
    && (forall k | k in r.tables.backups && Between(w, k) :: k in stuck)
  }

  lemma ReadKept(keys: Keys, c: Codec, jobs: set<Job>, s: System, w: Worker, w': Worker)
    requires Inv(keys, c, jobs, s) && HeldOk(keys, s, w') && !w.Halfway? && !w.SweepHalfway?
    ensures CallKept(keys, c, jobs, s, w, s, w', {})
  {
  }

  lemma ObjectCallKept(d: Storage, c: Codec, jobs: set<Job>, s: System, w: Worker, v: Victim, w': Worker)
    requires Apart(KeysOf(d), jobs) && Inv(KeysOf(d), c, jobs, s) && VictimOk(KeysOf(d), s, v)
    requires HeldOk(KeysOf(d), s, w') && !w.Halfway? && !w.SweepHalfway? && Between(w', v.row.id)
    ensures CallKept(KeysOf(d), c, jobs, s, w, ObjectGone(d, s, v), w', {})
  {
    ObjectGoneKept(d, c, jobs, s, v);
    HeldLater(KeysOf(d), s, ObjectGone(d, s, v), w');
  }

  lemma RowCallKept(keys: Keys, c: Codec, jobs: set<Job>, s: System, w: Worker, v: Victim, w': Worker, up: bool)
    requires Apart(keys, jobs) && Inv(keys, c, jobs, s) && HeldOk(keys, s, w')
    requires forall k :: Between(w, k) ==> k == v.row.id
    ensures CallKept(keys, c, jobs, s, w, if up then RowGone(s, v) else s, w', if up then {} else {v.row.id})
  {
    RowGoneKept(keys, c, jobs, s, v);
    HeldLater(keys, s, RowGone(s, v), w');
  }

  lemma DeleteCallKept(d: Storage, c: Codec, canon: Canon, jobs: set<Job>, s: System, w: Worker, m: Move)
    requires Apart(KeysOf(d), jobs) && Inv(KeysOf(d), c, jobs, s) && HeldOk(KeysOf(d), s, w) && m.Go?
    requires w.Wanted? || w.Doomed? || w.Halfway?
    ensures var (r, w', stuck) := Advance(d, canon, s, w, m); CallKept(KeysOf(d), c, jobs, s, w, r, w', stuck)
  {
    var (r, w', stuck) := Advance(d, canon, s, w, m);
    match w
    case Wanted(id) =>
      if canon(id).Some? && canon(id).value in s.tables.backups { ReadOk(KeysOf(d), c, jobs, s, canon(id).value); }
      ReadKept(KeysOf(d), c, jobs, s, w, w');
    case Doomed(v) =>
      assert v in Held(w);
      if w'.Halfway? { ObjectCallKept(d, c, jobs, s, w, v, w'); } else { ReadKept(KeysOf(d), c, jobs, s, w, w'); }
    case Halfway(v) => RowCallKept(KeysOf(d), c, jobs, s, w, v, w', m.up);
  }

  lemma SweepCallKept(d: Storage, c: Codec, canon: Canon, jobs: set<Job>, s: System, w: Worker, m: Move)
    requires Apart(KeysOf(d), jobs) && Inv(KeysOf(d), c, jobs, s) && HeldOk(KeysOf(d), s, w) && m.Go?
    requires w.Sweeping? || w.SweepHalfway?
    ensures var (r, w', stuck) := Advance(d, canon, s, w, m); CallKept(KeysOf(d), c, jobs, s, w, r, w', stuck)
  {
    var (r, w', stuck) := Advance(d, canon, s, w, m);
    match w
    case Sweeping(scs, vs) =>
      if vs != [] && m.up {
        assert vs[0] in Held(w);
        ObjectCallKept(d, c, jobs, s, w, vs[0], w');
      } else {
        if scs != [] { OldVictimsOk(KeysOf(d), c, jobs, s, m.rows, Retention.Cutoff(m.now, scs[0].retentionDays)); }
        ReadKept(KeysOf(d), c, jobs, s, w, w');
      }
    case SweepHalfway(_, v, _) => RowCallKept(KeysOf(d), c, jobs, s, w, v, w', m.up);
  }

  lemma AnyCallKept(d: Storage, c: Codec, canon: Canon, jobs: set<Job>, s: System, w: Worker, m: Move)
    requires Apart(KeysOf(d), jobs) && Inv(KeysOf(d), c, jobs, s) && HeldOk(KeysOf(d), s, w) && m.Go?
    ensures var (r, w', stuck) := Advance(d, canon, s, w, m); CallKept(KeysOf(d), c, jobs, s, w, r, w', stuck)
  {
    if w.Wanted? || w.Doomed? || w.Halfway? {
      DeleteCallKept(d, c, canon, jobs, s, w, m);
    } else if w.Sweeping? || w.SweepHalfway? {
      SweepCallKept(d, c, canon, jobs, s, w, m);
    } else {
      ReadKept(KeysOf(d), c, jobs, s, w, Advance(d, canon, s, w, m).1);
    }
  }

  lemma GoKept(d: Storage, c: Codec, canon: Canon, jobs: set<Job>, x: Site, m: Move)
    requires Apart(KeysOf(d), jobs) && SiteInv(KeysOf(d), c, jobs, x) && m.Go? && m.n in x.workers
    ensures SiteInv(KeysOf(d), c, jobs, Moved(d, c, canon, x, m))
  {
    var (r, w', stuck) := Advance(d, canon, x.s, x.workers[m.n], m);
    AnyCallKept(d, c, canon, jobs, x.s, x.workers[m.n], m);
    CallCovers(KeysOf(d), c, jobs, x, m.n, r, w', stuck);
  }

  lemma CallCovers(keys: Keys, c: Codec, jobs: set<Job>, x: Site, n: nat, r: System, w': Worker, stuck: set<Text>)
    requires SiteInv(keys, c, jobs, x) && n in x.workers && CallKept(keys, c, jobs, x.s, x.workers[n], r, w', stuck)
    ensures SiteInv(keys, c, jobs, Site(r, x.workers[n := w'], x.stuck + stuck))
  {
    var workers := x.workers[n := w'];
    forall i | i in workers ensures HeldOk(keys, r, workers[i]) {
      if i != n { HeldLater(keys, x.s, r, x.workers[i]); }
    }
    forall k | k in r.tables.backups && k in r.rows && r.rows[k] in r.deleted
      ensures k in x.stuck + stuck || SomeoneBetween(workers, k)
    {
      if Between(w', k) {
        assert workers[n] == w';
      } else if k !in x.stuck {
        var i :| i in x.workers && Between(x.workers[i], k);
        assert i != n ==> workers[i] == x.workers[i];
      }
    }
  }

  lemma MoveKept(d: Storage, c: Codec, canon: Canon, jobs: set<Job>, x: Site, m: Move)
    requires Apart(KeysOf(d), jobs) && SiteInv(KeysOf(d), c, jobs, x) && CanMove(jobs, x, m)
    ensures SiteInv(KeysOf(d), c, jobs, Moved(d, c, canon, x, m))
  {
    match m
    case Other(t) => OtherKept(KeysOf(d), c, jobs, x, t);
    case Go(_, _, _, _, _) => GoKept(d, c, canon, jobs, x, m);
    case Arrive(n, w) =>
      forall k | SomeoneBetween(x.workers, k) ensures SomeoneBetween(x.workers[n := w], k) {
        var i :| i in x.workers && Between(x.workers[i], k);
        assert x.workers[n := w][i] == x.workers[i];
      }
  }

  lemma {:induction false} RunKept(d: Storage, c: Codec, canon: Canon, jobs: set<Job>, x: Site, moves: seq<Move>,
                                   r: Site)
    requires Apart(KeysOf(d), jobs) && SiteInv(KeysOf(d), c, jobs, x) && Interleaved(d, c, canon, jobs, x, moves, r)
    ensures SiteInv(KeysOf(d), c, jobs, r)
    decreases |moves|
  {
    if moves != [] {
      MoveKept(d, c, canon, jobs, x, moves[0]);
      RunKept(d, c, canon, jobs, Moved(d, c, canon, x, moves[0]), moves[1..], r);
    }
  }

  // ---- the tables stay consistent, whatever keys are used ----

  lemma ConsistentKept(d: Storage, c: Codec, canon: Canon, jobs: set<Job>, x: Site, m: Move)
    requires Consistent(x.s.tables) && CanMove(jobs, x, m)
    ensures Consistent(Moved(d, c, canon, x, m).s.tables)
  {
    match m
    case Other(t) => ConsistentStep(KeysOf(d), c, x.s, t);
    case Arrive(_, _) =>
    case Go(n, _, _, _, _) => ConsistentCall(d, canon, x.s, x.workers[n], m);
  }

  lemma ConsistentCall(d: Storage, canon: Canon, s: System, w: Worker, m: Move)
    requires Consistent(s.tables) && m.Go?
    ensures Consistent(Advance(d, canon, s, w, m).0.tables)
  {
  }

  lemma {:induction false} ConsistentRun(d: Storage, c: Codec, canon: Canon, jobs: set<Job>, x: Site, moves: seq<Move>,
                                         r: Site)
    requires Consistent(x.s.tables) && Interleaved(d, c, canon, jobs, x, moves, r)
    ensures Consistent(r.s.tables)
    decreases |moves|
  {
    if moves != [] {
      ConsistentKept(d, c, canon, jobs, x, moves[0]);
      ConsistentRun(d, c, canon, jobs, Moved(d, c, canon, x, moves[0]), moves[1..], r);
    }
  }

  const IDLE := Site(EMPTY, map[], {})

  lemma Reached(d: Storage, c: Codec, canon: Canon, jobs: set<Job>, moves: seq<Move>, r: Site)
    requires Apart(KeysOf(d), jobs) && Interleaved(d, c, canon, jobs, IDLE, moves, r)
    ensures SiteInv(KeysOf(d), c, jobs, r)
  {
    RunKept(d, c, canon, jobs, IDLE, moves, r);
  }

  // ---- every row restores or is on its way out ----

  /** At any point of any interleaving of requests and of jobs with keys of their own, whatever calls
      have failed: a row came from an error-free job of its own, and it restores to that job's whole dump
      exactly if no request has deleted its object. Where one has, a request is about to delete the row
      as well, or could not. */
  lemma RowsRestore(d: Storage, c: Codec, canon: Canon, jobs: set<Job>, moves: seq<Move>, r: Site, id: Text)
    returns (j: Job)
    requires Lawful(c) && Suited(d, jobs) && Interleaved(d, c, canon, jobs, IDLE, moves, r)
    requires id in r.s.tables.backups && canon(id) == Some(id)
    ensures j in jobs && j.dumpErr == None && RowMatches(KeysOf(d), j, r.s.tables.backups[id])
    ensures RestoreOutcome(d, c, canon, StoresOf(r), id) == Some(Flatten(j.chunks)) <==> j !in r.s.deleted
    ensures j in r.s.deleted ==> id in r.stuck || SomeoneBetween(r.workers, id)
  {
    Reached(d, c, canon, jobs, moves, r);
    j := r.s.rows[id];
    RestoresExactly(d, c, canon, jobs, r.s, j, id);
  }

  lemma RestoresExactly(d: Storage, c: Codec, canon: Canon, jobs: set<Job>, s: System, j: Job, id: Text)
    requires Lawful(c) && Inv(KeysOf(d), c, jobs, s)
    requires id in s.tables.backups && j == s.rows[id] && canon(id) == Some(id)
    requires d.open(d.location(Object(j))) == Some(d.save(Object(j)))
    ensures RestoreOutcome(d, c, canon, Stores(s.objects, s.tables), id) == Some(Flatten(j.chunks)) <==> j !in s.deleted
  {
    assert s.tables.backups[id].path == d.location(Object(j)) && KeysOf(d).save(j) == d.save(Object(j));
    if j !in s.deleted { Operations.OpenedRow(d, c, canon, Stores(s.objects, s.tables), j, id); }
  }

  // ---- a request alone is the handler that runs alone ----

  lemma RunsOn(d: Storage, c: Codec, canon: Canon, jobs: set<Job>, x: Site, m: Move, moves: seq<Move>, r: Site)
    requires CanMove(jobs, x, m) && Interleaved(d, c, canon, jobs, Moved(d, c, canon, x, m), moves, r)
    ensures Interleaved(d, c, canon, jobs, x, [m] + moves, r)
  {
  }

  function StoresOf(x: Site): Stores { Stores(x.s.objects, x.s.tables) }

  lemma FourMoves(d: Storage, c: Codec, canon: Canon, jobs: set<Job>, x: Site, m: seq<Move>,
                  x1: Site, x2: Site, x3: Site, r: Site)
    requires |m| == 4
    requires CanMove(jobs, x, m[0]) && x1 == Moved(d, c, canon, x, m[0])
    requires CanMove(jobs, x1, m[1]) && x2 == Moved(d, c, canon, x1, m[1])
    requires CanMove(jobs, x2, m[2]) && x3 == Moved(d, c, canon, x2, m[2])
    requires CanMove(jobs, x3, m[3]) && r == Moved(d, c, canon, x3, m[3])
    ensures Interleaved(d, c, canon, jobs, x, m, r)
  {
    RunsOn(d, c, canon, jobs, x3, m[3], [], r);
    RunsOn(d, c, canon, jobs, x2, m[2], [m[3]] + [], r);
    RunsOn(d, c, canon, jobs, x1, m[1], [m[2]] + ([m[3]] + []), r);
    RunsOn(d, c, canon, jobs, x, m[0], [m[1]] + ([m[2]] + ([m[3]] + [])), r);
    assert [m[0]] + ([m[1]] + ([m[2]] + ([m[3]] + []))) == m;
  }

  function DeleteMoves(n: nat, id: Text, diskUp: bool, rowUp: bool): seq<Move> {
    [Arrive(n, Wanted(id)), Go(n, true, 0, [], []), Go(n, diskUp, 0, [], []), Go(n, rowUp, 0, [], [])]
  }

  lemma DeleteCalls(d: Storage, canon: Canon, s: System, n: nat, id: Text, diskUp: bool, rowUp: bool)
    requires Consistent(s.tables)
    ensures var m := DeleteMoves(n, id, diskUp, rowUp);
            var (s1, w1, _) := Advance(d, canon, s, Wanted(id), m[1]);
            var (s2, w2, _) := Advance(d, canon, s1, w1, m[2]);
            var (s3, w3, _) := Advance(d, canon, s2, w2, m[3]);
            w3 == Finished && !w1.Starting? && !w1.Sweeping? && !w2.Starting? && !w2.Sweeping?
            && Stores(s3.objects, s3.tables)
               == DeleteOutcome(d, canon, Stores(s.objects, s.tables), id, diskUp, rowUp).0
  {
  }

  /** A DELETE with nobody in between does what the handler's contract says, for each failing call. */
  lemma DeleteAlone(d: Storage, c: Codec, canon: Canon, jobs: set<Job>, x: Site, n: nat, id: Text,
                    diskUp: bool, rowUp: bool)
    returns (r: Site)
    requires Consistent(x.s.tables) && n !in x.workers
    ensures Interleaved(d, c, canon, jobs, x, DeleteMoves(n, id, diskUp, rowUp), r)
    ensures StoresOf(r) == DeleteOutcome(d, canon, StoresOf(x), id, diskUp, rowUp).0
    ensures r.workers == x.workers[n := Finished]
  {
    var m := DeleteMoves(n, id, diskUp, rowUp);
    DeleteCalls(d, canon, x.s, n, id, diskUp, rowUp);
    var x1 := Site(x.s, x.workers[n := Wanted(id)], x.stuck);
    var (s1, w1, k1) := Advance(d, canon, x.s, Wanted(id), m[1]);
    var x2 := Site(s1, x.workers[n := w1], x.stuck + k1);
    var (s2, w2, k2) := Advance(d, canon, s1, w1, m[2]);
    var x3 := Site(s2, x.workers[n := w2], x.stuck + k1 + k2);
    var (s3, w3, k3) := Advance(d, canon, s2, w2, m[3]);
    r := Site(s3, x.workers[n := w3], x.stuck + k1 + k2 + k3);
    assert x1.workers[n := w1] == x2.workers && x2.workers[n := w2] == x3.workers && x3.workers[n := w3] == r.workers;
    FourMoves(d, c, canon, jobs, x, m, x1, x2, x3, r);
  }

  lemma {:induction false} RunsThen(d: Storage, c: Codec, canon: Canon, jobs: set<Job>, x: Site, a: seq<Move>, y: Site,
                                    b: seq<Move>, r: Site)
    requires Interleaved(d, c, canon, jobs, x, a, y) && Interleaved(d, c, canon, jobs, y, b, r)
    ensures Interleaved(d, c, canon, jobs, x, a + b, r)
    decreases |a|
  {
    if a == [] {
      assert a + b == b;
    } else {
      RunsThen(d, c, canon, jobs, Moved(d, c, canon, x, a[0]), a[1..], y, b, r);
      RunsOn(d, c, canon, jobs, x, a[0], a[1..] + b, r);
      assert [a[0]] + (a[1..] + b) == a + b;
    }
  }

  ghost function RowsIn(vs: seq<Victim>): set<Text> { set v | v in vs :: v.row.id }

  /** The keys that go where the storage answers. */
  ghost function PathsIn(d: Storage, vs: seq<Victim>, f: Retention.Faults): set<Text> {
    set v | v in vs && v.row.id !in f.objects :: d.delete(v.row.path)
  }

  /** Whether the next call of a pass is answered: the listings, objects and rows of `f` are not. */
  predicate Answered(w: Worker, f: Retention.Faults, listing: bool) {
    match w
    case Starting => listing
    case Sweeping(scs, vs) => if vs != [] then vs[0].row.id !in f.objects else scs == [] || scs[0].id !in f.listings
    case SweepHalfway(_, v, _) => v.row.id !in f.rows
    case _ => true
  }

  predicate ReadsClock(w: Worker) { w.Sweeping? && w.victims == [] && w.schedules != [] }

  /** One pass, `n`, with its readings of the clock and the calls of it that fail. */
  datatype Setting = Setting(
    d: Storage, c: Codec, canon: Canon, jobs: set<Job>, n: nat,
    clock: Retention.Clock, f: Retention.Faults, listing: bool)

  ghost predicate Fits(e: Setting, x: Site, m: Move) {
    && m.Go? && m.n == e.n && CanMove(e.jobs, x, m) && m.up == Answered(x.workers[e.n], e.f, e.listing)
    && (ReadsClock(x.workers[e.n]) ==> m.now == e.clock(x.workers[e.n].schedules[0].id))
  }

  /** The pass makes its calls with nobody in between, and exactly those fail. */
  ghost predicate Solo(e: Setting, x: Site, moves: seq<Move>, r: Site)
    decreases |moves|
  {
    if moves == [] then x == r
    else
      var m := moves[0];
      Fits(e, x, m) && Solo(e, Moved(e.d, e.c, e.canon, x, m), moves[1..], r)
  }

  lemma {:induction false} SoloRuns(e: Setting, x: Site, moves: seq<Move>, r: Site)
    requires Solo(e, x, moves, r)
    ensures Interleaved(e.d, e.c, e.canon, e.jobs, x, moves, r) && forall m | m in moves :: m.Go?
    decreases |moves|
  {
    if moves != [] {
      SoloRuns(e, Moved(e.d, e.c, e.canon, x, moves[0]), moves[1..], r);
      assert moves == [moves[0]] + moves[1..];
    }
  }

  lemma SoloOn(e: Setting, x: Site, m: Move, moves: seq<Move>, r: Site)
    requires Fits(e, x, m) && Solo(e, Moved(e.d, e.c, e.canon, x, m), moves, r)
    ensures Solo(e, x, [m] + moves, r)
  {
    assert ([m] + moves)[1..] == moves;
  }

  lemma {:induction false} SoloThen(e: Setting, x: Site, a: seq<Move>, y: Site, b: seq<Move>, r: Site)
    requires Solo(e, x, a, y) && Solo(e, y, b, r)
    ensures Solo(e, x, a + b, r)
    decreases |a|
  {
    if a == [] {
      assert a + b == b;
    } else {
      SoloThen(e, Moved(e.d, e.c, e.canon, x, a[0]), a[1..], y, b, r);
      SoloOn(e, x, a[0], a[1..] + b, r);
      assert [a[0]] + (a[1..] + b) == a + b;
    }
  }

  /** Both calls for one row. A failing object deletion does not keep the row. */
  lemma VictimAlone(e: Setting, x: Site, scs: seq<Schedule>, vs: seq<Victim>)
    returns (moves: seq<Move>, r: Site)
    requires e.n in x.workers && x.workers[e.n] == Sweeping(scs, vs) && vs != []
    ensures Solo(e, x, moves, r)
    ensures r.workers == x.workers[e.n := Sweeping(scs, vs[1..])]
    ensures StoresOf(r) == Stores(x.s.objects - PathsIn(e.d, [vs[0]], e.f),
                                  x.s.tables.(backups := x.s.tables.backups - ({vs[0].row.id} - e.f.rows)))
  {
    var id := vs[0].row.id;
    var m1, m2 := Go(e.n, id !in e.f.objects, 0, [], []), Go(e.n, id !in e.f.rows, 0, [], []);
    var x1 := Moved(e.d, e.c, e.canon, x, m1);
    r := Moved(e.d, e.c, e.canon, x1, m2);
    SoloOn(e, x1, m2, [], r);
    SoloOn(e, x, m1, [m2] + [], r);
    moves := [m1] + ([m2] + []);
    OneVictim(e.d, vs[0], e.f);
  }

  lemma OneVictim(d: Storage, v: Victim, f: Retention.Faults)
    ensures PathsIn(d, [v], f) == if v.row.id in f.objects then {} else {d.delete(v.row.path)}
    ensures {v.row.id} - f.rows == if v.row.id in f.rows then {} else {v.row.id}
  {
  }

  /** The calls for the rows of one listing, one row after the other. */
  lemma {:induction false} VictimsAlone(e: Setting, x: Site, scs: seq<Schedule>, vs: seq<Victim>)
    returns (moves: seq<Move>, r: Site)
    requires e.n in x.workers && x.workers[e.n] == Sweeping(scs, vs)
    ensures Solo(e, x, moves, r)
    ensures StoresOf(r) == Stores(x.s.objects - PathsIn(e.d, vs, e.f),
                                  x.s.tables.(backups := x.s.tables.backups - (RowsIn(vs) - e.f.rows)))
    ensures r.workers == x.workers[e.n := Sweeping(scs, [])]
    decreases |vs|
  {
    if vs == [] {
      moves, r := [], x;
      assert x.workers[e.n := Sweeping(scs, [])] == x.workers;
    } else {
      var first, y := VictimAlone(e, x, scs, vs);
      var rest;
      rest, r := VictimsAlone(e, y, scs, vs[1..]);
      SoloThen(e, x, first, y, rest, r);
      moves := first + rest;
      FirstVictim(e.d, vs, e.f);
    }
  }

  lemma FirstVictim(d: Storage, vs: seq<Victim>, f: Retention.Faults)
    requires vs != []
    ensures RowsIn(vs) == {vs[0].row.id} + RowsIn(vs[1..])
    ensures PathsIn(d, vs, f) == PathsIn(d, [vs[0]], f) + PathsIn(d, vs[1..], f)
  {
    assert forall v :: v in vs <==> v == vs[0] || v in vs[1..];
  }

  lemma {:induction false} OldVictimsAre(d: Storage, s: System, rows: seq<Text>, cutoff: int)
    requires Consistent(s.tables)
    ensures RowsIn(OldVictims(s, rows, cutoff))
         == set id | id in rows && id in s.tables.backups && s.tables.backups[id].finishedAt < cutoff
  {
    if rows != [] {
      OldVictimsAre(d, s, rows[1..], cutoff);
      var tail := OldVictims(s, rows[1..], cutoff);
      assert forall id :: id in rows <==> id == rows[0] || id in rows[1..];
      if rows[0] in s.tables.backups && s.tables.backups[rows[0]].finishedAt < cutoff {
        FirstVictim(d, [VictimOf(s, rows[0])] + tail, Retention.NO_FAULTS);
        assert ([VictimOf(s, rows[0])] + tail)[1..] == tail;
      } else {
        assert [] + tail == tail;
      }
    }
  }

  lemma {:induction false} OldVictimIs(s: System, rows: seq<Text>, cutoff: int, v: Victim)
    requires Consistent(s.tables) && v in OldVictims(s, rows, cutoff)
    ensures v.row.id in rows && v.row.id in s.tables.backups && s.tables.backups[v.row.id] == v.row
    ensures v.row.finishedAt < cutoff
  {
    if rows[0] !in s.tables.backups || v != VictimOf(s, rows[0]) || s.tables.backups[rows[0]].finishedAt >= cutoff {
      OldVictimIs(s, rows[1..], cutoff, v);
    }
  }

  /** The rows that one listing finds old are the schedule's due ones among those that are left. */
  lemma ListedVictims(d: Storage, s: System, rows: seq<Text>, t: Tables, sc: Schedule, now: int,
                      f: Retention.Faults, gone: set<Text>)
    requires Consistent(t) && s.tables == t.(backups := t.backups - (gone - f.rows))
    requires sc.retentionDays > 0 && sc.id !in f.listings && ListsOf(rows, s.tables, sc)
    ensures var vs, left := OldVictims(s, rows, Retention.Cutoff(now, sc.retentionDays)),
                            Retention.DueOf(t, sc, now, f) - (gone - f.rows);
            RowsIn(vs) == left && PathsIn(d, vs, f) == Retention.GoneKeys(d, t, left - f.objects)
  {
    var vs := OldVictims(s, rows, Retention.Cutoff(now, sc.retentionDays));
    var left := Retention.DueOf(t, sc, now, f) - (gone - f.rows);
    OldVictimsAre(d, s, rows, Retention.Cutoff(now, sc.retentionDays));
    assert RowsIn(vs) == left;
    forall v | v in vs ensures v.row.id in t.backups && t.backups[v.row.id] == v.row {
      OldVictimIs(s, rows, Retention.Cutoff(now, sc.retentionDays), v);
    }
    forall id | id in left - f.objects ensures d.delete(t.backups[id].path) in PathsIn(d, vs, f) {
      assert id in RowsIn(vs);
      var v :| v in vs && v.row.id == id;
    }
  }

  lemma RemovedMore(d: Storage, st: Stores, gone: set<Text>, due: set<Text>, f: Retention.Faults)
    requires gone <= st.tables.backups.Keys && due <= st.tables.backups.Keys
    ensures var m, left := Retention.Removed(d, st, gone, f), due - (gone - f.rows);
            Retention.Removed(d, st, gone + due, f)
            == Stores(m.objects - Retention.GoneKeys(d, st.tables, left - f.objects),
                      m.tables.(backups := m.tables.backups - (left - f.rows)))
  {
    var m, left := Retention.Removed(d, st, gone, f), due - (gone - f.rows);
    var g, h := Retention.GoneKeys(d, st.tables, gone - f.objects), Retention.GoneKeys(d, st.tables, left - f.objects);
    var all := Retention.GoneKeys(d, st.tables, gone + due - f.objects);
    assert all == g + h;
    assert st.objects - g - h == st.objects - (g + h);
    assert st.tables.backups - (gone - f.rows) - (left - f.rows) == st.tables.backups - (gone + due - f.rows);
  }

  /** What is left when the old rows of one listing are dealt with. */
  lemma SweptStores(d: Storage, s: System, rows: seq<Text>, st: Stores, sc: Schedule, now: int,
                    f: Retention.Faults, gone: set<Text>)
    requires Consistent(st.tables) && gone <= st.tables.backups.Keys && sc.retentionDays > 0 && sc.id !in f.listings
    requires Stores(s.objects, s.tables) == Retention.Removed(d, st, gone, f) && ListsOf(rows, s.tables, sc)
    ensures var vs := OldVictims(s, rows, Retention.Cutoff(now, sc.retentionDays));
            Stores(s.objects - PathsIn(d, vs, f), s.tables.(backups := s.tables.backups - (RowsIn(vs) - f.rows)))
            == Retention.Removed(d, st, gone + Retention.DueOf(st.tables, sc, now, f), f)
  {
    ListedVictims(d, s, rows, st.tables, sc, now, f, gone);
    RemovedMore(d, st, gone, Retention.DueOf(st.tables, sc, now, f), f);
  }

  /** The listing of one schedule and the calls for its old rows. */
  lemma ListingAlone(e: Setting, x: Site, scs: seq<Schedule>, rows: seq<Text>)
    returns (moves: seq<Move>, r: Site)
    requires e.n in x.workers && x.workers[e.n] == Sweeping(scs, []) && scs != [] && scs[0].retentionDays > 0
    requires scs[0].id !in e.f.listings && ListsOf(rows, x.s.tables, scs[0])
    ensures Solo(e, x, moves, r)
    ensures r.workers == x.workers[e.n := Sweeping(scs[1..], [])]
    ensures var vs := OldVictims(x.s, rows, Retention.Cutoff(e.clock(scs[0].id), scs[0].retentionDays));
            StoresOf(r) == Stores(x.s.objects - PathsIn(e.d, vs, e.f),
                                  x.s.tables.(backups := x.s.tables.backups - (RowsIn(vs) - e.f.rows)))
  {
    var go := Go(e.n, true, e.clock(scs[0].id), [], rows);
    var x1 := Moved(e.d, e.c, e.canon, x, go);
    var vs := OldVictims(x.s, rows, Retention.Cutoff(e.clock(scs[0].id), scs[0].retentionDays));
    var rest;
    rest, r := VictimsAlone(e, x1, scs[1..], vs);
    moves := [go] + rest;
    SoloOn(e, x, go, rest, r);
  }

  /** A schedule without retention is skipped, and so is one whose listing fails. */
  lemma SkippedAlone(e: Setting, x: Site, scs: seq<Schedule>, rows: seq<Text>)
    returns (moves: seq<Move>, r: Site)
    requires e.n in x.workers && x.workers[e.n] == Sweeping(scs, []) && scs != [] && ListsOf(rows, x.s.tables, scs[0])
    requires scs[0].retentionDays <= 0 || scs[0].id in e.f.listings
    ensures Solo(e, x, moves, r)
    ensures r.workers == x.workers[e.n := Sweeping(scs[1..], [])] && StoresOf(r) == StoresOf(x)
  {
    var go := Go(e.n, scs[0].id !in e.f.listings, e.clock(scs[0].id), [], rows);
    r := Moved(e.d, e.c, e.canon, x, go);
    moves := [go] + [];
    SoloOn(e, x, go, [], r);
  }

  lemma SkippedHandled(t: Tables, clock: Retention.Clock, f: Retention.Faults, done: set<Text>, sc: Schedule)
    requires Consistent(t) && sc.id in t.schedules && t.schedules[sc.id] == sc
    requires sc.retentionDays <= 0 || sc.id in f.listings
    ensures Retention.HandledBy(t, clock, f, done + {sc.id}) == Retention.HandledBy(t, clock, f, done)
  {
    Retention.HandledOneMore(t, clock, f, done, sc);
    assert sc.id in f.listings ==> Retention.DueOf(t, sc, clock(sc.id), f) == {};
  }

  lemma SweptHandled(d: Storage, s: System, rows: seq<Text>, st: Stores, sc: Schedule, clock: Retention.Clock,
                     f: Retention.Faults, done: set<Text>)
    requires Consistent(st.tables) && sc.id in st.tables.schedules && st.tables.schedules[sc.id] == sc
    requires sc.retentionDays > 0 && sc.id !in f.listings && ListsOf(rows, s.tables, sc)
    requires Stores(s.objects, s.tables) == Retention.Removed(d, st, Retention.HandledBy(st.tables, clock, f, done), f)
    ensures var vs := OldVictims(s, rows, Retention.Cutoff(clock(sc.id), sc.retentionDays));
            Stores(s.objects - PathsIn(d, vs, f), s.tables.(backups := s.tables.backups - (RowsIn(vs) - f.rows)))
            == Retention.Removed(d, st, Retention.HandledBy(st.tables, clock, f, done + {sc.id}), f)
  {
    Retention.HandledOneMore(st.tables, clock, f, done, sc);
    SweptStores(d, s, rows, st, sc, clock(sc.id), f, Retention.HandledBy(st.tables, clock, f, done));
  }

  /** One schedule of a pass, with nobody in between. */
  lemma ScheduleAlone(e: Setting, x: Site, scs: seq<Schedule>, st: Stores, done: set<Text>)
    returns (moves: seq<Move>, r: Site)
    requires e.n in x.workers && x.workers[e.n] == Sweeping(scs, []) && scs != [] && Consistent(st.tables)
    requires scs[0].id in st.tables.schedules && st.tables.schedules[scs[0].id] == scs[0]
    requires StoresOf(x) == Retention.Removed(e.d, st, Retention.HandledBy(st.tables, e.clock, e.f, done), e.f)
    ensures Solo(e, x, moves, r)
    ensures r.workers == x.workers[e.n := Sweeping(scs[1..], [])]
    ensures StoresOf(r)
         == Retention.Removed(e.d, st, Retention.HandledBy(st.tables, e.clock, e.f, done + {scs[0].id}), e.f)
  {
    var sc := scs[0];
    var mine := set id | id in x.s.tables.backups && x.s.tables.backups[id].scheduleId == Some(sc.id);
    var rows := Operations.Listed(mine);
    if sc.retentionDays <= 0 || sc.id in e.f.listings {
      moves, r := SkippedAlone(e, x, scs, rows);
      SkippedHandled(st.tables, e.clock, e.f, done, sc);
    } else {
      moves, r := ListingAlone(e, x, scs, rows);
      SweptHandled(e.d, x.s, rows, st, sc, e.clock, e.f, done);
    }
  }

  lemma OneIdMore(scs: seq<Schedule>, done: set<Text>)
    requires scs != []
    ensures done + {scs[0].id} + Retention.IdsOf(scs[1..]) == done + Retention.IdsOf(scs)
  {
    assert forall sc :: sc in scs <==> sc == scs[0] || sc in scs[1..];
  }

  lemma {:induction false} SchedulesAlone(e: Setting, x: Site, scs: seq<Schedule>, st: Stores, done: set<Text>)
    returns (moves: seq<Move>, r: Site)
    requires e.n in x.workers && x.workers[e.n] == Sweeping(scs, []) && Consistent(st.tables)
    requires forall sc | sc in scs :: sc.id in st.tables.schedules && st.tables.schedules[sc.id] == sc
    requires StoresOf(x) == Retention.Removed(e.d, st, Retention.HandledBy(st.tables, e.clock, e.f, done), e.f)
    ensures Solo(e, x, moves, r)
    ensures r.workers == x.workers[e.n := Sweeping([], [])]
    ensures StoresOf(r)
         == Retention.Removed(e.d, st, Retention.HandledBy(st.tables, e.clock, e.f, done + Retention.IdsOf(scs)), e.f)
    decreases |scs|
  {
    if scs == [] {
      moves, r := [], x;
      assert done + Retention.IdsOf(scs) == done && x.workers[e.n := Sweeping([], [])] == x.workers;
    } else {
      assert scs[0] in scs && forall sc | sc in scs[1..] :: sc in scs;
      var first, x1 := ScheduleAlone(e, x, scs, st, done);
      var rest;
      rest, r := SchedulesAlone(e, x1, scs[1..], st, done + {scs[0].id});
      moves := first + rest;
      SoloThen(e, x, first, x1, rest, r);
      OneIdMore(scs, done);
    }
  }

  /** A pass with nobody in between, of which any calls may fail, leaves what the loops' contract says of
      the same failing calls. */
  lemma PassAlone(e: Setting, x: Site, scs: seq<Schedule>)
    returns (moves: seq<Move>, r: Site)
    requires Consistent(x.s.tables) && e.n in x.workers && x.workers[e.n] == Starting && Lists(scs, x.s.tables)
    ensures Solo(e, x, moves, r) && r.workers == x.workers[e.n := Finished]
    ensures StoresOf(r) == if e.listing then Retention.Pass(e.d, StoresOf(x), e.clock, e.f) else StoresOf(x)
  {
    var start := Go(e.n, e.listing, 0, scs, []);
    var x1 := Moved(e.d, e.c, e.canon, x, start);
    if !e.listing {
      moves, r := [start] + [], x1;
      SoloOn(e, x, start, [], r);
    } else {
      var stop := Go(e.n, true, 0, [], []);
      Retention.NothingHandled(e.d, StoresOf(x), e.clock, e.f);
      var middle, y := SchedulesAlone(e, x1, scs, StoresOf(x), {});
      r := Moved(e.d, e.c, e.canon, y, stop);
      SoloOn(e, y, stop, [], r);
      SoloThen(e, x1, middle, y, [stop] + [], r);
      moves := [start] + (middle + ([stop] + []));
      SoloOn(e, x, start, middle + ([stop] + []), r);
      Retention.AllHandled(x.s.tables, e.clock, e.f, scs);
      assert {} + Retention.IdsOf(scs) == Retention.IdsOf(scs);
    }
  }
}
