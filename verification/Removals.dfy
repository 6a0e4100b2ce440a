/** Which rows retention passes remove while requests interleave, and which they leave. */
module Removals {
  import opened GoText
  import opened Metadata
  import opened Adapters
  import opened DumpPipe
  import opened Lifecycle
  import opened Requests
  import Retention

  // ---- backups of deleted schedules ----

  /** The request is for this backup, or has it among the rows it read. */
  ghost predicate Wants(canon: Canon, w: Worker, id: Text) {
    (w.Wanted? && canon(w.id) == Some(id)) || exists v :: v in Held(w) && v.row.id == id
  }

  ghost predicate Unwanted(canon: Canon, x: Site, id: Text) {
    forall n | n in x.workers :: !Wants(canon, x.workers[n], id)
  }

  ghost predicate Orphan(t: Tables, id: Text) {
    id in t.backups && t.backups[id].scheduleId == None
  }

  lemma {:induction false} OrphanNotListed(s: System, rows: seq<Text>, cutoff: int, id: Text)
    requires Consistent(s.tables) && id !in rows
    ensures forall v | v in OldVictims(s, rows, cutoff) :: v.row.id != id
  {
    if rows != [] { OrphanNotListed(s, rows[1..], cutoff, id); }
  }

  lemma OrphanOther(keys: Keys, c: Codec, s: System, t: Step, id: Text)
    requires Orphan(s.tables, id) && !t.DeleteRow?
    ensures Orphan(Apply(keys, c, s, t).tables, id) && Apply(keys, c, s, t).tables.backups[id] == s.tables.backups[id]
  {
  }

  lemma OrphanStep(d: Storage, c: Codec, canon: Canon, jobs: set<Job>, x: Site, m: Move, id: Text)
    requires Consistent(x.s.tables) && CanMove(jobs, x, m) && Orphan(x.s.tables, id) && Unwanted(canon, x, id)
    requires m.Arrive? ==> !Wants(canon, m.w, id)
    ensures var r := Moved(d, c, canon, x, m);
            Orphan(r.s.tables, id) && r.s.tables.backups[id] == x.s.tables.backups[id] && Unwanted(canon, r, id)
  {
    match m
    case Other(t) => OrphanOther(KeysOf(d), c, x.s, t, id);
    case Arrive(_, _) =>
    case Go(n, _, now, _, rows) =>
      var w := x.workers[n];
      if w.Sweeping? && w.victims == [] && w.schedules != [] {
        OrphanNotListed(x.s, rows, Retention.Cutoff(now, w.schedules[0].retentionDays), id);
      }
      OrphanCall(d, canon, x.s, w, m, id);
  }

  lemma OrphanCall(d: Storage, canon: Canon, s: System, w: Worker, m: Move, id: Text)
    requires m.Go? && Consistent(s.tables) && Orphan(s.tables, id) && !Wants(canon, w, id)
    requires w.Sweeping? && w.victims == [] && w.schedules != [] ==>
               forall v | v in OldVictims(s, m.rows, Retention.Cutoff(m.now, w.schedules[0].retentionDays)) ::
                 v.row.id != id
    ensures var (r, w', stuck) := Advance(d, canon, s, w, m);
            Orphan(r.tables, id) && r.tables.backups[id] == s.tables.backups[id] && !Wants(canon, w', id)
  {
    assert forall v | v in Held(w) :: v.row.id != id;
    if w.Halfway? || w.SweepHalfway? { assert w.v in Held(w); }
    if w.Sweeping? && w.victims != [] {
      assert w.victims[0] in Held(w) && forall v | v in w.victims[1..] :: v in w.victims;
    }
  }

  lemma {:induction false} OrphanRun(d: Storage, c: Codec, canon: Canon, jobs: set<Job>, x: Site, moves: seq<Move>,
                                     r: Site, id: Text)
    requires Consistent(x.s.tables) && Interleaved(d, c, canon, jobs, x, moves, r)
    requires Orphan(x.s.tables, id) && Unwanted(canon, x, id)
    requires forall m | m in moves && m.Arrive? :: !Wants(canon, m.w, id)
    ensures Orphan(r.s.tables, id) && r.s.tables.backups[id] == x.s.tables.backups[id]
    decreases |moves|
  {
    if moves != [] {
      assert moves[0] in moves && forall m | m in moves[1..] :: m in moves;
      OrphanStep(d, c, canon, jobs, x, moves[0], id);
      ConsistentKept(d, c, canon, jobs, x, moves[0]);
      OrphanRun(d, c, canon, jobs, Moved(d, c, canon, x, moves[0]), moves[1..], r, id);
    }
  }

  /** Once no schedule stands behind a backup and no request at work has read its row, no pass ever
      removes it, however requests interleave: only a DELETE for it can. */
  lemma OrphansStay(d: Storage, c: Codec, canon: Canon, jobs: set<Job>, before: seq<Move>, x: Site, moves: seq<Move>,
                    r: Site, id: Text)
    requires Interleaved(d, c, canon, jobs, IDLE, before, x) && Interleaved(d, c, canon, jobs, x, moves, r)
    requires Orphan(x.s.tables, id) && Unwanted(canon, x, id)
    requires forall m | m in moves && m.Arrive? && m.w.Wanted? :: canon(m.w.id) != Some(id)
    ensures id in r.s.tables.backups && r.s.tables.backups[id] == x.s.tables.backups[id]
  {
    ConsistentRun(d, c, canon, jobs, IDLE, before, x);
    forall m | m in moves && m.Arrive? ensures !Wants(canon, m.w, id) {
      ArrivalsHoldNothing(d, c, canon, jobs, x, moves, r, m);
    }
    OrphanRun(d, c, canon, jobs, x, moves, r, id);
  }

  lemma {:induction false} ArrivalsHoldNothing(d: Storage, c: Codec, canon: Canon, jobs: set<Job>, x: Site,
                                               moves: seq<Move>, r: Site, m: Move)
    requires Interleaved(d, c, canon, jobs, x, moves, r) && m in moves && m.Arrive?
    ensures m.w.Wanted? || m.w.Starting?
    decreases |moves|
  {
    if m != moves[0] { ArrivalsHoldNothing(d, c, canon, jobs, Moved(d, c, canon, x, moves[0]), moves[1..], r, m); }
  }

  // ---- which orphans a pass can still remove ----

  /** A pass at work has the backup among the rows that it read and has not dealt with. */
  ghost predicate PassHolds(x: Site, id: Text) {
    exists n, v :: n in x.workers && AtWork(x.workers[n]) && v in Held(x.workers[n]) && v.row.id == id
  }

  ghost predicate NoDelete(canon: Canon, moves: seq<Move>, id: Text) {
    forall m | m in moves && m.Arrive? && m.w.Wanted? :: canon(m.w.id) != Some(id)
  }

  /** Some way of going on, without a DELETE for it, removes the row. */
  ghost predicate CanLose(d: Storage, c: Codec, canon: Canon, jobs: set<Job>, x: Site, id: Text) {
    exists moves, r ::
      Interleaved(d, c, canon, jobs, x, moves, r) && NoDelete(canon, moves, id) && id !in r.s.tables.backups
  }

  lemma SweepLoses(d: Storage, c: Codec, canon: Canon, jobs: set<Job>, x: Site, n: nat, v: Victim)
    requires n in x.workers && x.workers[n].Sweeping? && v in x.workers[n].victims
    ensures CanLose(d, c, canon, jobs, x, v.row.id)
  {
    var e := Setting(d, c, canon, jobs, n, _ => 0, Retention.NO_FAULTS, true);
    var moves, r := VictimsAlone(e, x, x.workers[n].schedules, x.workers[n].victims);
    SoloRuns(e, x, moves, r);
    assert v.row.id in RowsIn(x.workers[n].victims);
  }

  lemma LosesNext(d: Storage, c: Codec, canon: Canon, jobs: set<Job>, x: Site, m: Move, id: Text)
    requires m.Go? && CanMove(jobs, x, m) && CanLose(d, c, canon, jobs, Moved(d, c, canon, x, m), id)
    ensures CanLose(d, c, canon, jobs, x, id)
  {
    var moves, r :| Interleaved(d, c, canon, jobs, Moved(d, c, canon, x, m), moves, r) && NoDelete(canon, moves, id)
                    && id !in r.s.tables.backups;
    RunsOn(d, c, canon, jobs, x, m, moves, r);
  }

  lemma LostNow(d: Storage, c: Codec, canon: Canon, jobs: set<Job>, x: Site, id: Text)
    requires id !in x.s.tables.backups
    ensures CanLose(d, c, canon, jobs, x, id)
  {
    assert Interleaved(d, c, canon, jobs, x, [], x) && NoDelete(canon, [], id);
  }

  /** Whatever a pass holds it can remove. */
  lemma HeldCanGo(d: Storage, c: Codec, canon: Canon, jobs: set<Job>, x: Site, id: Text)
    requires PassHolds(x, id)
    ensures CanLose(d, c, canon, jobs, x, id)
  {
    var n, v :| n in x.workers && AtWork(x.workers[n]) && v in Held(x.workers[n]) && v.row.id == id;
    if x.workers[n].Sweeping? {
      SweepLoses(d, c, canon, jobs, x, n, v);
    } else {
      var go := Go(n, true, 0, [], []);
      var y := Moved(d, c, canon, x, go);
      if v in x.workers[n].victims {
        SweepLoses(d, c, canon, jobs, y, n, v);
      } else {
        LostNow(d, c, canon, jobs, y, id);
      }
      LosesNext(d, c, canon, jobs, x, go, id);
    }
  }

  /** No request but a pass is for this backup. */
  ghost predicate NoApi(canon: Canon, x: Site, id: Text) {
    forall n | n in x.workers && !AtWork(x.workers[n]) :: !Wants(canon, x.workers[n], id)
  }

  /** A backup without a schedule that no API request wants: exactly while a pass at work holds it can
      it be removed, however requests go on, as long as no DELETE for it arrives. */
  lemma OrphanLostExactly(d: Storage, c: Codec, canon: Canon, jobs: set<Job>, before: seq<Move>, x: Site, id: Text)
    requires Interleaved(d, c, canon, jobs, IDLE, before, x) && Orphan(x.s.tables, id) && NoApi(canon, x, id)
    ensures CanLose(d, c, canon, jobs, x, id) <==> PassHolds(x, id)
  {
    if PassHolds(x, id) {
      HeldCanGo(d, c, canon, jobs, x, id);
    } else {
      assert Unwanted(canon, x, id);
      forall moves, r | Interleaved(d, c, canon, jobs, x, moves, r) && NoDelete(canon, moves, id)
        ensures id in r.s.tables.backups
      {
        OrphansStay(d, c, canon, jobs, before, x, moves, r, id);
      }
    }
  }

  /** So deleting a schedule does not save the backups that a pass has listed for it. */
  lemma ListedOrphanGoes(d: Storage, c: Codec, canon: Canon, jobs: set<Job>, x: Site, schedule: Text, id: Text)
    requires id in x.s.tables.backups && x.s.tables.backups[id].scheduleId == Some(schedule) && PassHolds(x, id)
    ensures var y := Moved(d, c, canon, x, Other(DeleteSchedule(schedule)));
            CanMove(jobs, x, Other(DeleteSchedule(schedule))) && Orphan(y.s.tables, id)
            && CanLose(d, c, canon, jobs, y, id)
  {
    var y := Moved(d, c, canon, x, Other(DeleteSchedule(schedule)));
    assert y.workers == x.workers;
    HeldCanGo(d, c, canon, jobs, y, id);
  }

  // ---- which rows passes remove ----

  /** A pass lists the rows of a schedule, and this row is one of the schedule's that finished before the
      cutoff, by the clock of that moment and the retention days that the pass has read. */
  ghost predicate Listing(z: Site, m: Move, n: nat, v: Victim) {
    && m.Go? && m.n == n && m.up && n in z.workers && z.workers[n].Sweeping?
    && z.workers[n].victims == [] && z.workers[n].schedules != []
    && var sc := z.workers[n].schedules[0];
       && v.row.id in z.s.tables.backups && z.s.tables.backups[v.row.id] == v.row
       && v.row.scheduleId == Some(sc.id) && Retention.Expires(sc, m.now, v.row.finishedAt)
  }

  /** The pass called ListSchedules while this schedule was stored, with these very fields. */
  ghost predicate ReadAt(d: Storage, c: Codec, canon: Canon, jobs: set<Job>, moves: seq<Move>, n: nat, sc: Schedule,
                         k: nat, z: Site)
  {
    && k < |moves| && Interleaved(d, c, canon, jobs, IDLE, moves[..k], z)
    && moves[k].Go? && moves[k].n == n && moves[k].up && n in z.workers && z.workers[n].Starting?
    && sc.id in z.s.tables.schedules && z.s.tables.schedules[sc.id] == sc
  }

  ghost predicate WasRead(d: Storage, c: Codec, canon: Canon, jobs: set<Job>, moves: seq<Move>, n: nat, sc: Schedule) {
    exists k: nat, z :: ReadAt(d, c, canon, jobs, moves, n, sc, k, z)
  }

  lemma ReadBefore(d: Storage, c: Codec, canon: Canon, jobs: set<Job>, moves: seq<Move>, more: seq<Move>,
                   n: nat, sc: Schedule)
    requires WasRead(d, c, canon, jobs, moves, n, sc)
    ensures WasRead(d, c, canon, jobs, moves + more, n, sc)
  {
    var k: nat, z :| ReadAt(d, c, canon, jobs, moves, n, sc, k, z);
    assert (moves + more)[..k] == moves[..k];
    assert ReadAt(d, c, canon, jobs, moves + more, n, sc, k, z);
  }

  ghost predicate ListedAt(d: Storage, c: Codec, canon: Canon, jobs: set<Job>, moves: seq<Move>, n: nat, v: Victim,
                           k: nat, z: Site)
  {
    k < |moves| && Interleaved(d, c, canon, jobs, IDLE, moves[..k], z) && Listing(z, moves[k], n, v)
    && WasRead(d, c, canon, jobs, moves[..k], n, z.workers[n].schedules[0])
  }

  ghost predicate WasListed(d: Storage, c: Codec, canon: Canon, jobs: set<Job>, moves: seq<Move>, n: nat, v: Victim) {
    exists k: nat, z :: ListedAt(d, c, canon, jobs, moves, n, v, k, z)
  }

  lemma ListedBefore(d: Storage, c: Codec, canon: Canon, jobs: set<Job>, moves: seq<Move>, more: seq<Move>,
                     n: nat, v: Victim)
    requires WasListed(d, c, canon, jobs, moves, n, v)
    ensures WasListed(d, c, canon, jobs, moves + more, n, v)
  {
    var k: nat, z :| ListedAt(d, c, canon, jobs, moves, n, v, k, z);
    assert (moves + more)[..k] == moves[..k];
    assert ListedAt(d, c, canon, jobs, moves + more, n, v, k, z);
  }

  lemma {:induction false} RunsSplit(d: Storage, c: Codec, canon: Canon, jobs: set<Job>, x: Site, moves: seq<Move>,
                                     r: Site)
    returns (y: Site)
    requires moves != [] && Interleaved(d, c, canon, jobs, x, moves, r)
    ensures var last := moves[|moves| - 1];
            && Interleaved(d, c, canon, jobs, x, moves[..|moves| - 1], y)
            && CanMove(jobs, y, last) && r == Moved(d, c, canon, y, last)
    decreases |moves|
  {
    if |moves| == 1 {
      y := x;
    } else {
      var x1, rest := Moved(d, c, canon, x, moves[0]), moves[1..];
      y := RunsSplit(d, c, canon, jobs, x1, rest, r);
      RunsOn(d, c, canon, jobs, x, moves[0], rest[..|rest| - 1], y);
      assert [moves[0]] + rest[..|rest| - 1] == moves[..|moves| - 1];
    }
  }

  /** A schedule that a pass has before it was before it already, or has just been read. */
  lemma BeforeOrRead(d: Storage, c: Codec, canon: Canon, jobs: set<Job>, y: Site, m: Move, n: nat, sc: Schedule)
    requires CanMove(jobs, y, m)
    requires var r := Moved(d, c, canon, y, m); n in r.workers && AtWork(r.workers[n]) && sc in r.workers[n].schedules
    ensures (n in y.workers && AtWork(y.workers[n]) && sc in y.workers[n].schedules)
         || (m.Go? && m.n == n && m.up && n in y.workers && y.workers[n].Starting?
             && sc.id in y.s.tables.schedules && y.s.tables.schedules[sc.id] == sc)
  {
    if m.Go? && m.n == n && y.workers[n].Sweeping? && y.workers[n].schedules != [] {
      assert forall s | s in y.workers[n].schedules[1..] :: s in y.workers[n].schedules;
    }
  }

  /** Whatever schedule a pass goes by was stored when the pass read the schedules. */
  lemma {:induction false} ScheduleWasRead(d: Storage, c: Codec, canon: Canon, jobs: set<Job>, moves: seq<Move>,
                                           r: Site, n: nat, sc: Schedule)
    requires Interleaved(d, c, canon, jobs, IDLE, moves, r)
    requires n in r.workers && AtWork(r.workers[n]) && sc in r.workers[n].schedules
    ensures WasRead(d, c, canon, jobs, moves, n, sc)
    decreases |moves|
  {
    if moves != [] {
      var init, last := moves[..|moves| - 1], moves[|moves| - 1];
      var y := RunsSplit(d, c, canon, jobs, IDLE, moves, r);
      assert init + [last] == moves;
      BeforeOrRead(d, c, canon, jobs, y, last, n, sc);
      if n in y.workers && AtWork(y.workers[n]) && sc in y.workers[n].schedules {
        ScheduleWasRead(d, c, canon, jobs, init, y, n, sc);
        ReadBefore(d, c, canon, jobs, init, [last], n, sc);
      } else {
        assert ReadAt(d, c, canon, jobs, moves, n, sc, |init|, y);
      }
    }
  }

  /** What a pass holds after one of its calls it held before, or has just listed. */
  lemma HeldOrListed(d: Storage, canon: Canon, jobs: set<Job>, y: Site, m: Move, v: Victim)
    requires Consistent(y.s.tables) && m.Go? && CanMove(jobs, y, m)
    requires var w' := Advance(d, canon, y.s, y.workers[m.n], m).1; AtWork(w') && v in Held(w')
    ensures (AtWork(y.workers[m.n]) && v in Held(y.workers[m.n])) || Listing(y, m, m.n, v)
  {
    var w := y.workers[m.n];
    if w.Sweeping? && w.victims == [] && w.schedules != [] {
      OldVictimIs(y.s, m.rows, Retention.Cutoff(m.now, w.schedules[0].retentionDays), v);
    }
  }

  lemma HeldBackwards(d: Storage, c: Codec, canon: Canon, jobs: set<Job>, y: Site, m: Move, n: nat, v: Victim)
    requires Consistent(y.s.tables) && CanMove(jobs, y, m)
    requires var r := Moved(d, c, canon, y, m); n in r.workers && AtWork(r.workers[n]) && v in Held(r.workers[n])
    ensures (n in y.workers && AtWork(y.workers[n]) && v in Held(y.workers[n])) || Listing(y, m, n, v)
  {
    if m.Go? && m.n == n { HeldOrListed(d, canon, jobs, y, m, v); }
  }

  /** Whatever a pass holds it has listed. */
  lemma {:induction false} HeldWasListed(d: Storage, c: Codec, canon: Canon, jobs: set<Job>, moves: seq<Move>, r: Site,
                                         n: nat, v: Victim)
    requires Interleaved(d, c, canon, jobs, IDLE, moves, r)
    requires n in r.workers && AtWork(r.workers[n]) && v in Held(r.workers[n])
    ensures WasListed(d, c, canon, jobs, moves, n, v)
    decreases |moves|
  {
    if moves != [] {
      var init, last := moves[..|moves| - 1], moves[|moves| - 1];
      var y := RunsSplit(d, c, canon, jobs, IDLE, moves, r);
      ConsistentRun(d, c, canon, jobs, IDLE, init, y);
      assert init + [last] == moves;
      HeldBackwards(d, c, canon, jobs, y, last, n, v);
      if n in y.workers && AtWork(y.workers[n]) && v in Held(y.workers[n]) {
        HeldWasListed(d, c, canon, jobs, init, y, n, v);
        ListedBefore(d, c, canon, jobs, init, [last], n, v);
      } else {
        ScheduleWasRead(d, c, canon, jobs, init, y, n, y.workers[n].schedules[0]);
        assert moves[..|init|] == init;
        assert ListedAt(d, c, canon, jobs, moves, n, v, |init|, y);
      }
    }
  }

  lemma NoApiStep(d: Storage, c: Codec, canon: Canon, jobs: set<Job>, x: Site, m: Move, id: Text)
    requires Consistent(x.s.tables) && CanMove(jobs, x, m) && NoApi(canon, x, id) && NoDelete(canon, [m], id)
    ensures NoApi(canon, Moved(d, c, canon, x, m), id)
  {
    assert m in [m];
  }

  lemma {:induction false} NoApiRun(d: Storage, c: Codec, canon: Canon, jobs: set<Job>, x: Site, moves: seq<Move>,
                                    r: Site, id: Text)
    requires Consistent(x.s.tables) && Interleaved(d, c, canon, jobs, x, moves, r)
    requires NoApi(canon, x, id) && NoDelete(canon, moves, id)
    ensures NoApi(canon, r, id)
    decreases |moves|
  {
    if moves != [] {
      assert moves[0] in moves && forall m | m in moves[1..] :: m in moves;
      NoApiStep(d, c, canon, jobs, x, moves[0], id);
      ConsistentKept(d, c, canon, jobs, x, moves[0]);
      NoApiRun(d, c, canon, jobs, Moved(d, c, canon, x, moves[0]), moves[1..], r, id);
    }
  }

  lemma CallRemoves(d: Storage, canon: Canon, s: System, w: Worker, m: Move, id: Text)
    requires m.Go? && id in s.tables.backups && id !in Advance(d, canon, s, w, m).0.tables.backups
    ensures Between(w, id)
  {
  }

  lemma OtherKeepsRow(keys: Keys, c: Codec, s: System, t: Step, id: Text)
    requires id in s.tables.backups && !t.DeleteRow?
    ensures id in Apply(keys, c, s, t).tables.backups
  {
  }

  lemma HalfwayWants(canon: Canon, w: Worker, id: Text)
    requires Between(w, id)
    ensures Wants(canon, w, id)
  {
    assert w.v in Held(w);
  }

  /** A move that removes a row is a request's last call for it. */
  lemma RemovedBy(d: Storage, c: Codec, canon: Canon, jobs: set<Job>, x: Site, m: Move, id: Text)
    requires CanMove(jobs, x, m) && NoApi(canon, x, id)
    requires id in x.s.tables.backups && id !in Moved(d, c, canon, x, m).s.tables.backups
    ensures m.Go? && x.workers[m.n].SweepHalfway? && x.workers[m.n].v.row.id == id
  {
    if m.Other? {
      OtherKeepsRow(KeysOf(d), c, x.s, m.t, id);
    } else if m.Go? {
      CallRemoves(d, canon, x.s, x.workers[m.n], m, id);
      HalfwayWants(canon, x.workers[m.n], id);
    }
  }

  /** Over every run: a row that was there and is gone, though no DELETE for it ever came, was listed by
      a pass as its schedule's own and as expired, by the clock of that moment and the retention days that
      the schedule had in the store when the pass read the schedules. */
  lemma {:induction false} LostWasListed(d: Storage, c: Codec, canon: Canon, jobs: set<Job>, before: seq<Move>, x: Site,
                                         moves: seq<Move>, r: Site, id: Text)
    returns (n: nat, v: Victim)
    requires Interleaved(d, c, canon, jobs, IDLE, before, x) && Interleaved(d, c, canon, jobs, x, moves, r)
    requires NoDelete(canon, before, id) && NoDelete(canon, moves, id)
    requires id in x.s.tables.backups && id !in r.s.tables.backups
    ensures v.row.id == id && WasListed(d, c, canon, jobs, before + moves, n, v)
    decreases |moves|
  {
    var m, y := moves[0], Moved(d, c, canon, x, moves[0]);
    if id in y.s.tables.backups {
      assert moves[0] in moves && forall a | a in moves[1..] :: a in moves;
      RunsOn(d, c, canon, jobs, x, m, [], y);
      RunsThen(d, c, canon, jobs, IDLE, before, x, [m] + [], y);
      assert [m] + [] == [m] && before + [m] + moves[1..] == before + moves;
      n, v := LostWasListed(d, c, canon, jobs, before + [m], y, moves[1..], r, id);
    } else {
      NoApiRun(d, c, canon, jobs, IDLE, before, x, id);
      RemovedBy(d, c, canon, jobs, x, m, id);
      n, v := m.n, x.workers[m.n].v;
      HeldWasListed(d, c, canon, jobs, before, x, n, v);
      ListedBefore(d, c, canon, jobs, before, moves, n, v);
    }
  }

  /** A listing goes by the retention days that the pass has read, whatever the schedule has been
      edited to meanwhile: the pass takes exactly the schedule's rows that are old by those. */
  lemma ListingIgnoresEdits(d: Storage, c: Codec, canon: Canon, jobs: set<Job>, x: Site, n: nat, edit: Schedule,
                            now: int, rows: seq<Text>, id: Text)
    requires Consistent(x.s.tables) && n in x.workers && x.workers[n].Sweeping? && x.workers[n].victims == []
    requires x.workers[n].schedules != [] && id in x.s.tables.backups
    requires ListsOf(rows, x.s.tables, x.workers[n].schedules[0])
    ensures var y, go := Moved(d, c, canon, x, Other(EditSchedule(edit))), Go(n, true, now, [], rows);
            var sc, b := x.workers[n].schedules[0], x.s.tables.backups[id];
            && CanMove(jobs, x, Other(EditSchedule(edit))) && CanMove(jobs, y, go)
            && (id in RowsIn(Held(Moved(d, c, canon, y, go).workers[n]))
                <==> b.scheduleId == Some(sc.id) && Retention.Expires(sc, now, b.finishedAt))
  {
    var y := Moved(d, c, canon, x, Other(EditSchedule(edit)));
    assert y.s.tables.backups == x.s.tables.backups && y.workers == x.workers;
    OldVictimsAre(d, y.s, rows, Retention.Cutoff(now, x.workers[n].schedules[0].retentionDays));
  }

  // ---- a pass removes whatever it has listed ----

  ghost predicate Holds(x: Site, n: nat, v: Victim) {
    n in x.workers && AtWork(x.workers[n]) && v in Held(x.workers[n])
  }

  /** The calls of request `n` are answered, and nobody inserts a row under this id. */
  ghost predicate Undisturbed(moves: seq<Move>, n: nat, id: Text) {
    forall m | m in moves :: (m.Go? && m.n == n ==> m.up) && !(m.Other? && m.t.AddRow? && m.t.id == id)
  }

  lemma CallDeals(d: Storage, canon: Canon, s: System, w: Worker, m: Move, v: Victim)
    requires m.Go? && m.up && AtWork(w) && v in Held(w)
    ensures var (r, w', _) := Advance(d, canon, s, w, m);
            (AtWork(w') && v in Held(w')) || v.row.id !in r.tables.backups
  {
    if w.Sweeping? { assert w.victims == [w.victims[0]] + w.victims[1..]; }
  }

  lemma GoneStays(d: Storage, c: Codec, canon: Canon, jobs: set<Job>, x: Site, m: Move, id: Text)
    requires CanMove(jobs, x, m) && id !in x.s.tables.backups && !(m.Other? && m.t.AddRow? && m.t.id == id)
    ensures id !in Moved(d, c, canon, x, m).s.tables.backups
  {
    if m.Other? {
      NotInserted(KeysOf(d), c, x.s, m.t, id);
    } else if m.Go? {
      NotBack(d, canon, x.s, x.workers[m.n], m, id);
    }
  }

  lemma NotInserted(keys: Keys, c: Codec, s: System, t: Step, id: Text)
    requires id !in s.tables.backups && !(t.AddRow? && t.id == id)
    ensures id !in Apply(keys, c, s, t).tables.backups
  {
  }

  lemma NotBack(d: Storage, canon: Canon, s: System, w: Worker, m: Move, id: Text)
    requires m.Go? && id !in s.tables.backups
    ensures id !in Advance(d, canon, s, w, m).0.tables.backups
  {
  }

  /** Until the pass has dealt with a row that it holds it goes on holding it; then the row is gone. */
  lemma {:induction false} HeldOrGone(d: Storage, c: Codec, canon: Canon, jobs: set<Job>, x: Site, moves: seq<Move>,
                                      r: Site, n: nat, v: Victim)
    requires Interleaved(d, c, canon, jobs, x, moves, r) && Undisturbed(moves, n, v.row.id)
    requires Holds(x, n, v) || v.row.id !in x.s.tables.backups
    ensures Holds(r, n, v) || v.row.id !in r.s.tables.backups
    decreases |moves|
  {
    if moves != [] {
      var m := moves[0];
      assert m in moves && forall a | a in moves[1..] :: a in moves;
      if v.row.id !in x.s.tables.backups {
        GoneStays(d, c, canon, jobs, x, m, v.row.id);
      } else if m.Go? && m.n == n {
        CallDeals(d, canon, x.s, x.workers[n], m, v);
      }
      HeldOrGone(d, c, canon, jobs, Moved(d, c, canon, x, m), moves[1..], r, n, v);
    }
  }

  lemma ListedNow(d: Storage, canon: Canon, s: System, w: Worker, m: Move, id: Text) returns (v: Victim)
    requires Consistent(s.tables) && m.Go? && m.up && w.Sweeping? && w.victims == [] && w.schedules != []
    requires ListsOf(m.rows, s.tables, w.schedules[0])
    requires id in s.tables.backups && s.tables.backups[id].scheduleId == Some(w.schedules[0].id)
    requires Retention.Expires(w.schedules[0], m.now, s.tables.backups[id].finishedAt)
    ensures v.row.id == id && var w' := Advance(d, canon, s, w, m).1; AtWork(w') && v in Held(w')
  {
    var vs := OldVictims(s, m.rows, Retention.Cutoff(m.now, w.schedules[0].retentionDays));
    OldVictimsAre(d, s, m.rows, Retention.Cutoff(m.now, w.schedules[0].retentionDays));
    assert id in RowsIn(vs);
    v :| v in vs && v.row.id == id;
  }

  /** A pass that ends with its calls answered has removed every row that was expired when it listed the
      schedule, however requests interleave, unless the id is inserted again. */
  lemma PassSweepsAll(d: Storage, c: Codec, canon: Canon, jobs: set<Job>, before: seq<Move>, x: Site, m: Move,
                      moves: seq<Move>, r: Site, id: Text)
    requires Interleaved(d, c, canon, jobs, IDLE, before, x) && CanMove(jobs, x, m)
    requires m.Go? && m.up && x.workers[m.n].Sweeping? && x.workers[m.n].victims == [] && x.workers[m.n].schedules != []
    requires id in x.s.tables.backups && x.s.tables.backups[id].scheduleId == Some(x.workers[m.n].schedules[0].id)
    requires Retention.Expires(x.workers[m.n].schedules[0], m.now, x.s.tables.backups[id].finishedAt)
    requires Interleaved(d, c, canon, jobs, Moved(d, c, canon, x, m), moves, r) && Undisturbed(moves, m.n, id)
    requires m.n in r.workers && r.workers[m.n] == Finished
    ensures id !in r.s.tables.backups
  {
    ConsistentRun(d, c, canon, jobs, IDLE, before, x);
    var v := ListedNow(d, canon, x.s, x.workers[m.n], m, id);
    HeldOrGone(d, c, canon, jobs, Moved(d, c, canon, x, m), moves, r, m.n, v);
  }
}
