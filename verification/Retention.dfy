/** The retention pass. Each schedule gets its own reading of the clock, as in the code. */
module Retention {
  import opened GoText
  import opened Metadata
  import opened Adapters
  import opened Lifecycle
  import opened Backup
  import DumpPipe

  /** The time read when the pass reaches a schedule. */
  type Clock = Text -> int

  function Cutoff(now: int, days: int): int { now - days * DAY }

  predicate Expires(sc: Schedule, now: int, finishedAt: int) {
    sc.retentionDays > 0 && finishedAt < Cutoff(now, sc.retentionDays)
  }

  predicate Expired(t: Tables, clock: Clock, id: Text)
    requires id in t.backups
  {
    var s := t.backups[id].scheduleId;
    s.Some? && s.value in t.schedules && Expires(t.schedules[s.value], clock(s.value), t.backups[id].finishedAt)
  }

  /** The calls of one pass that fail: listings by schedule, deletions by backup. */
  datatype Faults = Faults(listings: set<Text>, objects: set<Text>, rows: set<Text>)

  const NO_FAULTS := Faults({}, {}, {})

  /** The backups that the pass tries to delete. */
  function Due(t: Tables, clock: Clock, f: Faults): set<Text> {
    set id | id in t.backups && Expired(t, clock, id) && t.backups[id].scheduleId.value !in f.listings
  }

  function GoneKeys(d: Storage, t: Tables, ids: set<Text>): set<Text> {
    set id | id in ids && id in t.backups :: d.delete(t.backups[id].path)
  }

  function Removed(d: Storage, st: Stores, ids: set<Text>, f: Faults): Stores {
    Stores(st.objects - GoneKeys(d, st.tables, ids - f.objects),
           st.tables.(backups := st.tables.backups - (ids - f.rows)))
  }

  /** The state after a pass: exactly the due backups go, as far as their deletions succeed. */
  function Pass(d: Storage, st: Stores, clock: Clock, f: Faults): Stores {
    Removed(d, st, Due(st.tables, clock, f), f)
  }

  ghost predicate CanonicalIds(canon: Canon, t: Tables) {
    forall id | id in t.backups :: canon(id) == Some(id)
  }

  /** The due backups of one schedule. */
  ghost function DueOf(t: Tables, sc: Schedule, now: int, f: Faults): set<Text> {
    set id | id in t.backups && t.backups[id].scheduleId == Some(sc.id)
             && Expires(sc, now, t.backups[id].finishedAt) && sc.id !in f.listings
  }

  ghost function OldOnes(rows: seq<Metadata.Backup>, cutoff: int): set<Text> {
    set b | b in rows && b.finishedAt < cutoff :: b.id
  }

  lemma OneMoreRow(rows: seq<Metadata.Backup>, k: nat, cutoff: int)
    requires k < |rows|
    ensures OldOnes(rows[..k + 1], cutoff)
         == OldOnes(rows[..k], cutoff) + if rows[k].finishedAt < cutoff then {rows[k].id} else {}
  {
  }

  /** The inner loop. `st` is the state before the pass and `gone` what it has handled so far. */
  method PurgeSchedule(disk: Disk, store: Store, sc: Schedule, now: int, f: Faults,
                       ghost st: Stores, ghost gone: set<Text>)
    requires CanonicalIds(store.canon, st.tables) && Consistent(st.tables) && sc.retentionDays > 0
    requires gone <= st.tables.backups.Keys
    requires Stores(disk.objects, store.State()) == Removed(disk.adapter, st, gone, f)
    modifies disk, store
    ensures Stores(disk.objects, store.State()) == Removed(disk.adapter, st, gone + DueOf(st.tables, sc, now, f), f)
  {
    var rows := store.ListBackupsBySchedule(sc.id, sc.id !in f.listings);
    if rows.None? {
      assert gone + DueOf(st.tables, sc, now, f) == gone;
      return;
    }
    var backups, cutoff := rows.value, Cutoff(now, sc.retentionDays);
    assert forall i | 0 <= i < |backups| :: backups[i] in backups;
    ghost var done := gone;
    var k := 0;
    while k < |backups|
      invariant 0 <= k <= |backups|
      invariant done == gone + OldOnes(backups[..k], cutoff)
      invariant Stores(disk.objects, store.State()) == Removed(disk.adapter, st, done, f)
    {
      var b := backups[k];
      OneMoreRow(backups, k, cutoff);
      if b.finishedAt < cutoff {
        assert b.id in st.tables.backups && st.tables.backups[b.id] == b;
        RemovedOne(disk.adapter, st, done, b.id, f);
        var _ := disk.Delete(b.path, b.id !in f.objects);
        var _ := store.DeleteBackup(b.id, b.id !in f.rows);
        done := done + {b.id};
      }
      k := k + 1;
    }
    assert backups[..k] == backups;
    ListedAreDue(st.tables, sc, now, f, backups, gone);
  }

  /** The old rows among those still listed, with the ones handled before, are the due ones. */
  lemma ListedAreDue(t: Tables, sc: Schedule, now: int, f: Faults, rows: seq<Metadata.Backup>, gone: set<Text>)
    requires Consistent(t) && sc.retentionDays > 0 && sc.id !in f.listings
    requires forall b ::
               b in rows <==> b.id in t.backups - (gone - f.rows) && t.backups[b.id] == b && b.scheduleId == Some(sc.id)
    ensures gone + OldOnes(rows, Cutoff(now, sc.retentionDays)) == gone + DueOf(t, sc, now, f)
  {
  }

  ghost function HandledBy(t: Tables, clock: Clock, f: Faults, ids: set<Text>): set<Text> {
    set id | id in Due(t, clock, f) && t.backups[id].scheduleId.value in ids
  }

  ghost function IdsOf(scs: seq<Schedule>): set<Text> {
    set sc | sc in scs :: sc.id
  }

  lemma HandledOneMore(t: Tables, clock: Clock, f: Faults, ids: set<Text>, sc: Schedule)
    requires Consistent(t) && sc.id in t.schedules && t.schedules[sc.id] == sc
    ensures HandledBy(t, clock, f, ids + {sc.id}) == HandledBy(t, clock, f, ids) + DueOf(t, sc, clock(sc.id), f)
    ensures sc.retentionDays <= 0 ==> HandledBy(t, clock, f, ids + {sc.id}) == HandledBy(t, clock, f, ids)
  {
  }

  lemma NothingHandled(d: Storage, st: Stores, clock: Clock, f: Faults)
    ensures HandledBy(st.tables, clock, f, {}) == {}
    ensures Removed(d, st, {}, f) == st
  {
  }

  lemma AllHandled(t: Tables, clock: Clock, f: Faults, scs: seq<Schedule>)
    requires Consistent(t)
    requires Lists(scs, t)
    ensures HandledBy(t, clock, f, IdsOf(scs)) == Due(t, clock, f)
  {
  }

  method ApplyRetention(disk: Disk, store: Store, clock: Clock, f: Faults, listing: bool) returns (ok: bool)
    requires CanonicalIds(store.canon, store.State()) && Consistent(store.State())
    modifies disk, store
    ensures ok == listing
    ensures Stores(disk.objects, store.State())
         == if listing then Pass(disk.adapter, Stores(old(disk.objects), old(store.State())), clock, f)
            else Stores(old(disk.objects), old(store.State()))
  {
    var schedules := store.ListSchedules(listing);
    if schedules.None? { return false; }
    ghost var st := Stores(disk.objects, store.State());
    ghost var t := st.tables;
    var i := 0;
    NothingHandled(disk.adapter, st, clock, f);
    assert IdsOf(schedules.value[..0]) == {};
    while i < |schedules.value|
      invariant 0 <= i <= |schedules.value|
      invariant Stores(disk.objects, store.State())
             == Removed(disk.adapter, st, HandledBy(t, clock, f, IdsOf(schedules.value[..i])), f)
    {
      var sc := schedules.value[i];
      ghost var ids := IdsOf(schedules.value[..i]);
      assert IdsOf(schedules.value[..i + 1]) == ids + {sc.id};
      HandledOneMore(t, clock, f, ids, sc);
      if sc.retentionDays > 0 {
        PurgeSchedule(disk, store, sc, clock(sc.id), f, st, HandledBy(t, clock, f, ids));
      }
      i := i + 1;
    }
    assert schedules.value[..i] == schedules.value;
    AllHandled(t, clock, f, schedules.value);
    ok := true;
  }

  lemma RemovedOne(d: Storage, st: Stores, ids: set<Text>, id: Text, f: Faults)
    requires id in st.tables.backups
    ensures var m, r := Removed(d, st, ids, f), Removed(d, st, ids + {id}, f);
            && r.objects == (if id in f.objects then m.objects
                             else m.objects - {d.delete(st.tables.backups[id].path)})
            && r.tables == if id in f.rows then m.tables else DropBackup(m.tables, id)
  {
  }

  // ---- main results ----

  /** A pass without faults keeps exactly the rows with no schedule, with no positive retention, or
      finished at the cutoff or later, and it changes none of those it keeps. */
  lemma PassIsExact(d: Storage, st: Stores, clock: Clock, id: Text)
    requires Consistent(st.tables) && id in st.tables.backups
    ensures var b, r := st.tables.backups[id], Pass(d, st, clock, NO_FAULTS);
            && (id in r.tables.backups
                <==> b.scheduleId == None
                     || st.tables.schedules[b.scheduleId.value].retentionDays <= 0
                     || b.finishedAt >= clock(b.scheduleId.value)
                                       - st.tables.schedules[b.scheduleId.value].retentionDays * DAY)
            && (id in r.tables.backups ==> r.tables.backups[id] == b)
            && r.tables.schedules == st.tables.schedules
            && r.tables.backups.Keys <= st.tables.backups.Keys
  {
  }

  /** Under any faults: an expired row goes unless its schedule's listing or its own deletion fails, and an
      object goes exactly if it is that of an expired row that was listed and whose object could be deleted. */
  lemma PassUnderFaults(d: Storage, st: Stores, clock: Clock, f: Faults)
    requires Consistent(st.tables)
    ensures var r := Pass(d, st, clock, f);
            && r.tables.schedules == st.tables.schedules
            && (forall id :: id in r.tables.backups <==>
                 id in st.tables.backups
                 && (!Expired(st.tables, clock, id) || st.tables.backups[id].scheduleId.value in f.listings
                     || id in f.rows))
            && (forall id | id in r.tables.backups :: r.tables.backups[id] == st.tables.backups[id])
            && (forall k :: k in r.objects <==>
                 k in st.objects
                 && !exists id :: id in st.tables.backups && Expired(st.tables, clock, id)
                                  && st.tables.backups[id].scheduleId.value !in f.listings && id !in f.objects
                                  && d.delete(st.tables.backups[id].path) == k)
            && forall k | k in r.objects :: r.objects[k] == st.objects[k]
  {
  }

  lemma LaterDue(t: Tables, c1: Clock, c2: Clock)
    requires forall s :: c1(s) <= c2(s)
    ensures Due(t, c1, NO_FAULTS) <= Due(t, c2, NO_FAULTS)
    ensures Due(t.(backups := t.backups - Due(t, c1, NO_FAULTS)), c2, NO_FAULTS)
         == Due(t, c2, NO_FAULTS) - Due(t, c1, NO_FAULTS)
  {
  }

  lemma GoneKeysSplit(d: Storage, t: Tables, ids: set<Text>, more: set<Text>)
    requires ids <= more
    ensures GoneKeys(d, t.(backups := t.backups - ids), more - ids) == GoneKeys(d, t, more - ids)
    ensures GoneKeys(d, t, ids) + GoneKeys(d, t, more - ids) == GoneKeys(d, t, more)
  {
  }

  /** A pass and a later one leave what the later one alone leaves. */
  lemma PassesCompose(d: Storage, st: Stores, c1: Clock, c2: Clock)
    requires forall s :: c1(s) <= c2(s)
    ensures Pass(d, Pass(d, st, c1, NO_FAULTS), c2, NO_FAULTS) == Pass(d, st, c2, NO_FAULTS)
  {
    var t := st.tables;
    var due1, due2 := Due(t, c1, NO_FAULTS), Due(t, c2, NO_FAULTS);
    var none: set<Text> := {};
    assert due1 - none == due1 && due2 - none == due2 && due2 - due1 - none == due2 - due1;
    LaterDue(t, c1, c2);
    GoneKeysSplit(d, t, due1, due2);
    assert t.backups - due1 - (due2 - due1) == t.backups - due2;
    var g1, g2 := GoneKeys(d, t, due1), GoneKeys(d, t, due2 - due1);
    assert st.objects - g1 - g2 == st.objects - (g1 + g2);
  }

  function WithDays(t: Tables, schedule: Text, days: int): Tables
    requires schedule in t.schedules
  {
    t.(schedules := t.schedules[schedule := t.schedules[schedule].(retentionDays := days)])
  }

  /** A pass over the edited schedules keeps all rows and objects that a pass over the old ones keeps. */
  ghost predicate KeepsMore(d: Storage, st: Stores, schedule: Text, days: int, clock: Clock)
    requires schedule in st.tables.schedules
  {
    var before := Pass(d, st, clock, NO_FAULTS);
    var after := Pass(d, st.(tables := WithDays(st.tables, schedule, days)), clock, NO_FAULTS);
    before.tables.backups.Keys <= after.tables.backups.Keys && before.objects.Keys <= after.objects.Keys
  }

  lemma FewerDue(d: Storage, st: Stores, schedule: Text, days: int, clock: Clock)
    requires schedule in st.tables.schedules && (days <= 0 || 0 < st.tables.schedules[schedule].retentionDays <= days)
    ensures KeepsMore(d, st, schedule, days, clock)
  {
    var t := WithDays(st.tables, schedule, days);
    assert Due(t, clock, NO_FAULTS) <= Due(st.tables, clock, NO_FAULTS);
  }

  /** The newest backup that the new setting removes, alone in its table. */
  lemma OneMoreDue(d: Storage, schedules: map<Text, Schedule>, schedule: Text, days: int, clock: Clock)
    returns (st: Stores)
    requires schedule in schedules && days > 0 && !(0 < schedules[schedule].retentionDays <= days)
    ensures st.tables.schedules == schedules && !KeepsMore(d, st, schedule, days, clock)
  {
    var id: Text := [];
    var b := Metadata.Backup(id, [], [], [], 0, Cutoff(clock(schedule), days) - 1, Some(schedule));
    st := Stores(map[], Tables(map[id := b], schedules));
    var t := WithDays(st.tables, schedule, days);
    assert id in Due(t, clock, NO_FAULTS) && id !in Due(st.tables, clock, NO_FAULTS);
    assert id in Pass(d, st, clock, NO_FAULTS).tables.backups.Keys;
    assert id !in Pass(d, st.(tables := t), clock, NO_FAULTS).tables.backups.Keys;
  }

  /** Exactly which changes of one schedule's retention days make a pass keep at least what it kept
      before, whatever backups there are: those that stay positive and do not fall, and those that
      switch retention off. Going from zero to any positive number removes backups that were kept. */
  lemma LongerKeepsMore(d: Storage, schedules: map<Text, Schedule>, schedule: Text, days: int, clock: Clock)
    requires schedule in schedules
    ensures (forall st: Stores | st.tables.schedules == schedules :: KeepsMore(d, st, schedule, days, clock))
       <==> days <= 0 || 0 < schedules[schedule].retentionDays <= days
  {
    if days <= 0 || 0 < schedules[schedule].retentionDays <= days {
      forall st: Stores | st.tables.schedules == schedules ensures KeepsMore(d, st, schedule, days, clock) {
        FewerDue(d, st, schedule, days, clock);
      }
    } else {
      var st := OneMoreDue(d, schedules, schedule, days, clock);
    }
  }

  /** Whatever calls fail, every row that has not expired stays, with its object. */
  lemma FaultsSpareUnexpired(d: Storage, c: DumpPipe.Codec, jobs: set<Job>, s: System, clock: Clock, f: Faults,
                             id: Text)
    requires Apart(KeysOf(d), jobs) && Inv(KeysOf(d), c, jobs, s)
    requires id in s.tables.backups && !Expired(s.tables, clock, id)
    ensures var r := Pass(d, Stores(s.objects, s.tables), clock, f);
            && id in r.tables.backups && r.tables.backups[id] == s.tables.backups[id]
            && (s.rows[id] !in s.deleted ==> ObjectIntact(KeysOf(d), c, r.objects, s.rows[id]))
  {
  }

  lemma {:induction false} OrphanKept(keys: Keys, c: DumpPipe.Codec, jobs: set<Job>, s: System, steps: seq<Step>,
                                      r: System, id: Text)
    requires Runs(keys, c, jobs, s, steps, r) && Step.DeleteRow(id) !in steps
    requires id in s.tables.backups && s.tables.backups[id].scheduleId == None
    ensures id in r.tables.backups && r.tables.backups[id] == s.tables.backups[id]
    decreases |steps|
  {
    if steps != [] {
      assert steps[0] in steps && forall t | t in steps[1..] :: t in steps;
      OrphanKept(keys, c, jobs, Apply(keys, c, s, steps[0]), steps[1..], r, id);
    }
  }

  /** Backups whose schedule was deleted: after any further run of atomic steps that does not delete
      the row itself, the row is as it was but for the reference, and no pass at any time, under any
      faults, has it among the backups to delete. */
  lemma OrphansStay(keys: Keys, c: DumpPipe.Codec, jobs: set<Job>, s: System, schedule: Text, steps: seq<Step>,
                    r: System, id: Text)
    requires id in s.tables.backups && s.tables.backups[id].scheduleId == Some(schedule)
    requires Runs(keys, c, jobs, Apply(keys, c, s, DeleteSchedule(schedule)), steps, r) && Step.DeleteRow(id) !in steps
    ensures id in r.tables.backups && r.tables.backups[id] == s.tables.backups[id].(scheduleId := None)
    ensures forall clock, f :: id !in Due(r.tables, clock, f)
  {
    OrphanKept(keys, c, jobs, Apply(keys, c, s, DeleteSchedule(schedule)), steps, r, id);
  }
}
