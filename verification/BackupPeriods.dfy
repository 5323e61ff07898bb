/** What the tiers hold, counted in weeks and months instead of file names. */
module BackupPeriods {
  import opened BackupRuns
  import opened BackupTiers
  import opened Backups
  import opened Options
  import opened SetSizes

  /** The two runs fall into one period of the tier: one instant, one ISO week, or one month of
      one year. */
  predicate SamePeriod(t: Tier, a: Run, b: Run)
    requires a.WellFormed() && b.WellFormed()
  {
    match t
    case Daily => a.stamp == b.stamp
    case Weekly => a.week == b.week
    case Monthly => forall i :: 0 <= i < 6 ==> a.stamp[i] == b.stamp[i]
  }

  /** Two dumps are given one file of a tier exactly if they fall into one of its periods. */
  lemma SameFileExactly(job: Job, t: Tier, a: Run, b: Run)
    requires a.WellFormed() && b.WellFormed()
    ensures Name(job.db, a.Key(t)) == Name(job.db, b.Key(t)) <==> SamePeriod(t, a, b)
  {
    PrintedNameIsOurs(job, a, t);
    PrintedNameIsOurs(job, b, t);
    if t.Monthly? && a.Key(t) == b.Key(t) {
      forall i | 0 <= i < 6
        ensures a.stamp[i] == b.stamp[i]
      {
        assert a.stamp[..6][i] == b.stamp[..6][i];
      }
    }
  }

  ghost predicate AllWellFormed(runs: seq<Run>) {
    forall i :: 0 <= i < |runs| ==> runs[i].WellFormed()
  }

  function FileOf(job: Job, t: Tier, run: Run): string
    requires run.WellFormed()
  {
    Name(job.db, run.Key(t))
  }

  /** The dump of run `i` is the last one linked in its period, and has not been lost since: the
      later runs of the period all left the old link. */
  ghost predicate IsCurrent(t: Tier, runs: seq<Run>, i: int)
    requires AllWellFormed(runs)
  {
    && 0 <= i < |runs| && runs[i].dump.Some? && runs[i].Link(t) == Linked
    && forall j :: i < j < |runs| && runs[j].dump.Some? && SamePeriod(t, runs[i], runs[j]) ==>
         runs[j].Link(t) == StillOld
  }

  /** The later periods with a current dump, each counted by that dump. */
  ghost function Later(t: Tier, runs: seq<Run>, i: nat): set<int>
    requires AllWellFormed(runs)
  {
    set j | i < j < |runs| && IsCurrent(t, runs, j)
  }

  // ---- the ledger in terms of runs --------------------------------------------

  lemma CurrentOfOneMore(t: Tier, runs: seq<Run>, i: nat)
    requires AllWellFormed(runs) && i < |runs| - 1
    ensures var n := |runs| - 1;
            IsCurrent(t, runs, i) <==>
              && IsCurrent(t, runs[..n], i)
              && (runs[n].dump.Some? && SamePeriod(t, runs[i], runs[n]) ==> runs[n].Link(t) == StillOld)
  {
    var n := |runs| - 1;
    var front := runs[..n];
    assert forall j :: 0 <= j < n ==> front[j] == runs[j];
  }

  /** A link under another name, or none at all, leaves what is listed under `name`. */
  lemma EnteringKeeps(l: Ledger, e: Entry, outcome: LinkOutcome, name: string)
    requires name in Names(l.dumps) && (name == e.name ==> outcome == StillOld)
    ensures var dumps := Enter(l, e, outcome).dumps;
            name in Names(dumps) && LastFor(dumps, name) == LastFor(l.dumps, name)
  {
    NamesOfAppend(l.dumps, e);
    NamesWithout(l.dumps, e.name);
  }

  lemma EnteringAdds(l: Ledger, e: Entry, outcome: LinkOutcome, name: string)
    requires name in Names(Enter(l, e, outcome).dumps)
    ensures if name == e.name && outcome != StillOld then outcome == Linked else name in Names(l.dumps)
  {
    NamesOfAppend(l.dumps, e);
    NamesWithout(l.dumps, e.name);
  }

  /** The ledger lists every current dump under the file of its period. */
  lemma {:induction false} CurrentIsRecorded(job: Job, t: Tier, runs: seq<Run>, h: seq<Entry>, i: nat)
    requires AllWellFormed(runs) && IsCurrent(t, runs, i)
    ensures var dumps := Recorded(job, t, runs, h).dumps;
            FileOf(job, t, runs[i]) in Names(dumps) && LastFor(dumps, FileOf(job, t, runs[i])) == runs[i].dump.value
    decreases |runs|
  {
    var n := |runs| - 1;
    var front, last := runs[..n], runs[n];
    var l := Recorded(job, t, front, h);
    if i == n {
      NamesOfAppend(l.dumps, EntryOf(job, t, last));
    } else {
      CurrentOfOneMore(t, runs, i);
      CurrentIsRecorded(job, t, front, h, i);
      if last.dump.Some? {
        SameFileExactly(job, t, runs[i], last);
        EnteringKeeps(l, EntryOf(job, t, last), last.Link(t), FileOf(job, t, runs[i]));
      }
    }
  }

  /** `name` is the file of a period with a current dump. */
  ghost predicate IsFileOfCurrent(job: Job, t: Tier, runs: seq<Run>, name: string)
    requires AllWellFormed(runs)
  {
    exists i :: IsCurrent(t, runs, i) && FileOf(job, t, runs[i]) == name
  }

  lemma CurrentStays(job: Job, t: Tier, runs: seq<Run>, name: string)
    requires AllWellFormed(runs) && runs != [] && IsFileOfCurrent(job, t, runs[..|runs| - 1], name)
    requires var last := runs[|runs| - 1];
             last.dump.Some? && name == FileOf(job, t, last) ==> last.Link(t) == StillOld
    ensures IsFileOfCurrent(job, t, runs, name)
  {
    var front, last := runs[..|runs| - 1], runs[|runs| - 1];
    var i :| IsCurrent(t, front, i) && FileOf(job, t, front[i]) == name;
    CurrentOfOneMore(t, runs, i);
    SameFileExactly(job, t, runs[i], last);
  }

  /** And beside those only what the tier listed at first. */
  lemma {:induction false} RecordedIsCurrent(job: Job, t: Tier, runs: seq<Run>, h: seq<Entry>, name: string)
    requires AllWellFormed(runs) && name in Names(Recorded(job, t, runs, h).dumps)
    ensures name in Names(h) || IsFileOfCurrent(job, t, runs, name)
    decreases |runs|
  {
    if runs != [] {
      var n := |runs| - 1;
      var front, last := runs[..n], runs[n];
      var l := Recorded(job, t, front, h);
      if last.dump.Some? {
        EnteringAdds(l, EntryOf(job, t, last), last.Link(t), name);
      }
      if last.dump.Some? && last.Link(t) == Linked && name == FileOf(job, t, last) {
        assert IsCurrent(t, runs, n);
      } else {
        RecordedIsCurrent(job, t, front, h, name);
        if IsFileOfCurrent(job, t, front, name) {
          CurrentStays(job, t, runs, name);
        }
      }
    }
  }

  // ---- ranks ------------------------------------------------------------------

  function NewerThan(name: string, all: set<string>, db: string): set<string> {
    set m | m in all && Older(name, m, db)
  }

  /** A name is among the newest `n` exactly if fewer than `n` names are newer. */
  lemma NewestByRank(newest: set<string>, all: set<string>, n: nat, name: string, db: string)
    requires IsNewest(newest, all, n, db) && name in all
    ensures name in newest <==> |NewerThan(name, all, db)| < n
  {
    var newer := NewerThan(name, all, db);
    OlderIsStrictOrder(name, name, name, db);
    if name in newest {
      forall m | m in newer
        ensures m in newest
      {
        OlderIsStrictOrder(name, m, name, db);
      }
      assert |newer + {name}| == |newer| + 1;
      SubsetIsSmaller(newer + {name}, newest);
    } else {
      SubsetIsSmaller(newest + {name}, all);
      assert |newest + {name}| == |newest| + 1;
      SubsetIsSmaller(newest, newer);
    }
  }

  /** Periods come in the order of the runs. */
  lemma LaterIsNewer(job: Job, t: Tier, runs: seq<Run>, i: nat, j: nat)
    requires AllWellFormed(runs) && InOrder(runs) && i < j < |runs|
    requires IsCurrent(t, runs, i) && IsCurrent(t, runs, j)
    ensures Older(FileOf(job, t, runs[i]), FileOf(job, t, runs[j]), job.db)
  {
    PrintedNameIsOurs(job, runs[i], t);
    PrintedNameIsOurs(job, runs[j], t);
    KeysDoNotDecrease(runs[i], runs[j], t);
    SameFileExactly(job, t, runs[i], runs[j]);
    OlderIsStrictOrder(FileOf(job, t, runs[i]), FileOf(job, t, runs[j]), "", job.db);
  }

  lemma CurrentFilesDiffer(job: Job, t: Tier, runs: seq<Run>, j: nat, k: nat)
    requires AllWellFormed(runs) && IsCurrent(t, runs, j) && IsCurrent(t, runs, k) && j != k
    ensures FileOf(job, t, runs[j]) != FileOf(job, t, runs[k])
  {
    SameFileExactly(job, t, runs[j], runs[k]);
    SameFileExactly(job, t, runs[k], runs[j]);
  }

  /** The files of the later periods with a current dump. */
  ghost function LaterFiles(job: Job, t: Tier, runs: seq<Run>, i: nat): set<string>
    requires AllWellFormed(runs)
  {
    set j | j in Later(t, runs, i) :: FileOf(job, t, runs[j])
  }

  lemma AsManyLaterFiles(job: Job, t: Tier, runs: seq<Run>, i: nat)
    requires AllWellFormed(runs)
    ensures |LaterFiles(job, t, runs, i)| == |Later(t, runs, i)|
  {
    var later := Later(t, runs, i);
    var files := map j | j in later :: FileOf(job, t, runs[j]);
    forall j, k | j in later && k in later && j != k
      ensures files[j] != files[k]
    {
      CurrentFilesDiffer(job, t, runs, j, k);
    }
    ImageHasSize(later, files, LaterFiles(job, t, runs, i));
  }

  lemma LaterFileIsNewer(job: Job, t: Tier, runs: seq<Run>, h: seq<Entry>, i: nat, name: string)
    requires AllWellFormed(runs) && InOrder(runs) && IsCurrent(t, runs, i) && name in LaterFiles(job, t, runs, i)
    ensures name in NewerThan(FileOf(job, t, runs[i]), Names(Recorded(job, t, runs, h).dumps), job.db)
  {
    var j :| j in Later(t, runs, i) && FileOf(job, t, runs[j]) == name;
    CurrentIsRecorded(job, t, runs, h, j);
    LaterIsNewer(job, t, runs, i, j);
  }

  lemma EarlierIsNotNewer(job: Job, t: Tier, runs: seq<Run>, i: nat, j: nat)
    requires AllWellFormed(runs) && InOrder(runs) && j <= i < |runs|
    requires IsCurrent(t, runs, i) && IsCurrent(t, runs, j)
    ensures !Older(FileOf(job, t, runs[i]), FileOf(job, t, runs[j]), job.db)
  {
    if j < i {
      LaterIsNewer(job, t, runs, j, i);
    }
    OlderIsStrictOrder(FileOf(job, t, runs[i]), FileOf(job, t, runs[j]), "", job.db);
  }

  lemma NewerAreLater(job: Job, t: Tier, runs: seq<Run>, h: seq<Entry>, i: nat, name: string)
    requires AllWellFormed(runs) && InOrder(runs) && NotOlderThan(job, t, runs, h) && IsCurrent(t, runs, i)
    requires name in Names(Recorded(job, t, runs, h).dumps) && Older(FileOf(job, t, runs[i]), name, job.db)
    ensures name in LaterFiles(job, t, runs, i)
  {
    RecordedIsCurrent(job, t, runs, h, name);
    var j :| IsCurrent(t, runs, j) && FileOf(job, t, runs[j]) == name;
    if j <= i {
      EarlierIsNotNewer(job, t, runs, i, j);
    }
  }

  /** The files that are newer are exactly these. */
  lemma NewerAreLaterFiles(job: Job, t: Tier, runs: seq<Run>, h: seq<Entry>, i: nat)
    requires AllWellFormed(runs) && InOrder(runs) && NotOlderThan(job, t, runs, h) && IsCurrent(t, runs, i)
    ensures NewerThan(FileOf(job, t, runs[i]), Names(Recorded(job, t, runs, h).dumps), job.db)
         == LaterFiles(job, t, runs, i)
  {
    var newer := NewerThan(FileOf(job, t, runs[i]), Names(Recorded(job, t, runs, h).dumps), job.db);
    forall name
      ensures name in newer <==> name in LaterFiles(job, t, runs, i)
    {
      if name in newer {
        NewerAreLater(job, t, runs, h, i, name);
      } else if name in LaterFiles(job, t, runs, i) {
        LaterFileIsNewer(job, t, runs, h, i, name);
      }
    }
  }

  // ---- what a tier holds ------------------------------------------------------

  /** After any runs and failures: the dump of a period, the last one linked in it, is in the
      tier if fewer than `k` later periods have one, where `k` is what the tier keeps, or one
      fewer while its newest file is lost; and if nothing was in the way of deleting, only then. */
  lemma PeriodsAreHeld(job: Job, t: Tier, dirs: seq<Dirs>, runs: seq<Run>, h: seq<Entry>, i: nat)
    requires Orderly(job, t, dirs, runs, h) && IsCurrent(t, runs, i)
    ensures var files, file := dirs[|runs|].Of(t), FileOf(job, t, runs[i]);
            var room := Recorded(job, t, runs, h).Room(job.Keep(t));
            && (|Later(t, runs, i)| < room ==> file in files)
            && (Settled(job, t, runs, h) && file in files ==> |Later(t, runs, i)| < room)
            && (file in files ==> files[file] == runs[i].dump.value)
            && (NoneLost(t, runs) ==> room == job.Keep(t))
  {
    var files, file := dirs[|runs|].Of(t), FileOf(job, t, runs[i]);
    var l := Recorded(job, t, runs, h);
    var room := l.Room(job.Keep(t));
    TiersHoldTheNewest(job, t, dirs, runs, h);
    CurrentIsRecorded(job, t, runs, h, i);
    NewerAreLaterFiles(job, t, runs, h, i);
    AsManyLaterFiles(job, t, runs, i);
    PrintedNameIsOurs(job, runs[i], t);
    var newest :| IsNewest(newest, Names(l.dumps), room, job.db) && newest <= OursIn(files.Keys, job.db);
    NewestByRank(newest, Names(l.dumps), room, file, job.db);
    if Settled(job, t, runs, h) {
      NewestByRank(OursIn(files.Keys, job.db), Names(l.dumps), room, file, job.db);
    }
  }

  lemma PeriodFile(db: string, key: string)
    ensures Name(db, key) == db + "-" + key + ".sql.gz"
  {
    assert db + ("-" + (key + ".sql.gz")) == db + "-" + key + ".sql.gz";
  }

  /** With no link lost, `weekly` holds a file for each of the newest `keepWeeks` ISO weeks in which
      a dump was linked, with the last dump linked in that week; and once the last runs could
      delete, for no older week. */
  lemma WeeksAreHeld(job: Job, dirs: seq<Dirs>, runs: seq<Run>, h: seq<Entry>, i: nat)
    requires Orderly(job, Weekly, dirs, runs, h) && i < |runs| && runs[i].dump.Some? && runs[i].weeklyLink == Linked
    requires forall j :: 0 <= j < |runs| ==> runs[j].weeklyLink != Lost
    requires forall j :: i < j < |runs| && runs[j].dump.Some? && runs[j].week == runs[i].week ==>
      runs[j].weeklyLink == StillOld
    ensures var files, file := dirs[|runs|].weekly, job.db + "-" + runs[i].week + ".sql.gz";
            var later := |Later(Weekly, runs, i)|;
            && (later < job.keepWeeks ==> file in files)
            && (Settled(job, Weekly, runs, h) && file in files ==> later < job.keepWeeks)
            && (file in files ==> files[file] == runs[i].dump.value)
  {
    assert NoneLost(Weekly, runs) && IsCurrent(Weekly, runs, i);
    PeriodsAreHeld(job, Weekly, dirs, runs, h, i);
    PeriodFile(job.db, runs[i].week);
  }

  /** So does `monthly` for the newest `keepMonths` months, told by the year and month of the
      stamps. */
  lemma MonthsAreHeld(job: Job, dirs: seq<Dirs>, runs: seq<Run>, h: seq<Entry>, i: nat)
    requires Orderly(job, Monthly, dirs, runs, h) && i < |runs| && runs[i].dump.Some? && runs[i].monthlyLink == Linked
    requires forall j :: 0 <= j < |runs| ==> runs[j].monthlyLink != Lost
    requires forall j :: i < j < |runs| && runs[j].dump.Some? && runs[j].stamp[..6] == runs[i].stamp[..6] ==>
      runs[j].monthlyLink == StillOld
    ensures var files, file := dirs[|runs|].monthly, job.db + "-" + runs[i].stamp[..6] + ".sql.gz";
            var later := |Later(Monthly, runs, i)|;
            && (later < job.keepMonths ==> file in files)
            && (Settled(job, Monthly, runs, h) && file in files ==> later < job.keepMonths)
            && (file in files ==> files[file] == runs[i].dump.value)
  {
    forall j | i < j < |runs| && runs[j].dump.Some? && SamePeriod(Monthly, runs[i], runs[j])
      ensures runs[j].monthlyLink == StillOld
    {
      assert runs[j].stamp[..6] == runs[i].stamp[..6];
    }
    assert NoneLost(Monthly, runs) && IsCurrent(Monthly, runs, i);
    PeriodsAreHeld(job, Monthly, dirs, runs, h, i);
    PeriodFile(job.db, runs[i].stamp[..6]);
  }

  /** Every dump in the tier is that of a period, or was there at first. */
  lemma NothingElseIsHeld(job: Job, t: Tier, dirs: seq<Dirs>, runs: seq<Run>, h: seq<Entry>, name: string)
    requires Orderly(job, t, dirs, runs, h) && name in OursIn(dirs[|runs|].Of(t).Keys, job.db)
    ensures name in Names(h) || IsFileOfCurrent(job, t, runs, name)
  {
    TiersHoldTheNewest(job, t, dirs, runs, h);
    RecordedIsCurrent(job, t, runs, h, name);
  }
}
