/** The nightly backup job over its three tier directories. */
module BackupRuns {
  import opened Backups
  import opened Basics
  import opened Options
  import opened Utf8

  type Bytes = seq<bv8>

  /** The regular files of one tier directory. */
  type Files = map<string, Bytes>

  datatype Tier = Daily | Weekly | Monthly {
    /** The order in which tiers are rotated. */
    function Rank(): nat {
      match this
      case Daily => 0
      case Weekly => 1
      case Monthly => 2
    }
  }

  /** The directories, and whether the job still runs: a panic ends it. */
  datatype Dirs = Dirs(daily: Files, weekly: Files, monthly: Files, running: bool) {
    function Of(t: Tier): Files {
      match t
      case Daily => daily
      case Weekly => weekly
      case Monthly => monthly
    }
  }

  datatype Job = Job(db: string, keepDays: nat, keepWeeks: nat, keepMonths: nat) {
    function Keep(t: Tier): nat {
      match t
      case Daily => keepDays
      case Weekly => keepWeeks
      case Monthly => keepMonths
    }
  }

  /** What became of a tier's link: made; the old one could not be removed; the old one was
      removed and the new one could not be made. */
  datatype LinkOutcome = Linked | StillOld | Lost

  /** One run: its local time stamp `YYYYMMDD-HHMMSS`, the ISO year and week of that day, what
      `pg_dump` produced, if its output passed the integrity check, how linking went, and the
      names of the files that could not be deleted. */
  datatype Run = Run(
    stamp: string, week: string, dump: Option<Bytes>,
    weeklyLink: LinkOutcome, monthlyLink: LinkOutcome, stuck: set<string>)
  {
    predicate WellFormed() {
      IsKey(stamp) && |stamp| == 15 && IsKey(week) && |week| == 6
    }

    function Key(t: Tier): string
      requires WellFormed()
    {
      match t
      case Daily => stamp
      case Weekly => week
      case Monthly => stamp[..6]
    }

    /** The dump itself is in `daily` before anything is linked. */
    function Link(t: Tier): LinkOutcome {
      match t
      case Daily => Linked
      case Weekly => weeklyLink
      case Monthly => monthlyLink
    }
  }

  // ---- one tier ---------------------------------------------------------------

  /** A file whose name makes the recogniser panic. Names that are not UTF-8 are passed over. */
  predicate Trap(name: string, db: string) {
    IsUtf8(name) && ParseDumpKey(name, db).Panics?
  }

  ghost predicate HasTrap(files: Files, db: string) {
    exists n :: n in files && Trap(n, db)
  }

  /** Rotation deletes our own dumps, all but the newest `keep` and those that are stuck. */
  ghost predicate Rotated(before: Files, after: Files, keep: nat, db: string, stuck: set<string>) {
    exists newest ::
      IsNewest(newest, OursIn(before.Keys, db), keep, db) && after == before - (OursIn(before.Keys, db) - newest - stuck)
  }

  lemma RotatedIsUnique(before: Files, x: Files, y: Files, keep: nat, db: string, stuck: set<string>)
    requires Rotated(before, x, keep, db, stuck) && Rotated(before, y, keep, db, stuck)
    ensures x == y
  {
    var ours := OursIn(before.Keys, db);
    var m :| IsNewest(m, ours, keep, db) && x == before - (ours - m - stuck);
    var n :| IsNewest(n, ours, keep, db) && y == before - (ours - n - stuck);
    NewestIsUnique(m, n, ours, keep, db);
  }

  method Listing(files: Files) returns (names: seq<string>)
    ensures Distinct(names) && forall n :: n in names <==> n in files && IsUtf8(n)
  {
    names := [];
    var left := files.Keys;
    while left != {}
      invariant left <= files.Keys && Distinct(names)
      invariant forall n :: n in names <==> n in files && n !in left && IsUtf8(n)
      decreases |left|
    {
      var n :| n in left;
      if IsUtf8(n) {
        names := names + [n];
      }
      left := left - {n};
    }
  }

  lemma ListedOurs(files: Files, names: seq<string>, db: string)
    requires IsUtf8(db) && forall n :: n in names <==> n in files && IsUtf8(n)
    ensures OursIn(Elements(names), db) == OursIn(files.Keys, db)
    ensures SomePanics(names, db) <==> HasTrap(files, db)
  {
    forall n | n in files && Ours(n, db)
      ensures n in names
    {
      OursAreUtf8(n, db);
    }
    assert forall n :: n in names && ParseDumpKey(n, db).Panics? ==> Trap(n, db);
  }

  lemma DeletingRotates(files: Files, gone: set<string>, keep: nat, db: string, stuck: set<string>)
    requires gone <= OursIn(files.Keys, db)
    requires IsNewest(OursIn(files.Keys, db) - gone, OursIn(files.Keys, db), keep, db)
    ensures Rotated(files, files - (gone - stuck), keep, db, stuck)
  {
    var ours := OursIn(files.Keys, db);
    assert ours - (ours - gone) == gone;
  }

  method AnyPanics(names: seq<string>, db: string) returns (panics: bool)
    ensures panics <==> SomePanics(names, db)
  {
    for i := 0 to |names|
      invariant forall k :: 0 <= k < i ==> !ParseDumpKey(names[k], db).Panics?
    {
      if ParseDumpKey(names[i], db).Panics? {
        assert names[i] in names;
        return true;
      }
    }
    return false;
  }

  method DeleteFiles(files: Files, names: seq<string>, stuck: set<string>) returns (left: Files)
    ensures left == files - (Elements(names) - stuck)
  {
    left := files;
    for i := 0 to |names|
      invariant left == files - (Elements(names[..i]) - stuck)
    {
      assert Elements(names[..i + 1]) == Elements(names[..i]) + {names[i]};
      if names[i] !in stuck {
        left := left - {names[i]};
      }
    }
    assert names[..|names|] == names;
  }

  /** List the directory, decide, delete file by file. `None` when the recogniser panics. */
  method Rotate(files: Files, db: string, keep: nat, stuck: set<string>) returns (kept: Option<Files>)
    requires keep > 0 && IsUtf8(db)
    ensures kept.None? <==> HasTrap(files, db)
    ensures kept.Some? ==> Rotated(files, kept.value, keep, db, stuck)
  {
    var names := Listing(files);
    ListedOurs(files, names, db);
    var deleted := RotationDeletions(names, db, keep);
    if deleted.None? {
      return None;
    }
    DeletingRotates(files, Elements(deleted.value), keep, db, stuck);
    var left := DeleteFiles(files, deleted.value, stuck);
    return Some(left);
  }

  // ---- one run ----------------------------------------------------------------

  /** A tier before rotation: the dump is linked in, if the tier is active and linking worked.
      `daily` receives every dump. */
  function WithLink(job: Job, t: Tier, files: Files, run: Run): Files
    requires run.WellFormed() && run.dump.Some?
  {
    if job.Keep(t) == 0 && !t.Daily? then files
    else
      var name := Name(job.db, run.Key(t));
      match run.Link(t)
      case Linked => files[name := run.dump.value]
      case StillOld => files
      case Lost => files - {name}
  }

  function WithLinks(job: Job, dirs: Dirs, run: Run): Dirs
    requires run.WellFormed() && run.dump.Some?
  {
    Dirs(WithLink(job, Daily, dirs.daily, run), WithLink(job, Weekly, dirs.weekly, run),
         WithLink(job, Monthly, dirs.monthly, run), dirs.running)
  }

  /** No active tier, up to `t` in the order of rotation, holds a trap. */
  ghost predicate Reached(job: Job, dirs: Dirs, t: Tier) {
    forall u: Tier :: u.Rank() <= t.Rank() && job.Keep(u) > 0 ==> !HasTrap(dirs.Of(u), job.db)
  }

  ghost predicate NoTraps(job: Job, dirs: Dirs) {
    forall t: Tier :: job.Keep(t) > 0 ==> !HasTrap(dirs.Of(t), job.db)
  }

  /** What rotation makes of one tier. */
  ghost predicate TierAfter(job: Job, t: Tier, linked: Dirs, after: Files, stuck: set<string>) {
    if job.Keep(t) == 0 || !Reached(job, linked, t) then after == linked.Of(t)
    else Rotated(linked.Of(t), after, job.Keep(t), job.db, stuck)
  }

  ghost predicate AllRotated(job: Job, linked: Dirs, after: Dirs, stuck: set<string>) {
    && after.running == (linked.running && NoTraps(job, linked))
    && forall t: Tier :: TierAfter(job, t, linked, after.Of(t), stuck)
  }

  ghost predicate RunStep(job: Job, before: Dirs, run: Run, after: Dirs)
    requires run.WellFormed()
  {
    if !before.running || run.dump.None? then after == before
    else AllRotated(job, WithLinks(job, before, run), after, run.stuck)
  }

  /** A start changes no file, and a panic ends the job. */
  ghost predicate BootStep(job: Job, before: Dirs, after: Dirs) {
    after == before.(running := before.running && !HasTrap(before.daily, job.db))
  }

  class BackupJob {
    const job: Job
    var daily: Files
    var weekly: Files
    var monthly: Files
    var running: bool

    constructor (job: Job, dirs: Dirs)
      ensures this.job == job && Contents() == dirs
    {
      this.job := job;
      daily, weekly, monthly, running := dirs.daily, dirs.weekly, dirs.monthly, dirs.running;
    }

    function Contents(): Dirs
      reads this
    {
      Dirs(daily, weekly, monthly, running)
    }

    /** At start the age of the newest dump is looked up in `daily`, name by name, to decide
        whether a run is due at once. */
    method Boot()
      requires IsUtf8(job.db)
      modifies this`running
      ensures BootStep(job, old(Contents()), Contents())
    {
      var names := Listing(daily);
      ListedOurs(daily, names, job.db);
      var panics := AnyPanics(names, job.db);
      running := running && !panics;
    }

    /** Dump, link the dump into the other tiers, then rotate each tier. A link shares the bytes
        of the daily file, which are never rewritten, so it is modelled as a copy. */
    method RunOnce(run: Run)
      requires run.WellFormed() && IsUtf8(job.db)
      modifies this
      ensures RunStep(job, old(Contents()), run, Contents())
    {
      if !running || run.dump.None? {
        return;
      }
      var name := Name(job.db, run.stamp);
      daily := daily[name := run.dump.value];
      if job.keepWeeks > 0 {
        weekly := RefreshTierLink(weekly, Name(job.db, run.week), daily[name], run.weeklyLink);
      }
      if job.keepMonths > 0 {
        monthly := RefreshTierLink(monthly, Name(job.db, run.stamp[..6]), daily[name], run.monthlyLink);
      }
      RotateTiers(run.stuck);
    }

    /** Each active tier in turn; a panic on the way ends the job. */
    method RotateTiers(stuck: set<string>)
      requires IsUtf8(job.db) && running
      modifies this
      ensures AllRotated(job, old(Contents()), Contents(), stuck)
    {
      ghost var was := Contents();
      var left := RotateTier(daily, job.db, job.keepDays, stuck);
      if left.Some? {
        daily := left.value;
        left := RotateTier(weekly, job.db, job.keepWeeks, stuck);
        if left.Some? {
          weekly := left.value;
          left := RotateTier(monthly, job.db, job.keepMonths, stuck);
          if left.Some? {
            monthly := left.value;
          }
        }
      }
      running := left.Some?;
      RotatedInOrder(job, was, Contents(), stuck);
    }
  }

  /** What `RotateTier` makes of one tier. */
  ghost predicate TierDone(job: Job, t: Tier, before: Dirs, after: Dirs, stuck: set<string>) {
    if job.Keep(t) == 0 then after.Of(t) == before.Of(t)
    else Rotated(before.Of(t), after.Of(t), job.Keep(t), job.db, stuck)
  }

  /** Up to the first tier that does not pass the tiers are rotated, and no further. */
  lemma RotatedInOrder(job: Job, was: Dirs, after: Dirs, stuck: set<string>)
    requires was.running
    requires after.running == (Passes(job, was, Daily) && Passes(job, was, Weekly) && Passes(job, was, Monthly))
    requires if Passes(job, was, Daily) then TierDone(job, Daily, was, after, stuck) else after.daily == was.daily
    requires if Passes(job, was, Daily) && Passes(job, was, Weekly) then TierDone(job, Weekly, was, after, stuck)
             else after.weekly == was.weekly
    requires if after.running then TierDone(job, Monthly, was, after, stuck) else after.monthly == was.monthly
    ensures AllRotated(job, was, after, stuck)
  {
    ReachedInOrder(job, was);
    AllTiersRotated(job, was, after, stuck);
  }

  /** An active tier is rotated, another one left alone. */
  method RotateTier(files: Files, db: string, keep: nat, stuck: set<string>) returns (left: Option<Files>)
    requires IsUtf8(db)
    ensures left.None? <==> keep > 0 && HasTrap(files, db)
    ensures left.Some? ==> if keep == 0 then left.value == files else Rotated(files, left.value, keep, db, stuck)
  {
    if keep == 0 {
      return Some(files);
    }
    left := Rotate(files, db, keep, stuck);
  }

  lemma AllTiersRotated(job: Job, linked: Dirs, after: Dirs, stuck: set<string>)
    requires after.running == (linked.running && NoTraps(job, linked))
    requires TierAfter(job, Daily, linked, after.daily, stuck) && TierAfter(job, Weekly, linked, after.weekly, stuck)
    requires TierAfter(job, Monthly, linked, after.monthly, stuck)
    ensures AllRotated(job, linked, after, stuck)
  {
    assert forall t: Tier :: t.Daily? || t.Weekly? || t.Monthly?;
  }

  /** Remove the old file, then link: what is left depends on how far that came. */
  method RefreshTierLink(files: Files, name: string, dump: Bytes, outcome: LinkOutcome) returns (after: Files)
    ensures after == match outcome
                     case Linked => files[name := dump]
                     case StillOld => files
                     case Lost => files - {name}
  {
    after := files;
    if outcome == StillOld {
      return;
    }
    after := after - {name};
    if outcome == Linked {
      after := after[name := dump];
    }
  }

  ghost predicate Passes(job: Job, dirs: Dirs, t: Tier) {
    job.Keep(t) == 0 || !HasTrap(dirs.Of(t), job.db)
  }

  lemma ReachedInOrder(job: Job, dirs: Dirs)
    ensures Reached(job, dirs, Daily) <==> Passes(job, dirs, Daily)
    ensures Reached(job, dirs, Weekly) <==> Passes(job, dirs, Daily) && Passes(job, dirs, Weekly)
    ensures Reached(job, dirs, Monthly) <==> NoTraps(job, dirs)
    ensures NoTraps(job, dirs) <==> Passes(job, dirs, Daily) && Passes(job, dirs, Weekly) && Passes(job, dirs, Monthly)
  {
    assert Daily.Rank() < Weekly.Rank() < Monthly.Rank();
    assert forall t: Tier :: t.Daily? || t.Weekly? || t.Monthly?;
  }

  // ---- whole runs -------------------------------------------------------------

  /** `dirs[i + 1]` is what run `i` left behind. */
  ghost predicate IsTrace(job: Job, dirs: seq<Dirs>, runs: seq<Run>) {
    && |dirs| == |runs| + 1
    && (forall i :: 0 <= i < |runs| ==> runs[i].WellFormed())
    && forall i :: 0 <= i < |runs| ==> RunStep(job, dirs[i], runs[i], dirs[i + 1])
  }

  lemma PrintedNameIsOurs(job: Job, run: Run, t: Tier)
    requires run.WellFormed()
    ensures Ours(Name(job.db, run.Key(t)), job.db) && KeyOf(Name(job.db, run.Key(t)), job.db) == run.Key(t)
  {
    PrintedIsOurs(job.db, run.Key(t));
  }

  /** Neither linking nor rotation touches a file that is not ours. */
  lemma LinkLeavesOthers(job: Job, files: Files, run: Run, t: Tier, name: string)
    requires run.WellFormed() && run.dump.Some? && !Ours(name, job.db)
    ensures name in WithLink(job, t, files, run) <==> name in files
    ensures name in files ==> WithLink(job, t, files, run)[name] == files[name]
  {
    PrintedNameIsOurs(job, run, t);
  }

  lemma StepLeavesOthers(job: Job, before: Dirs, run: Run, after: Dirs, t: Tier, name: string)
    requires run.WellFormed() && RunStep(job, before, run, after) && !Ours(name, job.db)
    ensures name in after.Of(t) <==> name in before.Of(t)
    ensures name in before.Of(t) ==> after.Of(t)[name] == before.Of(t)[name]
  {
    if before.running && run.dump.Some? {
      LinkLeavesOthers(job, before.Of(t), run, t, name);
      var linked := WithLinks(job, before, run);
      assert linked.Of(t) == WithLink(job, t, before.Of(t), run);
      assert TierAfter(job, t, linked, after.Of(t), run.stuck);
    }
  }

  /** Other files stay as they were, in every tier, whatever is kept and however runs end. */
  lemma {:induction false} OtherFilesStay(job: Job, t: Tier, dirs: seq<Dirs>, runs: seq<Run>, name: string)
    requires IsTrace(job, dirs, runs) && !Ours(name, job.db)
    ensures name in dirs[|runs|].Of(t) <==> name in dirs[0].Of(t)
    ensures name in dirs[0].Of(t) ==> dirs[|runs|].Of(t)[name] == dirs[0].Of(t)[name]
    decreases |runs|
  {
    if runs != [] {
      var n := |runs| - 1;
      OtherFilesStay(job, t, dirs[..|runs|], runs[..n], name);
      StepLeavesOthers(job, dirs[n], runs[n], dirs[n + 1], t, name);
    }
  }

  /** A weekly or monthly tier that keeps nothing is never touched. */
  lemma {:induction false} DisabledTierIsUntouched(job: Job, t: Tier, dirs: seq<Dirs>, runs: seq<Run>)
    requires IsTrace(job, dirs, runs) && job.Keep(t) == 0 && !t.Daily?
    ensures dirs[|runs|].Of(t) == dirs[0].Of(t)
    decreases |runs|
  {
    if runs != [] {
      var n := |runs| - 1;
      DisabledTierIsUntouched(job, t, dirs[..|runs|], runs[..n]);
      assert dirs[n].running && runs[n].dump.Some? ==>
        TierAfter(job, t, WithLinks(job, dirs[n], runs[n]), dirs[n + 1].Of(t), runs[n].stuck);
    }
  }

  lemma UnlimitedStep(job: Job, before: Dirs, run: Run, after: Dirs)
    requires run.WellFormed() && RunStep(job, before, run, after) && job.keepDays == 0 && before.running
    ensures after.daily == if run.dump.None? then before.daily else before.daily[Name(job.db, run.stamp) := run.dump.value]
  {
    if run.dump.Some? {
      var linked := WithLinks(job, before, run);
      assert TierAfter(job, Daily, linked, after.Of(Daily), run.stuck);
    }
  }

  /** A limit of no days means none: `daily` receives every dump and keeps it, as long as the job
      runs and no later dump has its stamp. */
  lemma {:induction false} UnlimitedDailyKeepsAll(job: Job, dirs: seq<Dirs>, runs: seq<Run>, i: nat)
    requires IsTrace(job, dirs, runs) && job.keepDays == 0 && i < |runs| && runs[i].dump.Some?
    requires forall k :: 0 <= k < |runs| ==> dirs[k].running
    requires forall j :: i < j < |runs| ==> Name(job.db, runs[j].stamp) != Name(job.db, runs[i].stamp)
    ensures var file := Name(job.db, runs[i].stamp);
            file in dirs[|runs|].daily && dirs[|runs|].daily[file] == runs[i].dump.value
    decreases |runs|
  {
    var n := |runs| - 1;
    UnlimitedStep(job, dirs[n], runs[n], dirs[n + 1]);
    if i < n {
      UnlimitedDailyKeepsAll(job, dirs[..|runs|], runs[..n], i);
    }
  }

  // ---- how long the job lives -------------------------------------------------

  lemma StepKeepsTraps(job: Job, before: Dirs, run: Run, after: Dirs, t: Tier)
    requires run.WellFormed() && RunStep(job, before, run, after)
    ensures HasTrap(after.Of(t), job.db) <==> HasTrap(before.Of(t), job.db)
  {
    forall n | Trap(n, job.db)
      ensures n in after.Of(t) <==> n in before.Of(t)
    {
      StepLeavesOthers(job, before, run, after, t, n);
    }
  }

  lemma LinkKeepsTraps(job: Job, files: Files, run: Run, t: Tier)
    requires run.WellFormed() && run.dump.Some?
    ensures HasTrap(WithLink(job, t, files, run), job.db) <==> HasTrap(files, job.db)
  {
    forall n | Trap(n, job.db)
      ensures n in WithLink(job, t, files, run) <==> n in files
    {
      LinkLeavesOthers(job, files, run, t, n);
    }
  }

  lemma LinksKeepTraps(job: Job, dirs: Dirs, run: Run)
    requires run.WellFormed() && run.dump.Some?
    ensures NoTraps(job, WithLinks(job, dirs, run)) <==> NoTraps(job, dirs)
  {
    ReachedInOrder(job, dirs);
    ReachedInOrder(job, WithLinks(job, dirs, run));
    LinkKeepsTraps(job, dirs.daily, run, Daily);
    LinkKeepsTraps(job, dirs.weekly, run, Weekly);
    LinkKeepsTraps(job, dirs.monthly, run, Monthly);
  }

  lemma StepKeepsNoTraps(job: Job, before: Dirs, run: Run, after: Dirs)
    requires run.WellFormed() && RunStep(job, before, run, after)
    ensures NoTraps(job, after) <==> NoTraps(job, before)
  {
    forall t: Tier
      ensures HasTrap(after.Of(t), job.db) <==> HasTrap(before.Of(t), job.db)
    {
      StepKeepsTraps(job, before, run, after, t);
    }
  }

  ghost predicate NoneSucceeds(runs: seq<Run>, n: nat)
    requires n <= |runs|
  {
    forall i :: 0 <= i < n ==> runs[i].dump.None?
  }

  lemma {:induction false} RunsSurvived(job: Job, dirs: seq<Dirs>, runs: seq<Run>, n: nat)
    requires IsTrace(job, dirs, runs) && n <= |runs|
    ensures dirs[n].running <==> dirs[0].running && (NoTraps(job, dirs[0]) || NoneSucceeds(runs, n))
    ensures NoTraps(job, dirs[n]) <==> NoTraps(job, dirs[0])
  {
    if n > 0 {
      RunsSurvived(job, dirs, runs, n - 1);
      StepKeepsNoTraps(job, dirs[n - 1], runs[n - 1], dirs[n]);
      StepSurvivedExactly(job, dirs[n - 1], runs[n - 1], dirs[n]);
      assert NoneSucceeds(runs, n) <==> NoneSucceeds(runs, n - 1) && runs[n - 1].dump.None?;
    }
  }

  /** Left alone, after its start and any runs, the job is still running exactly if `daily` holds
      no name that makes the recogniser panic, and no other active tier does or no dump has
      succeeded. */
  lemma UndisturbedJobSurvivesExactly(job: Job, found: Dirs, dirs: seq<Dirs>, runs: seq<Run>)
    requires IsTrace(job, dirs, runs) && found.running && BootStep(job, found, dirs[0])
    ensures dirs[|runs|].running <==>
            !HasTrap(found.daily, job.db) && (NoTraps(job, dirs[0]) || NoneSucceeds(runs, |runs|))
  {
    RunsSurvived(job, dirs, runs, |runs|);
  }

  // ---- with others at work in the directories ---------------------------------

  predicate RunningBefore(booted: Dirs, ends: seq<Dirs>, i: nat)
    requires i <= |ends|
  {
    if i == 0 then booted.running else ends[i - 1].running
  }

  /** Run `i` finds the directories as `starts[i]` and leaves them as `ends[i]`; in between anyone
      may put files in, change them or take them out. */
  ghost predicate IsDisturbedTrace(job: Job, booted: Dirs, starts: seq<Dirs>, runs: seq<Run>, ends: seq<Dirs>) {
    |starts| == |runs| == |ends| && forall i :: 0 <= i < |runs| ==> IsDisturbedRun(job, booted, starts, runs, ends, i)
  }

  ghost predicate IsDisturbedRun(job: Job, booted: Dirs, starts: seq<Dirs>, runs: seq<Run>, ends: seq<Dirs>, i: nat)
    requires i < |starts| == |runs| == |ends|
  {
    && runs[i].WellFormed() && starts[i].running == RunningBefore(booted, ends, i)
    && RunStep(job, starts[i], runs[i], ends[i])
  }

  /** Nothing on the run's way makes the recogniser panic. */
  ghost predicate Clear(job: Job, before: Dirs, run: Run) {
    run.dump.Some? ==> NoTraps(job, before)
  }

  lemma StepSurvivedExactly(job: Job, before: Dirs, run: Run, after: Dirs)
    requires run.WellFormed() && RunStep(job, before, run, after)
    ensures after.running <==> before.running && Clear(job, before, run)
  {
    if before.running && run.dump.Some? {
      LinksKeepTraps(job, before, run);
    }
  }

  lemma OneSurvived(job: Job, booted: Dirs, starts: seq<Dirs>, runs: seq<Run>, ends: seq<Dirs>, i: nat)
    requires i < |starts| == |runs| == |ends| && IsDisturbedRun(job, booted, starts, runs, ends, i)
    ensures ends[i].running <==> RunningBefore(booted, ends, i) && Clear(job, starts[i], runs[i])
  {
    StepSurvivedExactly(job, starts[i], runs[i], ends[i]);
  }

  lemma {:induction false} AliveExactly(alive: seq<bool>, clear: seq<bool>, n: nat)
    requires |alive| == |clear| + 1 && n <= |clear|
    requires forall i :: 0 <= i < |clear| ==> alive[i + 1] == (alive[i] && clear[i])
    ensures alive[n] <==> alive[0] && forall i :: 0 <= i < n ==> clear[i]
  {
    if n > 0 {
      AliveExactly(alive, clear, n - 1);
      assert alive[n - 1 + 1] == (alive[n - 1] && clear[n - 1]);
    }
  }

  /** Whatever others put into the directories, and when: the job is still running exactly if no
      name in `daily` at its start, and none in an active tier at any successful dump, makes the
      recogniser panic. */
  lemma JobSurvivesExactly(job: Job, found: Dirs, booted: Dirs, starts: seq<Dirs>, runs: seq<Run>, ends: seq<Dirs>)
    requires found.running && BootStep(job, found, booted) && IsDisturbedTrace(job, booted, starts, runs, ends)
    ensures RunningBefore(booted, ends, |runs|) <==>
            && !HasTrap(found.daily, job.db)
            && forall i :: 0 <= i < |runs| ==> Clear(job, starts[i], runs[i])
  {
    var n := |runs|;
    var alive := seq(n + 1, i requires 0 <= i <= n => RunningBefore(booted, ends, i));
    ghost var clear := seq(n, i requires 0 <= i < n => Clear(job, starts[i], runs[i]));
    forall i | 0 <= i < n
      ensures alive[i + 1] == (alive[i] && clear[i])
    {
      OneSurvived(job, booted, starts, runs, ends, i);
    }
    AliveExactly(alive, clear, n);
    assert forall i :: 0 <= i < n ==> clear[i] == Clear(job, starts[i], runs[i]);
  }
}
