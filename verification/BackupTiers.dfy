/** What the three tiers of backups hold after any number of runs. */
module BackupTiers {
  import opened BackupRuns
  import opened Backups
  import opened Basics
  import opened Lexicographic
  import opened Options

  // ---- what a tier holds ------------------------------------------------------

  /** A dump that was written into a tier under some name. */
  datatype Entry = Entry(name: string, dump: Bytes)

  function Names(h: seq<Entry>): set<string> {
    set e | e in h :: e.name
  }

  /** The dump written last under that name. */
  function LastFor(h: seq<Entry>, name: string): Bytes
    requires name in Names(h)
  {
    var last := h[|h| - 1];
    if last.name == name then last.dump
    else
      assert h == h[..|h| - 1] + [last];
      LastFor(h[..|h| - 1], name)
  }

  /** Every file of ours was written under its name, and is the last one that was. */
  ghost predicate HoldsLastDumps(files: Files, h: seq<Entry>, db: string) {
    OursIn(files.Keys, db) <= Names(h) && forall n :: n in OursIn(files.Keys, db) ==> files[n] == LastFor(h, n)
  }

  /** The `keep` newest names ever written are there, each with its last dump. */
  ghost predicate KeepsNewest(files: Files, h: seq<Entry>, keep: nat, db: string) {
    && HoldsLastDumps(files, h, db)
    && exists newest :: IsNewest(newest, Names(h), keep, db) && newest <= OursIn(files.Keys, db)
  }

  /** And no others of ours. */
  ghost predicate TierHolds(files: Files, h: seq<Entry>, keep: nat, db: string) {
    HoldsLastDumps(files, h, db) && IsNewest(OursIn(files.Keys, db), Names(h), keep, db)
  }

  ghost predicate NamesAreOurs(h: seq<Entry>, db: string) {
    forall n :: n in Names(h) ==> Ours(n, db)
  }

  lemma NamesOfAppend(h: seq<Entry>, e: Entry)
    ensures Names(h + [e]) == Names(h) + {e.name}
    ensures forall n :: n in Names(h + [e]) ==> LastFor(h + [e], n) == if n == e.name then e.dump else LastFor(h, n)
  {
    assert forall d :: d in h + [e] <==> d in h || d == e;
    assert (h + [e])[..|h|] == h;
    assert Names(h + [e]) == Names(h) + {e.name};
  }

  lemma LinkKeepsLastDumps(files: Files, h: seq<Entry>, e: Entry, db: string)
    requires HoldsLastDumps(files, h, db) && Ours(e.name, db)
    ensures HoldsLastDumps(files[e.name := e.dump], h + [e], db)
    ensures OursIn(files[e.name := e.dump].Keys, db) == OursIn(files.Keys, db) + {e.name}
  {
    var linked := files[e.name := e.dump];
    assert OursIn(linked.Keys, db) == OursIn(files.Keys, db) + {e.name};
    NamesOfAppend(h, e);
    forall n | n in OursIn(linked.Keys, db)
      ensures n in Names(h + [e]) && linked[n] == LastFor(h + [e], n)
    {
      assert n != e.name ==> n in OursIn(files.Keys, db);
    }
  }

  /** Linking a dump in that is not older than the others. */
  lemma LinkKeepsNewest(files: Files, h: seq<Entry>, e: Entry, keep: nat, db: string)
    requires keep > 0 && KeepsNewest(files, h, keep, db) && NamesAreOurs(h, db)
    requires Ours(e.name, db) && forall m :: m in Names(h) ==> !Older(e.name, m, db)
    ensures KeepsNewest(files[e.name := e.dump], h + [e], keep, db) && NamesAreOurs(h + [e], db)
  {
    var newest :| IsNewest(newest, Names(h), keep, db) && newest <= OursIn(files.Keys, db);
    LinkKeepsLastDumps(files, h, e, db);
    NamesOfAppend(h, e);
    var newest' := SomeAreNewest(Names(h + [e]), keep, db);
    NewestOfGrowing(newest, Names(h), keep, e.name, newest', db);
  }

  /** A new name makes up for a file that was missing. */
  lemma LinkMakesUp(files: Files, h: seq<Entry>, e: Entry, keep: nat, db: string)
    requires keep > 0 && KeepsNewest(files, h, keep - 1, db) && NamesAreOurs(h, db)
    requires Ours(e.name, db) && e.name !in Names(h) && forall m :: m in Names(h) ==> !Older(e.name, m, db)
    ensures KeepsNewest(files[e.name := e.dump], h + [e], keep, db) && NamesAreOurs(h + [e], db)
  {
    var newest :| IsNewest(newest, Names(h), keep - 1, db) && newest <= OursIn(files.Keys, db);
    LinkKeepsLastDumps(files, h, e, db);
    NamesOfAppend(h, e);
    var newest' := SomeAreNewest(Names(h + [e]), keep, db);
    NewestWithNew(newest, Names(h), keep, e.name, newest', db);
  }

  /** The dumps of every other name. */
  function Without(h: seq<Entry>, name: string): seq<Entry> {
    if h == [] then []
    else
      var last := h[|h| - 1];
      Without(h[..|h| - 1], name) + if last.name == name then [] else [last]
  }

  lemma {:induction false} NamesWithout(h: seq<Entry>, name: string)
    ensures Names(Without(h, name)) == Names(h) - {name}
    ensures forall n :: n in Names(h) && n != name ==> LastFor(Without(h, name), n) == LastFor(h, n)
    decreases |h|
  {
    if h != [] {
      var front, last := h[..|h| - 1], h[|h| - 1];
      NamesWithout(front, name);
      assert h == front + [last];
      NamesOfAppend(front, last);
      NamesOfAppend(Without(front, name), last);
      assert Without(front, name) + [] == Without(front, name);
    }
  }

  lemma LossKeepsLastDumps(files: Files, h: seq<Entry>, name: string, db: string)
    requires HoldsLastDumps(files, h, db)
    ensures HoldsLastDumps(files - {name}, Without(h, name), db)
    ensures OursIn((files - {name}).Keys, db) == OursIn(files.Keys, db) - {name}
  {
    NamesWithout(h, name);
    assert OursIn((files - {name}).Keys, db) == OursIn(files.Keys, db) - {name};
  }

  /** When the newest file is removed and not made again, one fewer of the others are there. */
  lemma LossKeepsNewest(files: Files, h: seq<Entry>, name: string, keep: nat, db: string)
    requires keep > 0 && KeepsNewest(files, h, keep, db) && name in Names(h)
    requires forall m :: m in Names(h) ==> !Older(name, m, db)
    ensures KeepsNewest(files - {name}, Without(h, name), keep - 1, db)
    ensures TierHolds(files, h, keep, db) ==> TierHolds(files - {name}, Without(h, name), keep - 1, db)
  {
    LossKeepsLastDumps(files, h, name, db);
    NamesWithout(h, name);
    var newest :| IsNewest(newest, Names(h), keep, db) && newest <= OursIn(files.Keys, db);
    NewestWithoutLast(newest, Names(h), keep, name, db);
    if TierHolds(files, h, keep, db) {
      NewestWithoutLast(OursIn(files.Keys, db), Names(h), keep, name, db);
    }
  }

  lemma RotationLeaves(before: Files, after: Files, newest: set<string>, keep: nat, db: string, stuck: set<string>)
    requires IsNewest(newest, OursIn(before.Keys, db), keep, db) && Rotated(before, after, keep, db, stuck)
    ensures var ours := OursIn(before.Keys, db);
            after == before - (ours - newest - stuck) && OursIn(after.Keys, db) == ours - (ours - newest - stuck)
  {
    var ours := OursIn(before.Keys, db);
    var kept :| IsNewest(kept, ours, keep, db) && after == before - (ours - kept - stuck);
    NewestIsUnique(newest, kept, ours, keep, db);
  }

  /** Whatever the directory holds of ours, its newest survive. */
  lemma RotationKeepsThose(before: Files, after: Files, newest: set<string>, n: nat, keep: nat, db: string,
                           stuck: set<string>)
    requires Rotated(before, after, keep, db, stuck) && n <= keep
    requires IsNewest(newest, OursIn(before.Keys, db), n, db)
    ensures newest <= OursIn(after.Keys, db)
  {
    var ours := OursIn(before.Keys, db);
    var kept :| IsNewest(kept, ours, keep, db) && after == before - (ours - kept - stuck);
    RotationLeaves(before, after, kept, keep, db, stuck);
    FewerNewest(newest, kept, ours, n, keep, db);
  }

  lemma FewerKeepLastDumps(before: Files, after: Files, h: seq<Entry>, keep: nat, db: string, stuck: set<string>)
    requires HoldsLastDumps(before, h, db) && Rotated(before, after, keep, db, stuck)
    ensures HoldsLastDumps(after, h, db)
  {
    assert forall n :: n in OursIn(after.Keys, db) ==> n in OursIn(before.Keys, db) && after[n] == before[n];
  }

  /** Rotation, with files that cannot be deleted or without. */
  lemma RotationKeepsNewest(before: Files, after: Files, h: seq<Entry>, n: nat, keep: nat, db: string, stuck: set<string>)
    requires KeepsNewest(before, h, n, db) && Rotated(before, after, keep, db, stuck) && n <= keep
    ensures KeepsNewest(after, h, n, db)
  {
    var newest :| IsNewest(newest, Names(h), n, db) && newest <= OursIn(before.Keys, db);
    NewestOfSubset(newest, OursIn(before.Keys, db), Names(h), n, db);
    RotationKeepsThose(before, after, newest, n, keep, db, stuck);
    FewerKeepLastDumps(before, after, h, keep, db, stuck);
  }

  lemma RotationCuts(before: Files, after: Files, h: seq<Entry>, keep: nat, db: string)
    requires KeepsNewest(before, h, keep, db) && Rotated(before, after, keep, db, {})
    ensures TierHolds(after, h, keep, db)
  {
    var ours := OursIn(before.Keys, db);
    var newest :| IsNewest(newest, Names(h), keep, db) && newest <= ours;
    NewestOfSubset(newest, ours, Names(h), keep, db);
    RotationLeaves(before, after, newest, keep, db, {});
    assert ours - (ours - newest - {}) == newest;
    FewerKeepLastDumps(before, after, h, keep, db, {});
  }

  /** Where fewer are left than a tier keeps, rotation deletes nothing. */
  lemma RotationSpares(before: Files, after: Files, h: seq<Entry>, n: nat, keep: nat, db: string)
    requires TierHolds(before, h, n, db) && n <= keep && Rotated(before, after, keep, db, {})
    ensures TierHolds(after, h, n, db)
  {
    var ours := OursIn(before.Keys, db);
    assert IsNewest(ours, ours, keep, db);
    RotationLeaves(before, after, ours, keep, db, {});
    assert before - (ours - ours - {}) == before;
  }

  // ---- what the tiers hold after any number of runs ---------------------------

  /** The dumps a tier received, in order. */
  function Written(job: Job, t: Tier, runs: seq<Run>): seq<Entry>
    requires forall i :: 0 <= i < |runs| ==> runs[i].WellFormed()
  {
    if runs == [] then []
    else
      var last := runs[|runs| - 1];
      Written(job, t, runs[..|runs| - 1]) +
      if last.dump.None? || last.Link(t) != Linked then [] else [Entry(Name(job.db, last.Key(t)), last.dump.value)]
  }

  /** Clock and calendar: stamps of successful runs increase, their weeks do not decrease. */
  ghost predicate InOrder(runs: seq<Run>) {
    forall i, j :: 0 <= i < j < |runs| && runs[i].dump.Some? && runs[j].dump.Some? ==>
      Before(runs[i].stamp, runs[j].stamp) && !Before(runs[j].week, runs[i].week)
  }

  lemma KeysDoNotDecrease(earlier: Run, later: Run, t: Tier)
    requires earlier.WellFormed() && later.WellFormed()
    requires Before(earlier.stamp, later.stamp) && !Before(later.week, earlier.week)
    ensures !Before(later.Key(t), earlier.Key(t))
  {
    match t
    case Daily => BeforeIsStrictOrder(earlier.stamp, later.stamp, earlier.stamp);
    case Weekly =>
    case Monthly => PrefixKeepsOrder(earlier.stamp, later.stamp, 6);
  }

  /** No run's name is older than any in `h`. */
  ghost predicate NotOlderThan(job: Job, t: Tier, runs: seq<Run>, h: seq<Entry>)
    requires forall i :: 0 <= i < |runs| ==> runs[i].WellFormed()
  {
    forall i, m :: 0 <= i < |runs| && runs[i].dump.Some? && m in Names(h) ==>
      !Older(Name(job.db, runs[i].Key(t)), m, job.db)
  }

  lemma {:induction false} WrittenAreNotNewer(job: Job, t: Tier, runs: seq<Run>, next: Run)
    requires (forall i :: 0 <= i < |runs| ==> runs[i].WellFormed()) && next.WellFormed()
    requires forall i :: 0 <= i < |runs| && runs[i].dump.Some? ==>
      Before(runs[i].stamp, next.stamp) && !Before(next.week, runs[i].week)
    ensures forall m :: m in Names(Written(job, t, runs)) ==>
      Ours(m, job.db) && !Older(Name(job.db, next.Key(t)), m, job.db)
    ensures t.Daily? ==> forall m :: m in Names(Written(job, t, runs)) ==> Older(m, Name(job.db, next.Key(t)), job.db)
    decreases |runs|
  {
    if runs != [] {
      var last := runs[|runs| - 1];
      WrittenAreNotNewer(job, t, runs[..|runs| - 1], next);
      if last.dump.Some? {
        NamesOfAppend(Written(job, t, runs[..|runs| - 1]), Entry(Name(job.db, last.Key(t)), last.dump.value));
        PrintedNameIsOurs(job, last, t);
        PrintedNameIsOurs(job, next, t);
        KeysDoNotDecrease(last, next, t);
      }
    }
  }

  /** `h` lists whatever dumps of ours a tier holds, older than any run or of its period. */
  ghost predicate Lists(job: Job, t: Tier, files: Files, h: seq<Entry>, runs: seq<Run>)
    requires forall i :: 0 <= i < |runs| ==> runs[i].WellFormed()
  {
    OursIn(files.Keys, job.db) == Names(h) && HoldsLastDumps(files, h, job.db) && NotOlderThan(job, t, runs, h)
  }

  /** What a tier has been given: the dumps of the names whose last link was not lost, and the
      name of a file that was lost after all of them. */
  datatype Ledger = Ledger(dumps: seq<Entry>, missing: Option<string>) {
    /** How many of the newest are sure to be there: one fewer while a file is missing. */
    function Room(keep: nat): nat {
      if missing.Some? && keep > 0 then keep - 1 else keep
    }
  }

  /** One link into the tier. */
  function Enter(l: Ledger, e: Entry, outcome: LinkOutcome): Ledger {
    match outcome
    case Linked => Ledger(l.dumps + [e], None)
    case StillOld => l
    case Lost => if e.name in Names(l.dumps) then Ledger(Without(l.dumps, e.name), Some(e.name)) else l
  }

  /** What tier `t`, which listed `h` at first, has been given by the runs. */
  function Recorded(job: Job, t: Tier, runs: seq<Run>, h: seq<Entry>): Ledger
    requires forall i :: 0 <= i < |runs| ==> runs[i].WellFormed()
  {
    if runs == [] then Ledger(h, None)
    else
      var last := runs[|runs| - 1];
      var l := Recorded(job, t, runs[..|runs| - 1], h);
      if last.dump.None? then l else Enter(l, EntryOf(job, t, last), last.Link(t))
  }

  function EntryOf(job: Job, t: Tier, run: Run): Entry
    requires run.WellFormed() && run.dump.Some?
  {
    Entry(Name(job.db, run.Key(t)), run.dump.value)
  }

  ghost predicate NoneLost(t: Tier, runs: seq<Run>) {
    forall i :: 0 <= i < |runs| && runs[i].dump.Some? ==> runs[i].Link(t) != Lost
  }

  /** Where no link is lost the ledger lists what was written. */
  lemma {:induction false} NothingIsMissing(job: Job, t: Tier, runs: seq<Run>, h: seq<Entry>)
    requires (forall i :: 0 <= i < |runs| ==> runs[i].WellFormed()) && NoneLost(t, runs)
    ensures Recorded(job, t, runs, h) == Ledger(h + Written(job, t, runs), None)
    decreases |runs|
  {
    if runs == [] {
      assert h + [] == h;
    } else {
      NothingIsMissing(job, t, runs[..|runs| - 1], h);
      WrittenWithOneMore(job, t, runs, h);
    }
  }

  /** The last successful run could delete what it wanted to, and while a file is missing so
      could the one before. */
  ghost predicate Settled(job: Job, t: Tier, runs: seq<Run>, h: seq<Entry>)
    requires forall i :: 0 <= i < |runs| ==> runs[i].WellFormed()
  {
    runs != []
    && var front, last := runs[..|runs| - 1], runs[|runs| - 1];
       if last.dump.None? then Settled(job, t, front, h)
       else last.stuck == {} && (Recorded(job, t, runs, h).missing.None? || Settled(job, t, front, h))
  }

  // ---- one link ---------------------------------------------------------------

  /** What is missing was newer than all that is left. */
  ghost predicate InOrderLedger(l: Ledger, db: string) {
    && NamesAreOurs(l.dumps, db)
    && (l.missing.Some? ==> forall m :: m in Names(l.dumps) ==> Older(m, l.missing.value, db))
  }

  ghost predicate NotOlderThanAny(name: string, l: Ledger, db: string) {
    && (forall m :: m in Names(l.dumps) ==> !Older(name, m, db))
    && (l.missing.Some? ==> !Older(name, l.missing.value, db))
  }

  ghost predicate Keeps(files: Files, l: Ledger, keep: nat, db: string) {
    KeepsNewest(files, l.dumps, l.Room(keep), db)
  }

  ghost predicate Holds(files: Files, l: Ledger, keep: nat, db: string) {
    TierHolds(files, l.dumps, l.Room(keep), db)
  }

  lemma EnteredInOrder(l: Ledger, e: Entry, outcome: LinkOutcome, db: string)
    requires InOrderLedger(l, db) && Ours(e.name, db) && NotOlderThanAny(e.name, l, db)
    ensures InOrderLedger(Enter(l, e, outcome), db)
  {
    NamesOfAppend(l.dumps, e);
    NamesWithout(l.dumps, e.name);
    if outcome == Lost {
      forall m | m in Names(l.dumps) && m != e.name
        ensures Older(m, e.name, db)
      {
        OlderIsStrictOrder(m, e.name, m, db);
      }
    }
  }

  lemma LinkedKeeps(files: Files, l: Ledger, e: Entry, keep: nat, db: string)
    requires keep > 0 && Keeps(files, l, keep, db) && InOrderLedger(l, db)
    requires Ours(e.name, db) && NotOlderThanAny(e.name, l, db)
    ensures Keeps(files[e.name := e.dump], Enter(l, e, Linked), keep, db)
  {
    if l.missing.None? {
      LinkKeepsNewest(files, l.dumps, e, keep, db);
    } else {
      LinkMakesUp(files, l.dumps, e, keep, db);
    }
  }

  lemma LostKeeps(files: Files, l: Ledger, e: Entry, keep: nat, db: string)
    requires keep > 0 && Keeps(files, l, keep, db) && InOrderLedger(l, db)
    requires Ours(e.name, db) && NotOlderThanAny(e.name, l, db)
    ensures Keeps(files - {e.name}, Enter(l, e, Lost), keep, db)
    ensures Holds(files, l, keep, db) ==> Holds(files - {e.name}, Enter(l, e, Lost), keep, db)
  {
    if e.name in Names(l.dumps) {
      assert l.missing.None?;
      LossKeepsNewest(files, l.dumps, e.name, keep, db);
    } else {
      assert e.name !in OursIn(files.Keys, db);
      assert files - {e.name} == files;
    }
  }

  // ---- one run ----------------------------------------------------------------

  lemma ListedKeepsNewest(files: Files, h: seq<Entry>, keep: nat, db: string)
    requires OursIn(files.Keys, db) == Names(h) && HoldsLastDumps(files, h, db)
    ensures KeepsNewest(files, h, keep, db) && NamesAreOurs(h, db)
  {
    assert forall n :: n in Names(h) ==> n in OursIn(files.Keys, db);
    var newest := SomeAreNewest(Names(h), keep, db);
  }

  lemma LinkStands(job: Job, t: Tier, files: Files, l: Ledger, next: Run)
    requires next.WellFormed() && next.dump.Some? && job.Keep(t) > 0
    requires Keeps(files, l, job.Keep(t), job.db) && InOrderLedger(l, job.db)
    requires NotOlderThanAny(EntryOf(job, t, next).name, l, job.db)
    ensures var linked, l' := WithLink(job, t, files, next), Enter(l, EntryOf(job, t, next), next.Link(t));
            && Keeps(linked, l', job.Keep(t), job.db) && InOrderLedger(l', job.db)
            && (l'.missing.Some? && Holds(files, l, job.Keep(t), job.db) ==> Holds(linked, l', job.Keep(t), job.db))
  {
    var e := EntryOf(job, t, next);
    PrintedNameIsOurs(job, next, t);
    EnteredInOrder(l, e, next.Link(t), job.db);
    match next.Link(t)
    case Linked => LinkedKeeps(files, l, e, job.Keep(t), job.db);
    case StillOld =>
    case Lost => LostKeeps(files, l, e, job.Keep(t), job.db);
  }

  lemma RotationStands(before: Files, after: Files, l: Ledger, keep: nat, db: string, stuck: set<string>)
    requires keep > 0 && Keeps(before, l, keep, db) && Rotated(before, after, keep, db, stuck)
    ensures Keeps(after, l, keep, db)
    ensures stuck == {} && (l.missing.None? || Holds(before, l, keep, db)) ==> Holds(after, l, keep, db)
  {
    RotationKeepsNewest(before, after, l.dumps, l.Room(keep), keep, db, stuck);
    if stuck == {} {
      if l.missing.None? {
        RotationCuts(before, after, l.dumps, keep, db);
      } else if Holds(before, l, keep, db) {
        RotationSpares(before, after, l.dumps, l.Room(keep), keep, db);
      }
    }
  }

  /** A run of a job without traps rotates the tier after linking. */
  lemma TierIsRotated(job: Job, t: Tier, before: Dirs, after: Dirs, next: Run)
    requires next.WellFormed() && next.dump.Some? && RunStep(job, before, next, after)
    requires before.running && NoTraps(job, before) && job.Keep(t) > 0
    ensures Rotated(WithLink(job, t, before.Of(t), next), after.Of(t), job.Keep(t), job.db, next.stuck)
  {
    var linked := WithLinks(job, before, next);
    assert linked.Of(t) == WithLink(job, t, before.Of(t), next);
    LinksKeepTraps(job, before, next);
    assert TierAfter(job, t, linked, after.Of(t), next.stuck) && Reached(job, linked, t);
  }

  // ---- whole runs -------------------------------------------------------------

  lemma NamesOfConcat(a: seq<Entry>, b: seq<Entry>)
    ensures Names(a + b) == Names(a) + Names(b)
  {
    assert forall e :: e in a + b <==> e in a || e in b;
  }

  lemma WrittenWithOneMore(job: Job, t: Tier, runs: seq<Run>, h: seq<Entry>)
    requires runs != [] && forall i :: 0 <= i < |runs| ==> runs[i].WellFormed()
    ensures var n := |runs| - 1;
            var so := h + Written(job, t, runs[..n]);
            h + Written(job, t, runs) ==
            if runs[n].dump.None? || runs[n].Link(t) != Linked then so
            else so + [Entry(Name(job.db, runs[n].Key(t)), runs[n].dump.value)]
  {
  }

  lemma NextIsNotOlder(job: Job, t: Tier, runs: seq<Run>, h: seq<Entry>)
    requires runs != [] && (forall i :: 0 <= i < |runs| ==> runs[i].WellFormed())
    requires InOrder(runs) && NotOlderThan(job, t, runs, h) && runs[|runs| - 1].dump.Some?
    ensures var next := runs[|runs| - 1];
            forall m :: m in Names(h + Written(job, t, runs[..|runs| - 1])) ==> !Older(Name(job.db, next.Key(t)), m, job.db)
  {
    var front, next := runs[..|runs| - 1], runs[|runs| - 1];
    forall i | 0 <= i < |front| && front[i].dump.Some?
      ensures Before(front[i].stamp, next.stamp) && !Before(next.week, front[i].week)
    {
      assert front[i] == runs[i];
    }
    WrittenAreNotNewer(job, t, front, next);
    NamesOfConcat(h, Written(job, t, front));
  }

  /** What the ledger names was written, or listed at first. */
  lemma {:induction false} RecordedWasWritten(job: Job, t: Tier, runs: seq<Run>, h: seq<Entry>)
    requires forall i :: 0 <= i < |runs| ==> runs[i].WellFormed()
    ensures Names(Recorded(job, t, runs, h).dumps) <= Names(h + Written(job, t, runs))
    ensures var missing := Recorded(job, t, runs, h).missing;
            missing.Some? ==> missing.value in Names(h + Written(job, t, runs))
    decreases |runs|
  {
    if runs == [] {
      assert h + [] == h;
    } else {
      var front, last := runs[..|runs| - 1], runs[|runs| - 1];
      RecordedWasWritten(job, t, front, h);
      WrittenWithOneMore(job, t, runs, h);
      if last.dump.Some? {
        var l := Recorded(job, t, front, h);
        NamesOfAppend(l.dumps, EntryOf(job, t, last));
        NamesOfAppend(h + Written(job, t, front), EntryOf(job, t, last));
        NamesWithout(l.dumps, EntryOf(job, t, last).name);
      }
    }
  }

  /** Clock, calendar and directories as they must be for a tier to hold what it should. */
  ghost predicate Orderly(job: Job, t: Tier, dirs: seq<Dirs>, runs: seq<Run>, h: seq<Entry>) {
    && IsTrace(job, dirs, runs) && InOrder(runs) && job.Keep(t) > 0
    && dirs[0].running && NoTraps(job, dirs[0]) && Lists(job, t, dirs[0].Of(t), h, runs)
  }

  ghost predicate Stands(job: Job, t: Tier, files: Files, l: Ledger, settled: bool) {
    && Keeps(files, l, job.Keep(t), job.db) && InOrderLedger(l, job.db)
    && (settled ==> Holds(files, l, job.Keep(t), job.db))
  }

  lemma StandsAfterOneMore(job: Job, t: Tier, before: Dirs, after: Dirs, l: Ledger, settled: bool, next: Run)
    requires next.WellFormed() && next.dump.Some? && RunStep(job, before, next, after)
    requires before.running && NoTraps(job, before) && job.Keep(t) > 0
    requires Stands(job, t, before.Of(t), l, settled) && NotOlderThanAny(EntryOf(job, t, next).name, l, job.db)
    ensures var l' := Enter(l, EntryOf(job, t, next), next.Link(t));
            Stands(job, t, after.Of(t), l', next.stuck == {} && (l'.missing.None? || settled))
  {
    LinkStands(job, t, before.Of(t), l, next);
    TierIsRotated(job, t, before, after, next);
    RotationStands(WithLink(job, t, before.Of(t), next), after.Of(t), Enter(l, EntryOf(job, t, next), next.Link(t)),
                   job.Keep(t), job.db, next.stuck);
  }

  lemma NextComesAfter(job: Job, t: Tier, runs: seq<Run>, h: seq<Entry>)
    requires runs != [] && (forall i :: 0 <= i < |runs| ==> runs[i].WellFormed())
    requires InOrder(runs) && NotOlderThan(job, t, runs, h) && runs[|runs| - 1].dump.Some?
    ensures NotOlderThanAny(EntryOf(job, t, runs[|runs| - 1]).name, Recorded(job, t, runs[..|runs| - 1], h), job.db)
  {
    NextIsNotOlder(job, t, runs, h);
    RecordedWasWritten(job, t, runs[..|runs| - 1], h);
  }

  lemma {:induction false} TiersStand(job: Job, t: Tier, dirs: seq<Dirs>, runs: seq<Run>, h: seq<Entry>)
    requires Orderly(job, t, dirs, runs, h)
    ensures Stands(job, t, dirs[|runs|].Of(t), Recorded(job, t, runs, h), Settled(job, t, runs, h))
    decreases |runs|
  {
    if runs == [] {
      ListedKeepsNewest(dirs[0].Of(t), h, job.Keep(t), job.db);
    } else {
      var n := |runs| - 1;
      TiersStand(job, t, dirs[..|runs|], runs[..n], h);
      if runs[n].dump.Some? {
        RunsSurvived(job, dirs, runs, n);
        NextComesAfter(job, t, runs, h);
        StandsAfterOneMore(job, t, dirs[n], dirs[n + 1], Recorded(job, t, runs[..n], h), Settled(job, t, runs[..n], h), runs[n]);
      }
    }
  }

  /** After any number of runs, with dumps, links and deletions that fail: a tier that keeps
      `k > 0` holds the newest `k` of its periods, those of the dumps it started with included,
      each with the last dump linked for that period, whether or not its daily copy is still
      there. A period whose link was lost does not count; if it was the newest, only `k - 1`
      others are there until the next link. And the tier holds no others once nothing was in
      the way of deleting them. */
  lemma TiersHoldTheNewest(job: Job, t: Tier, dirs: seq<Dirs>, runs: seq<Run>, h: seq<Entry>)
    requires Orderly(job, t, dirs, runs, h)
    ensures var l := Recorded(job, t, runs, h);
            && KeepsNewest(dirs[|runs|].Of(t), l.dumps, l.Room(job.Keep(t)), job.db)
            && (Settled(job, t, runs, h) ==> TierHolds(dirs[|runs|].Of(t), l.dumps, l.Room(job.Keep(t)), job.db))
            && (l.missing.Some? ==> forall m :: m in Names(l.dumps) ==> Older(m, l.missing.value, job.db))
    ensures NoneLost(t, runs) ==> Recorded(job, t, runs, h) == Ledger(h + Written(job, t, runs), None)
  {
    TiersStand(job, t, dirs, runs, h);
    if NoneLost(t, runs) {
      NothingIsMissing(job, t, runs, h);
    }
  }

  // ---- the daily tier, run by run ---------------------------------------------

  ghost predicate EachNewer(h: seq<Entry>, db: string) {
    forall i, j :: 0 <= i < j < |h| ==> Older(h[i].name, h[j].name, db)
  }

  /** The dumps listed at the start get newer too, and are older than those of the runs. */
  ghost predicate StartsOlder(job: Job, h: seq<Entry>, runs: seq<Run>)
    requires forall i :: 0 <= i < |runs| ==> runs[i].WellFormed()
  {
    && EachNewer(h, job.db)
    && forall i, m :: 0 <= i < |runs| && runs[i].dump.Some? && m in Names(h) ==>
         Older(m, Name(job.db, runs[i].stamp), job.db)
  }

  lemma {:induction false} DailyDumpsGetNewer(job: Job, dirs: seq<Dirs>, runs: seq<Run>, h: seq<Entry>)
    requires IsTrace(job, dirs, runs) && InOrder(runs) && StartsOlder(job, h, runs)
    ensures EachNewer(h + Written(job, Daily, runs), job.db)
    decreases |runs|
  {
    if runs == [] {
      assert h + [] == h;
    } else {
      var n := |runs| - 1;
      DailyDumpsGetNewer(job, dirs[..|runs|], runs[..n], h);
      WrittenWithOneMore(job, Daily, runs, h);
      if runs[n].dump.Some? {
        NextIsNewer(job, runs, h);
      }
    }
  }

  lemma NextIsNewer(job: Job, runs: seq<Run>, h: seq<Entry>)
    requires runs != [] && (forall i :: 0 <= i < |runs| ==> runs[i].WellFormed())
    requires InOrder(runs) && StartsOlder(job, h, runs) && runs[|runs| - 1].dump.Some?
    ensures var next := runs[|runs| - 1];
            forall m :: m in Names(h + Written(job, Daily, runs[..|runs| - 1])) ==> Older(m, Name(job.db, next.stamp), job.db)
  {
    var front, next := runs[..|runs| - 1], runs[|runs| - 1];
    forall i | 0 <= i < |front| && front[i].dump.Some?
      ensures Before(front[i].stamp, next.stamp) && !Before(next.week, front[i].week)
    {
      assert front[i] == runs[i];
    }
    WrittenAreNotNewer(job, Daily, front, next);
    NamesOfConcat(h, Written(job, Daily, front));
  }

  lemma {:induction false} OnlyOneOfThatName(h: seq<Entry>, i: nat, db: string)
    requires i < |h| && EachNewer(h, db)
    ensures LastFor(h, h[i].name) == h[i].dump
    decreases |h|
  {
    if i < |h| - 1 {
      OnlyOneOfThatName(h[..|h| - 1], i, db);
      OlderIsStrictOrder(h[i].name, h[|h| - 1].name, h[i].name, db);
    }
  }

  lemma NamesAreElements(h: seq<Entry>, names: seq<string>)
    requires |names| == |h| && forall i :: 0 <= i < |h| ==> names[i] == h[i].name
    ensures Names(h) == Elements(names)
  {
    forall n
      ensures n in Names(h) <==> n in Elements(names)
    {
      if n in Elements(names) {
        var i :| 0 <= i < |names| && names[i] == n;
        assert h[i] in h;
      }
    }
  }

  /** The names of dumps that get newer, in order: no two are the same. */
  lemma NamesInOrder(h: seq<Entry>, db: string) returns (names: seq<string>)
    requires EachNewer(h, db)
    ensures |names| == |h| && forall i :: 0 <= i < |h| ==> names[i] == h[i].name
    ensures Ascending(names, db) && Distinct(names)
  {
    names := seq(|h|, i requires 0 <= i < |h| => h[i].name);
    forall i, j | 0 <= i < j < |h|
      ensures names[i] != names[j]
    {
      OlderIsStrictOrder(names[i], names[j], names[i], db);
    }
  }

  lemma NewestAreTheLast(h: seq<Entry>, n: nat, db: string)
    requires EachNewer(h, db) && n <= |h|
    ensures IsNewest(Names(h[|h| - n..]), Names(h), n, db)
  {
    var names := NamesInOrder(h, db);
    var cut := |h| - n;
    CutKeepsNewest(names, n, db);
    NamesAreElements(h, names);
    NamesAreElements(h[cut..], names[cut..]);
    RestOfElements(names, cut);
  }

  lemma RestOfElements(names: seq<string>, cut: nat)
    requires Distinct(names) && cut <= |names|
    ensures Elements(names) - Elements(names[..cut]) == Elements(names[cut..])
  {
    assert names == names[..cut] + names[cut..];
  }

  /** Dumps that get newer all have names of their own. */
  lemma AsMany(h: seq<Entry>, db: string)
    requires EachNewer(h, db)
    ensures |Names(h)| == |h|
  {
    var names := NamesInOrder(h, db);
    NamesAreElements(h, names);
    DistinctHasSize(names);
  }

  /** Our files are the last `n` dumps written, under their names, and no others. */
  ghost predicate HoldsTheLast(files: Files, h: seq<Entry>, n: nat, db: string)
    requires n <= |h|
  {
    && OursIn(files.Keys, db) == Names(h[|h| - n..])
    && forall i :: |h| - n <= i < |h| ==> h[i].name in files && files[h[i].name] == h[i].dump
  }

  lemma NewestFilesAreTheLast(files: Files, h: seq<Entry>, keep: nat, n: nat, db: string)
    requires TierHolds(files, h, keep, db) && EachNewer(h, db) && n == if keep < |h| then keep else |h|
    ensures HoldsTheLast(files, h, n, db)
  {
    var ours := OursIn(files.Keys, db);
    NewestAreTheLast(h, n, db);
    AsMany(h, db);
    NewestIsUnique(ours, Names(h[|h| - n..]), Names(h), n, db);
    forall i | |h| - n <= i < |h|
      ensures h[i].name in files && files[h[i].name] == h[i].dump
    {
      assert h[i] in h[|h| - n..] && h[i].name in ours;
      OnlyOneOfThatName(h, i, db);
    }
  }

  /** `daily` holds the last `keepDays` dumps, of the runs and before them of those it started
      with, and no others. */
  lemma DailyHoldsTheLastDumps(job: Job, dirs: seq<Dirs>, runs: seq<Run>, h: seq<Entry>, n: nat)
    requires Orderly(job, Daily, dirs, runs, h) && StartsOlder(job, h, runs) && Settled(job, Daily, runs, h)
    requires var all := |h + Written(job, Daily, runs)|; n == if job.keepDays < all then job.keepDays else all
    ensures HoldsTheLast(dirs[|runs|].daily, h + Written(job, Daily, runs), n, job.db)
  {
    TiersHoldTheNewest(job, Daily, dirs, runs, h);
    DailyDumpsGetNewer(job, dirs, runs, h);
    NewestFilesAreTheLast(dirs[|runs|].daily, h + Written(job, Daily, runs), job.keepDays, n, job.db);
  }
}
