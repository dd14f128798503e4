/** The daily run of one backup service, statement by statement, as a run of the protocol's steps. */
module BackupService {
  import opened Wrappers
  import opened Ordering
  import opened Backup

  datatype Outcome = Created | AlreadyBackedUp | Busy | Refused | ClaimFailed | AttemptFailed | RetentionFailed

  lemma RunAppend(w: World, actions: seq<Action>, a: Action)
    ensures Run(w, actions + [a]) == Next(Run(w, actions), a)
  {
    hide Next;
    RunJoin(w, actions, [a]);
    assert [a][1..] == [];
  }

  // What a run of the service may do: keep exactly the retention when it prunes.
  ghost predicate KeepsExactly(actions: seq<Action>, retention: nat) {
    forall a :: a in actions && a.ReadVerified? ==> a.keep == retention
  }

  /** The dates to prune are exactly the completed ones with at least as many newer dates as are kept. */
  lemma ObsoleteIffOld(catalog: Catalog, keep: nat, d: Date)
    requires d in CompletedDates(catalog)
    ensures d in Obsolete(catalog, keep) <==> |NewerThan(catalog, d)| >= keep
  {
    var list := VerifiedDates(catalog);
    var k :| 0 <= k < |list| && list[k] == d;
    NewerInList(catalog, k);
    if k >= keep {
      assert Obsolete(catalog, keep)[k - keep] == d;
    }
    if d in Obsolete(catalog, keep) {
      var j :| 0 <= j < |Obsolete(catalog, keep)| && Obsolete(catalog, keep)[j] == d;
      NewerInList(catalog, keep + j);
    }
  }

  function Dates(list: seq<Date>): set<Date> {
    set d | d in list
  }

  lemma NextRead(w: World, keep: nat, fails: bool)
    requires w.At(0).MarkedCompleted?
    ensures Next(w, ReadVerified(0, keep, fails))
         == w.Move(0, if fails then Idle else Pruning(After(VerifiedDates(w.catalog), keep)))
  {
    hide VerifiedDates;
  }

  // Of the completed dates, exactly the newest ones have a file.
  ghost predicate OnlyNewestKept(catalog: Catalog, files: Files, retention: nat) {
    forall d :: d in CompletedDates(catalog) ==> (d in files <==> |NewerThan(catalog, d)| < retention)
  }

  lemma OnlyNewestLeft(w: World, before: Files, retention: nat)
    requires Backup.Inv(w, retention) && w.files == before - Dates(Obsolete(w.catalog, retention))
    ensures OnlyNewestKept(w.catalog, w.files, retention)
  {
    forall d | d in CompletedDates(w.catalog) ensures d in w.files <==> |NewerThan(w.catalog, d)| < retention {
      ObsoleteIffOld(w.catalog, retention, d);
    }
  }

  lemma NextPrunes(w: World, date: Date, rest: seq<Date>)
    requires w.At(0) == Pruning([date] + rest)
    ensures Next(w, PruneNext(0, false)) == w.(files := w.files - {date}).Move(0, Pruning(rest))
    ensures Next(w, PruneNext(0, true)) == w.Move(0, Idle)
  {
    assert ([date] + rest)[1..] == rest;
  }

  lemma PruneFails(w: World)
    requires w.At(0).Pruning?
    ensures Next(w, PruneNext(0, true)) == w.Move(0, Idle)
  {
  }

  // Whether the new date's own file is kept depends only on the dates completed before.
  lemma NewDateKept(catalog: Catalog, run: RunId, date: Date, files: Files, retention: nat)
    requires OnlyNewestKept(catalog[date := BackupRun(run, Completed)], files, retention)
    ensures date in files <==> |NewerThan(catalog, date)| < retention
  {
    var after := catalog[date := BackupRun(run, Completed)];
    assert NewerThan(after, date) == NewerThan(catalog, date);
  }

  class BackupService {
    var catalog: Catalog
    var files: Files
    // The calls made so far to the clock, the database and the file system, and the numbers of those that fail.
    var calls: nat
    const failing: set<nat>
    const retention: nat
    // Where the run stands in the protocol, as runner 0.
    ghost var runner: Runner

    constructor (catalog: Catalog, files: Files, retention: nat, failing: set<nat>)
      requires retention >= 1
      ensures this.catalog == catalog && this.files == files && this.retention == retention && this.failing == failing
      ensures runner == Idle
    {
      this.catalog, this.files, this.retention, this.failing := catalog, files, retention, failing;
      calls, runner := 0, Idle;
    }

    ghost function AsWorld(): World
      reads this
    {
      World(catalog, files, map[0 := runner])
    }

    method Call() returns (ok: bool)
      modifies this`calls
      ensures failing == {} ==> ok
    {
      ok := calls !in failing;
      calls := calls + 1;
    }

    // Claims and commits in one unit of work; if the database fails, nothing is claimed.
    method ClaimDate(run: RunId, date: Date) returns (r: Option<ClaimResult>, ghost actions: seq<Action>)
      requires runner == Idle
      modifies this`catalog, this`calls, this`runner
      ensures AsWorld() == Run(old(AsWorld()), actions) && KeepsExactly(actions, retention)
      ensures r.Some? ==> r.value == Claim(old(catalog), date, run)
      ensures catalog == if r.Some? && r.value.Claimed? then old(catalog)[date := BackupRun(run, Started)]
              else old(catalog)
      ensures runner == if r.Some? && r.value.Claimed? then Claiming(run, date) else Idle
      ensures failing == {} ==> r.Some?
    {
      ghost var start := AsWorld();
      assert Run(start, []) == start;
      actions := [];
      var ok := Call();
      if !ok {
        return None, [];
      }
      var claim := Claim(catalog, date, run);
      RunAppend(start, [], Backup.ClaimDate(0, run, date));
      actions := [] + [Backup.ClaimDate(0, run, date)];
      if claim.Claimed? {
        catalog := claim.catalog;
        runner := Claiming(run, date);
      }
      r := Some(claim);
    }

    // Copies the database to a temporary file and checks its integrity.
    method CopyDatabase() returns (ok: bool, ghost action: Action)
      requires runner.Claiming?
      modifies this`calls, this`runner
      ensures action.Copy? && AsWorld() == Next(old(AsWorld()), action)
      ensures runner == if ok then Copied(old(runner).run, old(runner).date)
              else Failing(old(runner).run, old(runner).date, false)
      ensures failing == {} ==> ok
    {
      ok := Call();
      action := Backup.Copy(0, !ok);
      runner := if ok then Copied(runner.run, runner.date) else Failing(runner.run, runner.date, false);
    }

    method VerifyCopy() returns (ok: bool, ghost action: Action)
      requires runner.Copied?
      modifies this`calls, this`runner
      ensures action.Verify? && AsWorld() == Next(old(AsWorld()), action)
      ensures runner == if ok then Verified(old(runner).run, old(runner).date)
              else Failing(old(runner).run, old(runner).date, false)
      ensures failing == {} ==> ok
    {
      ok := Call();
      action := Backup.Verify(0, !ok);
      runner := if ok then Verified(runner.run, runner.date) else Failing(runner.run, runner.date, false);
    }

    // Replaces the destination by the verified copy, then syncs the directory, which may fail after the replacement.
    method PublishCopy(run: RunId, date: Date) returns (ok: bool, ghost action: Action)
      requires runner == Verified(run, date)
      modifies this`files, this`calls, this`runner
      ensures action.Publish? && AsWorld() == Next(old(AsWorld()), action)
      ensures files == old(files) || files == old(files)[date := run]
      ensures ok ==> files == old(files)[date := run]
      ensures runner == if ok then Published(run, date) else Failing(run, date, false)
      ensures failing == {} ==> ok
    {
      var replaced := Call();
      ok := false;
      if replaced {
        files := files[date := run];
        ok := Call();
      }
      action := Backup.Publish(0, !ok, replaced);
      runner := if ok then Published(run, date) else Failing(run, date, false);
    }

    // Marks the started row of the run and writes the audit event in one unit of work.
    method MarkCompleted(run: RunId, date: Date) returns (ok: bool, ghost action: Action)
      requires runner == Published(run, date)
      modifies this`catalog, this`calls, this`runner
      ensures action.MarkCompletion? && AsWorld() == Next(old(AsWorld()), action)
      ensures !ok ==> catalog == old(catalog)
      ensures ok ==> StartedAt(old(catalog), run, date) && catalog == old(catalog)[date := BackupRun(run, Completed)]
      ensures runner == if ok then MarkedCompleted else Failing(run, date, true)
      ensures failing == {} && StartedAt(old(catalog), run, date) ==> ok
    {
      var committed := Call();
      ok := committed && StartedAt(catalog, run, date);
      if ok {
        catalog := catalog[date := catalog[date].(status := Completed)];
      }
      action := MarkCompletion(0, !committed);
      runner := if ok then Backup.MarkedCompleted else Failing(run, date, true);
    }

    method CleanUpFailed(run: RunId, date: Date, published: bool) returns (ok: bool, ghost action: Action)
      requires runner == Failing(run, date, published)
      modifies this`files, this`calls, this`runner
      ensures action.CleanUp? && AsWorld() == Next(old(AsWorld()), action)
      ensures files == if ok && published then old(files) - {date} else old(files)
      ensures runner == if ok then Cleaned(run, date) else Idle
    {
      ok := Call();
      if ok && published {
        files := files - {date};
      }
      action := CleanUp(0, !ok);
      runner := if ok then Cleaned(run, date) else Idle;
    }

    method MarkFailed(run: RunId, date: Date) returns (ok: bool, ghost action: Action)
      requires runner == Cleaned(run, date)
      modifies this`catalog, this`calls, this`runner
      ensures action.MarkFailure? && AsWorld() == Next(old(AsWorld()), action)
      ensures !ok ==> catalog == old(catalog)
      ensures ok ==> StartedAt(old(catalog), run, date) && catalog == old(catalog)[date := BackupRun(run, Failed)]
      ensures runner == Idle
    {
      var committed := Call();
      ok := committed && StartedAt(catalog, run, date);
      if ok {
        catalog := catalog[date := catalog[date].(status := Failed)];
      }
      action := MarkFailure(0, !committed);
      runner := Idle;
    }

    // The handler of a failed attempt: removes what it published and records the failure, either of which may fail.
    method GiveUp(run: RunId, date: Date, published: bool) returns (ghost actions: seq<Action>)
      requires runner == Failing(run, date, published) && StartedAt(catalog, run, date)
      modifies this`catalog, this`files, this`calls, this`runner
      ensures AsWorld() == Run(old(AsWorld()), actions) && KeepsExactly(actions, retention)
      ensures catalog == old(catalog) || catalog == old(catalog)[date := BackupRun(run, Failed)]
      ensures files == old(files) || (published && files == old(files) - {date})
      ensures catalog != old(catalog) && published ==> date !in files
      ensures runner == Idle
    {
      hide Next;
      ghost var start := AsWorld();
      assert Run(start, []) == start;
      var ok, action := CleanUpFailed(run, date, published);
      RunAppend(start, [], action);
      actions := [] + [action];
      if ok {
        var marked, marking := MarkFailed(run, date);
        RunAppend(start, actions, marking);
        actions := actions + [marking];
      }
    }

    // The attempt proper: copy, verify, publish, mark.
    method Attempt(run: RunId, date: Date) returns (ok: bool, published: bool, ghost actions: seq<Action>)
      requires runner == Claiming(run, date) && StartedAt(catalog, run, date)
      modifies this`catalog, this`files, this`calls, this`runner
      ensures AsWorld() == Run(old(AsWorld()), actions) && KeepsExactly(actions, retention)
      ensures ok ==> runner == Backup.MarkedCompleted
      ensures ok ==> catalog == old(catalog)[date := BackupRun(run, Completed)] && files == old(files)[date := run]
      ensures !ok ==> runner == Failing(run, date, published) && catalog == old(catalog)
      ensures !ok ==> files == old(files) || files == old(files)[date := run]
      ensures failing == {} ==> ok
    {
      hide Next;
      ghost var start := AsWorld();
      assert Run(start, []) == start;
      ghost var action;
      published := false;
      ok, action := CopyDatabase();
      RunAppend(start, [], action);
      actions := [] + [action];
      if ok {
        ok, action := VerifyCopy();
        RunAppend(start, actions, action);
        actions := actions + [action];
      }
      if ok {
        ok, action := PublishCopy(run, date);
        published := ok;
        RunAppend(start, actions, action);
        actions := actions + [action];
      }
      if ok {
        ok, action := MarkCompleted(run, date);
        RunAppend(start, actions, action);
        actions := actions + [action];
      }
    }

    // Unlinks one obsolete file and syncs the directory, which may fail after the file is gone.
    method RemoveObsolete(date: Date, ghost rest: seq<Date>) returns (ok: bool, ghost actions: seq<Action>)
      requires runner == Pruning([date] + rest)
      modifies this`files, this`calls, this`runner
      ensures AsWorld() == Run(old(AsWorld()), actions) && KeepsExactly(actions, retention)
      ensures files == old(files) - {date} || (!ok && files == old(files))
      ensures runner == if ok then Pruning(rest) else Idle
      ensures failing == {} ==> ok
    {
      hide Next;
      ghost var start := AsWorld();
      assert Run(start, []) == start;
      var unlinked := Call();
      RunAppend(start, [], PruneNext(0, !unlinked));
      NextPrunes(start, date, rest);
      actions := [] + [PruneNext(0, !unlinked)];
      if !unlinked {
        runner := Idle;
        assert AsWorld() == start.Move(0, Idle);
        return false, actions;
      }
      files := files - {date};
      runner := Pruning(rest);
      assert AsWorld() == start.(files := start.files - {date}).Move(0, Pruning(rest));
      ok := Call();
      if !ok {
        RunAppend(start, actions, PruneNext(0, true));
        PruneFails(AsWorld());
        actions := actions + [PruneNext(0, true)];
        ghost var before := AsWorld();
        runner := Idle;
        assert AsWorld() == before.Move(0, Idle);
      }
    }

    method FinishPruning() returns (ghost action: Action)
      requires runner == Pruning([])
      modifies this`runner
      ensures action.PruneNext? && AsWorld() == Next(old(AsWorld()), action)
      ensures runner == Idle
    {
      action := PruneNext(0, false);
      runner := Idle;
    }

    // Prunes the files after the newest ones; a failure leaves the rest.
    method PruneVerified(verified: seq<Date>) returns (ok: bool, ghost actions: seq<Action>)
      requires runner == Pruning(After(verified, retention))
      modifies this`files, this`calls, this`runner
      ensures AsWorld() == Run(old(AsWorld()), actions) && KeepsExactly(actions, retention)
      ensures ok ==> files == old(files) - Dates(After(verified, retention))
      ensures failing == {} ==> ok
      ensures runner == Idle
    {
      hide Next;
      ghost var start := AsWorld();
      assert Run(start, []) == start;
      actions := [];
      var obsolete := After(verified, retention);
      var i := 0;
      ok := true;
      while i < |obsolete| && ok
        invariant 0 <= i <= |obsolete|
        invariant AsWorld() == Run(start, actions) && KeepsExactly(actions, retention)
        invariant runner == if ok then Pruning(obsolete[i..]) else Idle
        invariant ok ==> files == old(files) - Dates(obsolete[..i])
        invariant failing == {} ==> ok
        decreases |obsolete| - i, ok
      {
        assert obsolete[i..] == [obsolete[i]] + obsolete[i + 1..];
        assert obsolete[..i + 1] == obsolete[..i] + [obsolete[i]];
        ghost var now, steps := AsWorld(), [];
        ok, steps := RemoveObsolete(obsolete[i], obsolete[i + 1..]);
        RunJoin(start, actions, steps);
        actions := actions + steps;
        if ok {
          i := i + 1;
        }
      }
      if ok {
        assert obsolete[..i] == obsolete;
        ghost var step := FinishPruning();
        RunAppend(start, actions, step);
        actions := actions + [step];
      }
    }

    method ListVerified() returns (verified: seq<Date>)
      ensures verified == VerifiedDates(catalog)
    {
      verified := Sorted(CompletedDates(catalog), Later);
    }

    // Reads the completed dates, newest first.
    method VerifiedPaths() returns (read: Option<seq<Date>>, ghost action: Action)
      requires runner == Backup.MarkedCompleted
      modifies this`calls, this`runner
      ensures action.ReadVerified? && action.keep == retention && AsWorld() == Next(old(AsWorld()), action)
      ensures read.Some? ==> read.value == VerifiedDates(catalog)
      ensures runner == if read.Some? then Pruning(After(read.value, retention)) else Idle
      ensures failing == {} ==> read.Some?
    {
      hide Next, CompletedDates, Obsolete, After, VerifiedDates;
      var ok := Call();
      action := ReadVerified(0, retention, !ok);
      NextRead(AsWorld(), retention, !ok);
      read := None;
      if ok {
        var verified := ListVerified();
        read := Some(verified);
        runner := Pruning(After(verified, retention));
      } else {
        runner := Idle;
      }
    }

    // Retention: reads the completed dates and prunes the files after the newest ones.
    method Retain() returns (ok: bool, ghost actions: seq<Action>)
      requires runner == Backup.MarkedCompleted
      modifies this`files, this`calls, this`runner
      ensures AsWorld() == Run(old(AsWorld()), actions) && KeepsExactly(actions, retention) && runner == Idle
      ensures ok ==> files == old(files) - Dates(Obsolete(catalog, retention))
      ensures failing == {} ==> ok
    {
      hide Next, VerifiedDates, CompletedDates;
      ghost var start := AsWorld();
      assert Run(start, []) == start;
      var read, reading := VerifiedPaths();
      RunAppend(start, [], reading);
      actions := [] + [reading];
      ok := read.Some?;
      if ok {
        ghost var steps;
        ok, steps := PruneVerified(read.value);
        RunJoin(start, actions, steps);
        actions := actions + steps;
      }
    }

    // The run after its claim.
    method RunClaimed(run: RunId, date: Date) returns (outcome: Outcome, ghost actions: seq<Action>)
      requires runner == Claiming(run, date) && StartedAt(catalog, run, date)
      modifies this`catalog, this`files, this`calls, this`runner
      ensures AsWorld() == Run(old(AsWorld()), actions) && KeepsExactly(actions, retention) && runner == Idle
      ensures outcome.Created? || outcome.RetentionFailed? || outcome.AttemptFailed?
      ensures !outcome.AttemptFailed? ==> catalog == old(catalog)[date := BackupRun(run, Completed)]
      ensures outcome.Created? ==> files == old(files)[date := run] - Dates(Obsolete(catalog, retention))
      ensures outcome.AttemptFailed? ==>
        catalog == old(catalog) || catalog == old(catalog)[date := BackupRun(run, Failed)]
      ensures outcome.AttemptFailed? ==> files - {date} == old(files) - {date}
      ensures failing == {} ==> outcome.Created?
    {
      hide Next, Obsolete, CompletedDates;
      ghost var start := AsWorld();
      var ok, published, attempt := Attempt(run, date);
      ghost var rest;
      if ok {
        ok, rest := Retain();
        outcome := if ok then Created else RetentionFailed;
      } else {
        rest := GiveUp(run, date, published);
        outcome := AttemptFailed;
      }
      RunJoin(start, attempt, rest);
      actions := attempt + rest;
    }

    /**
     One daily run is a run of the protocol, ends idle, and keeps the retention. Undisturbed and created, the files of
     completed dates left on disk are exactly those of the newest retention dates.
     */
    method RunIfDue(run: RunId, date: Date) returns (outcome: Outcome, ghost actions: seq<Action>)
      requires runner == Idle && Backup.Inv(AsWorld(), retention)
      modifies this`catalog, this`files, this`calls, this`runner
      ensures AsWorld() == Run(old(AsWorld()), actions) && Backup.Inv(AsWorld(), retention) && runner == Idle
      ensures !outcome.ClaimFailed? ==> (outcome.AlreadyBackedUp? <==> Claim(old(catalog), date, run).AlreadyValid?)
      ensures !outcome.ClaimFailed? ==> (outcome.Busy? <==> Claim(old(catalog), date, run).InProgress?)
      ensures !outcome.ClaimFailed? ==> (outcome.Refused? <==> Claim(old(catalog), date, run).Rejected?)
      ensures outcome.ClaimFailed? || outcome.AlreadyBackedUp? || outcome.Busy? || outcome.Refused? ==>
        catalog == old(catalog) && files == old(files)
      ensures outcome.Created? || outcome.RetentionFailed? ==>
        catalog == old(catalog)[date := BackupRun(run, Completed)]
      ensures outcome.Created? ==> OnlyNewestKept(catalog, files, retention)
      ensures outcome.Created? ==> (date in files <==> |NewerThan(old(catalog), date)| < retention)
      ensures outcome.AttemptFailed? ==> date !in CompletedDates(catalog)
      ensures outcome.AttemptFailed? ==>
        catalog - {date} == old(catalog) - {date} && files - {date} == old(files) - {date}
      ensures failing == {} ==> !outcome.ClaimFailed?
      ensures !outcome.ClaimFailed? && NewId(old(catalog), run) ==>
        && (outcome.AlreadyBackedUp? <==> date in old(catalog) && old(catalog)[date].status == Completed)
        && (outcome.Busy? <==> date in old(catalog) && old(catalog)[date].status == Started)
        && !outcome.Refused?
      ensures failing == {} && NewId(old(catalog), run) ==>
        (outcome.Created? <==> date !in old(catalog) || old(catalog)[date].status == Failed)
      ensures Claim(old(catalog), date, run).Claimed? && failing == {} ==> outcome.Created?
    {
      hide Next, Run, Backup.Inv, Obsolete, OnlyNewestKept, NewerThan;
      ghost var start := AsWorld();
      var claim;
      claim, actions := ClaimDate(run, date);
      match claim
      case None => outcome := ClaimFailed;
      case Some(AlreadyValid) => outcome := AlreadyBackedUp;
      case Some(InProgress) => outcome := Busy;
      case Some(Rejected) => outcome := Refused;
      case Some(Claimed(_)) =>
        ghost var rest;
        ghost var before := files;
        outcome, rest := RunClaimed(run, date);
        RunJoin(start, actions, rest);
        actions := actions + rest;
        if outcome.Created? {
          RunKeeps(start, actions, retention);
          OnlyNewestLeft(AsWorld(), before[date := run], retention);
          assert catalog == start.catalog[date := BackupRun(run, Completed)];
          NewDateKept(start.catalog, run, date, files, retention);
        }
      RunKeeps(start, actions, retention);
    }
  }
}
