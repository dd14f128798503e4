/** A run of one backup service after the clock went back: the backup it creates is pruned at once. */
module BackdatedBackup {
  import opened Backup

  // One whole daily run of runner 0 that fails nowhere and keeps one date, with the given number of prunings.
  function Daily(run: RunId, date: Date, prunings: nat): seq<Action> {
    [ClaimDate(0, run, date), Copy(0, false), Verify(0, false), Publish(0, false, true), MarkCompletion(0, false),
     ReadVerified(0, 1, false)] + seq(prunings + 1, i => PruneNext(0, false))
  }

  const FIRST: Catalog := map[2 := BackupRun(1, Completed)]
  const BOTH: Catalog := map[2 := BackupRun(1, Completed), 1 := BackupRun(2, Completed)]

  lemma OneListed()
    ensures VerifiedDates(FIRST) == [2] && Obsolete(FIRST, 1) == []
  {
    assert CompletedDates(FIRST) == {2};
    assert VerifiedDates(FIRST)[0] in VerifiedDates(FIRST);
  }

  lemma TwoListed()
    ensures VerifiedDates(BOTH) == [2, 1] && Obsolete(BOTH, 1) == [1]
  {
    assert CompletedDates(BOTH) == {1, 2};
    var list := VerifiedDates(BOTH);
    assert list[0] in list && list[1] in list && Later(list[0], list[1]);
  }

  lemma UpToReading(w: World, run: RunId, date: Date)
    requires w.At(0) == Idle && date !in w.catalog && !IdTaken(w.catalog, run)
    ensures var daily := Daily(run, date, 0)[..6];
            var catalog := w.catalog[date := BackupRun(run, Completed)];
            var w' := Run(w, daily);
            w'.catalog == catalog && w'.files == w.files[date := run] && w'.At(0) == Pruning(Obsolete(catalog, 1))
  {
    hide Next, Run, Obsolete;
    Six(w, Daily(run, date, 0)[..6]);
    var claimed := UpToVerified(w, run, date);
    UpToMarked(w, claimed, run, date);
  }

  lemma UpToVerified(w: World, run: RunId, date: Date) returns (v: World)
    requires w.At(0) == Idle && date !in w.catalog && !IdTaken(w.catalog, run)
    ensures v == Next(Next(Next(w, ClaimDate(0, run, date)), Copy(0, false)), Verify(0, false))
    ensures v.catalog == w.catalog[date := BackupRun(run, Started)] && v.files == w.files
    ensures v.At(0) == Verified(run, date)
  {
    hide IdTaken;
    v := Next(w, ClaimDate(0, run, date));
    v := Next(v, Copy(0, false));
    v := Next(v, Verify(0, false));
  }

  lemma UpToMarked(w: World, v: World, run: RunId, date: Date)
    requires v.catalog == w.catalog[date := BackupRun(run, Started)] && v.files == w.files
    requires v.At(0) == Verified(run, date)
    ensures var w' := Next(Next(Next(v, Publish(0, false, true)), MarkCompletion(0, false)), ReadVerified(0, 1, false));
            var catalog := w.catalog[date := BackupRun(run, Completed)];
            w'.catalog == catalog && w'.files == w.files[date := run] && w'.At(0) == Pruning(Obsolete(catalog, 1))
  {
    hide Obsolete;
    var marked := Next(Next(v, Publish(0, false, true)), MarkCompletion(0, false));
    assert marked.catalog == w.catalog[date := BackupRun(run, Completed)];
  }

  lemma Six(w: World, a: seq<Action>)
    requires |a| == 6
    ensures Run(w, a) == Next(Next(Next(Next(Next(Next(w, a[0]), a[1]), a[2]), a[3]), a[4]), a[5])
  {
    hide Next;
    assert a[..0] == [] && a[..6] == a;
    Take(w, a, 0);
    Take(w, a, 1);
    Take(w, a, 2);
    Take(w, a, 3);
    Take(w, a, 4);
    Take(w, a, 5);
  }

  lemma Take(w: World, a: seq<Action>, i: nat)
    requires i < |a|
    ensures Run(w, a[..i + 1]) == Next(Run(w, a[..i]), a[i])
  {
    hide Next;
    assert a[..i + 1] == a[..i] + [a[i]];
    RunJoin(w, a[..i], [a[i]]);
    Single(Run(w, a[..i]), a[i]);
  }

  lemma Single(w: World, a: Action)
    ensures Run(w, [a]) == Next(w, a)
  {
    assert [a][1..] == [];
    assert Run(Next(w, a), []) == Next(w, a);
  }

  const ACTIONS := Daily(1, 2, 0) + Daily(2, 1, 1)

  /**
   Date 2 is backed up, then the clock goes back and date 1 is: the second run creates its backup, marks it completed
   and prunes it, since a newer one is kept.
   */
  lemma CreatedAndPruned()
    ensures var w := Run(INITIAL, ACTIONS);
            && 1 in CompletedDates(w.catalog) && w.catalog[1].id == 2 && 1 !in w.files
            && 2 in w.files && w.At(0) == Idle
  {
    OneListed();
    TwoListed();
    FirstDay();
    SecondDay(Run(INITIAL, Daily(1, 2, 0)));
    RunJoin(INITIAL, Daily(1, 2, 0), Daily(2, 1, 1));
  }

  lemma FirstDay()
    ensures var w := Run(INITIAL, Daily(1, 2, 0)); w.catalog == FIRST && w.files == map[2 := 1] && w.At(0) == Idle
  {
    hide Next, Run, Obsolete, VerifiedDates;
    var daily := Daily(1, 2, 0);
    OneListed();
    UpToReading(INITIAL, 1, 2);
    assert INITIAL.catalog[2 := BackupRun(1, Completed)] == FIRST && INITIAL.files[2 := 1] == map[2 := 1];
    assert daily[..7] == daily;
    Take(INITIAL, daily, 6);
    PrunesNone(Run(INITIAL, daily[..6]));
  }

  lemma PrunesNone(w: World)
    requires w.At(0) == Pruning([])
    ensures Next(w, PruneNext(0, false)) == w.Move(0, Idle)
  {
  }

  lemma SecondDay(w: World)
    requires w.catalog == FIRST && w.files == map[2 := 1] && w.At(0) == Idle
    ensures var w' := Run(w, Daily(2, 1, 1)); w'.catalog == BOTH && w'.files == map[2 := 1] && w'.At(0) == Idle
  {
    hide Next, Run, Obsolete, VerifiedDates;
    var daily := Daily(2, 1, 1);
    TwoListed();
    assert !IdTaken(w.catalog, 2);
    UpToReading(w, 2, 1);
    assert daily[..6] == Daily(2, 1, 0)[..6];
    assert FIRST[1 := BackupRun(2, Completed)] == BOTH;
    assert daily[..8] == daily;
    Take(w, daily, 6);
    Take(w, daily, 7);
    PrunesOne(Run(w, daily[..6]));
    assert w.files[1 := 2] - {1} == w.files;
  }

  lemma PrunesOne(w: World)
    requires w.At(0) == Pruning([1])
    ensures var w' := Next(Next(w, PruneNext(0, false)), PruneNext(0, false));
            w'.catalog == w.catalog && w'.files == w.files - {1} && w'.At(0) == Idle
  {
    assert [1][1..] == [];
    assert Next(w, PruneNext(0, false)).At(0) == Pruning([]);
  }
}
