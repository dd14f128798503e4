/**
 The daily backup protocol. Any number of runners claim a date in the run catalog, copy, verify, publish, mark and
 prune; their steps interleave in any order, any step may fail, and a runner may crash anywhere.
 */
module Backup {
  import opened Ordering

  type Date = int
  type RunId = nat
  type RunnerId = nat

  datatype Status = Started | Completed | Failed

  // A catalog row; the path it publishes to is determined by its date.
  datatype BackupRun = BackupRun(id: RunId, status: Status)

  type Catalog = map<Date, BackupRun>

  // What is on disk at the destination of a date: the verified copy of a run.
  type Files = map<Date, RunId>

  // The run catalog

  predicate IdTaken(catalog: Catalog, run: RunId) {
    exists d :: d in catalog && catalog[d].id == run
  }

  datatype ClaimResult = Claimed(catalog: Catalog) | AlreadyValid | InProgress | Rejected

  // One row per date: a claim inserts it, or takes over a failed one.
  function Claim(catalog: Catalog, date: Date, run: RunId): ClaimResult {
    if IdTaken(catalog, run) then Rejected
    else if date !in catalog || catalog[date].status == Failed then
      ClaimResult.Claimed(catalog[date := BackupRun(run, Started)])
    else if catalog[date].status == Completed then AlreadyValid
    else InProgress
  }

  // The date of the started row of a run, if there is one.
  predicate StartedAt(catalog: Catalog, run: RunId, date: Date) {
    date in catalog && catalog[date] == BackupRun(run, Started)
  }

  function Marked(catalog: Catalog, date: Date, status: Status): Catalog
    requires date in catalog
  {
    catalog[date := catalog[date].(status := status)]
  }

  function CompletedDates(catalog: Catalog): set<Date> {
    set d | d in catalog && catalog[d].status == Completed
  }

  predicate Later(a: Date, b: Date) {
    a > b
  }

  // Completed dates, newest first.
  ghost function VerifiedDates(catalog: Catalog): seq<Date> {
    Listed(CompletedDates(catalog), Later)
  }

  function NewerThan(catalog: Catalog, date: Date): set<Date> {
    set d | d in CompletedDates(catalog) && d > date
  }

  // Runners

  datatype Runner =
    | Idle
    | Claiming(run: RunId, date: Date)
    | Copied(run: RunId, date: Date)
    | Verified(run: RunId, date: Date)
    | Published(run: RunId, date: Date)
    | Failing(run: RunId, date: Date, published: bool)
    | Cleaned(run: RunId, date: Date)
    | MarkedCompleted
    | Pruning(obsolete: seq<Date>)
  {
    // Between its claim and its terminal mark a runner owns the started row of its date.
    predicate Owns() {
      Claiming? || Copied? || Verified? || Published? || Failing? || Cleaned?
    }
  }

  datatype World = World(catalog: Catalog, files: Files, runners: map<RunnerId, Runner>) {
    function At(i: RunnerId): Runner {
      if i in runners then runners[i] else Idle
    }

    function Move(i: RunnerId, r: Runner): World {
      this.(runners := runners[i := r])
    }
  }

  const INITIAL := World(map[], map[], map[])

  // A step of runner i. Where a step can fail, fails says that it does; a publication may fail after the file is in
  // place.
  datatype Action =
    | ClaimDate(i: RunnerId, run: RunId, date: Date)
    | Copy(i: RunnerId, fails: bool)
    | Verify(i: RunnerId, fails: bool)
    | Publish(i: RunnerId, fails: bool, replaced: bool)
    | MarkCompletion(i: RunnerId, fails: bool)
    | CleanUp(i: RunnerId, fails: bool)
    | MarkFailure(i: RunnerId, fails: bool)
    | ReadVerified(i: RunnerId, keep: nat, fails: bool)
    | PruneNext(i: RunnerId, fails: bool)
    | Crash(i: RunnerId)

  ghost function Next(w: World, a: Action): World {
    var r := w.At(a.i);
    match a
    case ClaimDate(i, run, date) =>
      if !r.Idle? then w
      else (match Claim(w.catalog, date, run)
            case Claimed(catalog) => w.(catalog := catalog).Move(i, Claiming(run, date))
            case _ => w)
    case Copy(i, fails) =>
      if !r.Claiming? then w
      else if fails then w.Move(i, Failing(r.run, r.date, false))
      else w.Move(i, Copied(r.run, r.date))
    case Verify(i, fails) =>
      if !r.Copied? then w
      else if fails then w.Move(i, Failing(r.run, r.date, false))
      else w.Move(i, Verified(r.run, r.date))
    case Publish(i, fails, replaced) =>
      if !r.Verified? then w
      else if fails then
        (if replaced then w.(files := w.files[r.date := r.run]) else w).Move(i, Failing(r.run, r.date, false))
      else w.(files := w.files[r.date := r.run]).Move(i, Published(r.run, r.date))
    case MarkCompletion(i, fails) =>
      if !r.Published? then w
      else if fails || !StartedAt(w.catalog, r.run, r.date) then w.Move(i, Failing(r.run, r.date, true))
      else w.(catalog := Marked(w.catalog, r.date, Completed)).Move(i, MarkedCompleted)
    case CleanUp(i, fails) =>
      if !r.Failing? then w
      else if fails then w.Move(i, Idle)
      else (if r.published then w.(files := w.files - {r.date}) else w).Move(i, Cleaned(r.run, r.date))
    case MarkFailure(i, fails) =>
      if !r.Cleaned? then w
      else if fails || !StartedAt(w.catalog, r.run, r.date) then w.Move(i, Idle)
      else w.(catalog := Marked(w.catalog, r.date, Failed)).Move(i, Idle)
    case ReadVerified(i, keep, fails) =>
      if !r.MarkedCompleted? then w
      else if fails then w.Move(i, Idle)
      else w.Move(i, Pruning(Obsolete(w.catalog, keep)))
    case PruneNext(i, fails) =>
      if !r.Pruning? then w
      else if fails || r.obsolete == [] then w.Move(i, Idle)
      else w.(files := w.files - {r.obsolete[0]}).Move(i, Pruning(r.obsolete[1..]))
    case Crash(i) => w.Move(i, Idle)
  }

  ghost function Run(w: World, actions: seq<Action>): World
    decreases |actions|
  {
    if actions == [] then w else Run(Next(w, actions[0]), actions[1..])
  }

  // What every reachable world satisfies

  ghost predicate IdsUnique(catalog: Catalog) {
    forall d, e :: d in catalog && e in catalog && catalog[d].id == catalog[e].id ==> d == e
  }

  ghost predicate Owned(w: World) {
    forall i :: w.At(i).Owns() ==> StartedAt(w.catalog, w.At(i).run, w.At(i).date)
  }

  // No two runners are at work on the same date.
  ghost predicate Exclusive(w: World) {
    forall i, j :: w.At(i).Owns() && w.At(j).Owns() && w.At(i).date == w.At(j).date ==> i == j
  }

  ghost predicate PublishedOnDisk(w: World) {
    forall i :: w.At(i).Published? || (w.At(i).Failing? && w.At(i).published) ==>
      w.At(i).date in w.files && w.files[w.At(i).date] == w.At(i).run
  }

  // Every date a runner is about to prune has at least as many newer completed dates as are to be kept.
  ghost predicate PrunesObsolete(w: World, retention: nat) {
    forall i, k :: w.At(i).Pruning? && 0 <= k < |w.At(i).obsolete| ==>
      w.At(i).obsolete[k] in CompletedDates(w.catalog) && |NewerThan(w.catalog, w.At(i).obsolete[k])| >= retention
  }

  // The newest completed dates have the verified file of their run on disk.
  ghost predicate Retained(w: World, retention: nat) {
    forall d :: d in CompletedDates(w.catalog) && |NewerThan(w.catalog, d)| < retention ==>
      d in w.files && w.files[d] == w.catalog[d].id
  }

  ghost predicate Inv(w: World, retention: nat) {
    && IdsUnique(w.catalog)
    && Owned(w)
    && Exclusive(w)
    && PublishedOnDisk(w)
    && PrunesObsolete(w, retention)
    && Retained(w, retention)
  }

  lemma NewerGrows(catalog: Catalog, catalog': Catalog, date: Date)
    requires CompletedDates(catalog) <= CompletedDates(catalog')
    ensures |NewerThan(catalog, date)| <= |NewerThan(catalog', date)|
  {
    SubsetSize(NewerThan(catalog, date), NewerThan(catalog', date));
  }

  /** In the list of completed dates, newest first, position k has exactly k newer dates. */
  lemma NewerInList(catalog: Catalog, k: nat)
    requires k < |VerifiedDates(catalog)|
    ensures VerifiedDates(catalog)[k] in CompletedDates(catalog)
    ensures |NewerThan(catalog, VerifiedDates(catalog)[k])| == k
  {
    var list := VerifiedDates(catalog);
    assert list[k] in list;
    var before := set j | 0 <= j < k :: list[j];
    PrefixSize(list, k);
    forall d | d in before ensures d in NewerThan(catalog, list[k]) {
      var j :| 0 <= j < k && list[j] == d;
      assert Later(list[j], list[k]) && list[j] in list;
    }
    forall d | d in NewerThan(catalog, list[k]) ensures d in before {
      var j :| 0 <= j < |list| && list[j] == d;
    }
    assert before == NewerThan(catalog, list[k]);
  }

  lemma {:induction false} PrefixSize(list: seq<Date>, k: nat)
    requires k <= |list| && Increasing(list, Later)
    ensures |set j | 0 <= j < k :: list[j]| == k
  {
    if k > 0 {
      PrefixSize(list, k - 1);
      var before := set j | 0 <= j < k - 1 :: list[j];
      assert list[k - 1] !in before by {
        assert forall j :: 0 <= j < k - 1 ==> Later(list[j], list[k - 1]);
      }
      assert (set j | 0 <= j < k :: list[j]) == before + {list[k - 1]};
    }
  }

  // A runner changes place; catalog and files stay.
  lemma MoveKeeps(w: World, i: RunnerId, r: Runner, retention: nat)
    requires Inv(w, retention)
    requires r.Owns() ==> w.At(i).Owns() && r.run == w.At(i).run && r.date == w.At(i).date
    requires r.Published? || (r.Failing? && r.published) ==>
      w.At(i).Published? || (w.At(i).Failing? && w.At(i).published)
    requires r.Pruning? ==> forall k :: 0 <= k < |r.obsolete| ==>
               r.obsolete[k] in CompletedDates(w.catalog) && |NewerThan(w.catalog, r.obsolete[k])| >= retention
    ensures Inv(w.Move(i, r), retention)
  {
    var w' := w.Move(i, r);
    assert forall j :: w'.At(j) == if j == i then r else w.At(j);
  }

  lemma ClaimKeeps(w: World, i: RunnerId, run: RunId, date: Date, retention: nat)
    requires Inv(w, retention)
    ensures Inv(Next(w, ClaimDate(i, run, date)), retention)
  {
    var w' := Next(w, ClaimDate(i, run, date));
    if w.At(i).Idle? && Claim(w.catalog, date, run).Claimed? {
      assert w' == w.(catalog := w.catalog[date := BackupRun(run, Started)]).Move(i, Claiming(run, date));
      assert forall j :: w'.At(j) == if j == i then Claiming(run, date) else w.At(j);
      ClaimUnowned(w, date, run);
      SameCompleted(w.catalog, date, run);
      ClaimOwned(w, w', i, run, date);
      ClaimCompleted(w, w', i, retention);
    }
  }

  lemma ClaimUnowned(w: World, date: Date, run: RunId)
    requires Owned(w) && Claim(w.catalog, date, run).Claimed?
    ensures forall j :: w.At(j).Owns() ==> w.At(j).date != date
    ensures date in w.catalog ==> w.catalog[date].status == Failed
  {
  }

  lemma SameCompleted(catalog: Catalog, date: Date, run: RunId)
    requires date in catalog ==> catalog[date].status == Failed
    ensures CompletedDates(catalog[date := BackupRun(run, Started)]) == CompletedDates(catalog)
    ensures forall d :: NewerThan(catalog[date := BackupRun(run, Started)], d) == NewerThan(catalog, d)
  {
  }

  lemma ClaimOwned(w: World, w': World, i: RunnerId, run: RunId, date: Date)
    requires IdsUnique(w.catalog) && Owned(w) && Exclusive(w) && PublishedOnDisk(w) && !IdTaken(w.catalog, run)
    requires w'.catalog == w.catalog[date := BackupRun(run, Started)] && w'.files == w.files
    requires forall j :: w'.At(j) == if j == i then Claiming(run, date) else w.At(j)
    requires forall j :: w.At(j).Owns() ==> w.At(j).date != date
    ensures IdsUnique(w'.catalog) && Owned(w') && Exclusive(w') && PublishedOnDisk(w')
  {
  }

  lemma ClaimCompleted(w: World, w': World, i: RunnerId, retention: nat)
    requires PrunesObsolete(w, retention) && Retained(w, retention) && w'.files == w.files
    requires CompletedDates(w'.catalog) == CompletedDates(w.catalog)
    requires forall d :: NewerThan(w'.catalog, d) == NewerThan(w.catalog, d)
    requires forall d :: d in CompletedDates(w.catalog) ==> w'.catalog[d] == w.catalog[d]
    requires forall j :: w'.At(j) == w.At(j) || (j == i && !w'.At(j).Pruning?)
    ensures PrunesObsolete(w', retention) && Retained(w', retention)
  {
    hide NewerThan;
  }

  // The owner of a date writes or removes the file of that date, which is not completed.
  lemma OwnFileKeeps(w: World, i: RunnerId, files: Files, r: Runner, retention: nat)
    requires Inv(w, retention) && w.At(i).Owns()
    requires files - {w.At(i).date} == w.files - {w.At(i).date}
    requires !r.Pruning?
    requires r.Owns() ==> r.run == w.At(i).run && r.date == w.At(i).date
    requires r.Published? || (r.Failing? && r.published) ==> w.At(i).date in files && files[w.At(i).date] == w.At(i).run
    ensures Inv(w.(files := files).Move(i, r), retention)
  {
    var w', date := w.(files := files).Move(i, r), w.At(i).date;
    assert forall j :: w'.At(j) == if j == i then r else w.At(j);
    forall d | d != date ensures (d in files <==> d in w.files) && (d in w.files ==> files[d] == w.files[d]) {
      assert d in files - {date} <==> d in w.files - {date};
      if d in w.files {
        assert (files - {date})[d] == (w.files - {date})[d];
      }
    }
    assert date !in CompletedDates(w.catalog);
  }

  lemma MarkKeeps(w: World, i: RunnerId, status: Status, r: Runner, retention: nat)
    requires Inv(w, retention) && w.At(i).Owns() && !r.Owns() && !r.Pruning?
    requires status == Failed || (status == Completed && w.At(i).Published?)
    ensures w.At(i).date in w.catalog
    ensures Inv(w.(catalog := Marked(w.catalog, w.At(i).date, status)).Move(i, r), retention)
  {
    var date := w.At(i).date;
    assert StartedAt(w.catalog, w.At(i).run, date);
    var w' := w.(catalog := Marked(w.catalog, date, status)).Move(i, r);
    assert forall j :: w'.At(j) == if j == i then r else w.At(j);
    assert CompletedDates(w'.catalog) == CompletedDates(w.catalog) + if status == Completed then {date} else {};
    forall d ensures |NewerThan(w.catalog, d)| <= |NewerThan(w'.catalog, d)| {
      NewerGrows(w.catalog, w'.catalog, d);
    }
  }

  lemma PruneKeeps(w: World, i: RunnerId, retention: nat)
    requires Inv(w, retention) && w.At(i).Pruning? && w.At(i).obsolete != []
    ensures Inv(w.(files := w.files - {w.At(i).obsolete[0]}).Move(i, Pruning(w.At(i).obsolete[1..])), retention)
  {
    var obsolete := w.At(i).obsolete;
    var w' := w.(files := w.files - {obsolete[0]}).Move(i, Pruning(obsolete[1..]));
    assert forall j :: w'.At(j) == if j == i then Pruning(obsolete[1..]) else w.At(j);
    assert obsolete[0] in CompletedDates(w.catalog);
    assert forall j :: w.At(j).Owns() ==> w.At(j).date !in CompletedDates(w.catalog);
  }

  // The completed dates a runner prunes: those after the newest ones it keeps.
  ghost function Obsolete(catalog: Catalog, keep: nat): seq<Date> {
    After(VerifiedDates(catalog), keep)
  }

  function After<T>(list: seq<T>, keep: nat): seq<T> {
    if keep <= |list| then list[keep..] else []
  }

  lemma ObsoleteAt(catalog: Catalog, keep: nat, k: nat)
    requires k < |Obsolete(catalog, keep)|
    ensures Obsolete(catalog, keep)[k] in CompletedDates(catalog)
    ensures |NewerThan(catalog, Obsolete(catalog, keep)[k])| >= keep
  {
    NewerInList(catalog, keep + k);
  }

  lemma ReadKeeps(w: World, i: RunnerId, keep: nat, retention: nat)
    requires Inv(w, retention) && w.At(i).MarkedCompleted? && keep >= retention
    ensures Inv(w.Move(i, Pruning(Obsolete(w.catalog, keep))), retention)
  {
    hide IdsUnique, Owned, Exclusive, PublishedOnDisk, PrunesObsolete, Retained, Obsolete;
    var obsolete := Obsolete(w.catalog, keep);
    forall k | 0 <= k < |obsolete|
      ensures obsolete[k] in CompletedDates(w.catalog) && |NewerThan(w.catalog, obsolete[k])| >= retention
    {
      ObsoleteAt(w.catalog, keep, k);
    }
    MoveKeeps(w, i, Pruning(obsolete), retention);
  }

  /** Every step of every runner keeps the invariants, as long as no runner keeps fewer dates than the retention. */
  lemma NextKeeps(w: World, a: Action, retention: nat)
    requires Inv(w, retention) && (a.ReadVerified? ==> a.keep >= retention)
    ensures Inv(Next(w, a), retention)
  {
    hide IdsUnique, Owned, Exclusive, PublishedOnDisk, PrunesObsolete, Retained;
    var r := w.At(a.i);
    match a
    case ClaimDate(i, run, date) => ClaimKeeps(w, i, run, date, retention);
    case Copy(i, fails) =>
      if r.Claiming? {
        MoveKeeps(w, i, if fails then Failing(r.run, r.date, false) else Copied(r.run, r.date), retention);
      }
    case Verify(i, fails) =>
      if r.Copied? {
        MoveKeeps(w, i, if fails then Failing(r.run, r.date, false) else Verified(r.run, r.date), retention);
      }
    case Publish(i, fails, replaced) =>
      if r.Verified? {
        if fails && !replaced {
          MoveKeeps(w, i, Failing(r.run, r.date, false), retention);
        } else {
          assert w.files[r.date := r.run] - {r.date} == w.files - {r.date};
          OwnFileKeeps(w, i, w.files[r.date := r.run],
                       if fails then Failing(r.run, r.date, false) else Published(r.run, r.date), retention);
        }
      }
    case MarkCompletion(i, fails) =>
      if r.Published? {
        if fails || !StartedAt(w.catalog, r.run, r.date) {
          MoveKeeps(w, i, Failing(r.run, r.date, true), retention);
        } else {
          MarkKeeps(w, i, Completed, MarkedCompleted, retention);
        }
      }
    case CleanUp(i, fails) =>
      if r.Failing? {
        if fails || !r.published {
          MoveKeeps(w, i, if fails then Idle else Cleaned(r.run, r.date), retention);
        } else {
          assert w.files - {r.date} - {r.date} == w.files - {r.date};
          OwnFileKeeps(w, i, w.files - {r.date}, Cleaned(r.run, r.date), retention);
        }
      }
    case MarkFailure(i, fails) =>
      if r.Cleaned? {
        if fails || !StartedAt(w.catalog, r.run, r.date) {
          MoveKeeps(w, i, Idle, retention);
        } else {
          MarkKeeps(w, i, Failed, Idle, retention);
        }
      }
    case ReadVerified(i, keep, fails) =>
      if r.MarkedCompleted? {
        if fails { MoveKeeps(w, i, Idle, retention); } else { ReadKeeps(w, i, keep, retention); }
      }
    case PruneNext(i, fails) =>
      if r.Pruning? {
        if fails || r.obsolete == [] { MoveKeeps(w, i, Idle, retention); } else { PruneKeeps(w, i, retention); }
      }
    case Crash(i) => MoveKeeps(w, i, Idle, retention);
  }

  lemma {:induction false} RunKeeps(w: World, actions: seq<Action>, retention: nat)
    requires Inv(w, retention)
    requires forall a :: a in actions && a.ReadVerified? ==> a.keep >= retention
    ensures Inv(Run(w, actions), retention)
    decreases |actions|
  {
    if actions != [] {
      NextKeeps(w, actions[0], retention);
      RunKeeps(Next(w, actions[0]), actions[1..], retention);
    }
  }

  /**
   Retention: however many runners interleave, fail and crash, each of the newest completed dates has on disk the file
   its own run verified and published.
   */
  lemma NewestBackupsSurvive(actions: seq<Action>, retention: nat)
    requires forall a :: a in actions && a.ReadVerified? ==> a.keep >= retention
    ensures var w := Run(INITIAL, actions);
            forall d :: d in CompletedDates(w.catalog) && |NewerThan(w.catalog, d)| < retention ==>
              d in w.files && w.files[d] == w.catalog[d].id
  {
    RunKeeps(INITIAL, actions, retention);
  }

  /** A date once completed stays completed by the same run: no claim, failure or other runner takes it back. */
  lemma CompletedStays(w: World, a: Action, retention: nat, d: Date)
    requires Inv(w, retention) && d in CompletedDates(w.catalog)
    ensures d in CompletedDates(Next(w, a).catalog) && Next(w, a).catalog[d] == w.catalog[d]
  {
    assert w.At(a.i).Owns() ==> StartedAt(w.catalog, w.At(a.i).run, w.At(a.i).date);
  }

  lemma {:induction false} CompletedRemains(w: World, actions: seq<Action>, retention: nat, d: Date)
    requires Inv(w, retention) && d in CompletedDates(w.catalog)
    requires forall a :: a in actions && a.ReadVerified? ==> a.keep >= retention
    ensures d in CompletedDates(Run(w, actions).catalog) && Run(w, actions).catalog[d] == w.catalog[d]
    decreases |actions|
  {
    hide Inv, Next;
    if actions != [] {
      CompletedStays(w, actions[0], retention, d);
      NextKeeps(w, actions[0], retention);
      CompletedRemains(Next(w, actions[0]), actions[1..], retention, d);
    }
  }

  lemma {:induction false} RunJoin(w: World, first: seq<Action>, second: seq<Action>)
    ensures Run(w, first + second) == Run(Run(w, first), second)
    decreases |first|
  {
    hide Next;
    if first == [] {
      assert first + second == second;
    } else {
      assert (first + second)[1..] == first[1..] + second;
      RunJoin(Next(w, first[0]), first[1..], second);
    }
  }

  /** A date once completed is completed by the same run at every later time, whatever runners do, fail or crash. */
  lemma CompletedForever(first: seq<Action>, rest: seq<Action>, d: Date)
    requires d in CompletedDates(Run(INITIAL, first).catalog)
    ensures d in CompletedDates(Run(INITIAL, first + rest).catalog)
    ensures Run(INITIAL, first + rest).catalog[d] == Run(INITIAL, first).catalog[d]
  {
    RunKeeps(INITIAL, first, 0);
    RunJoin(INITIAL, first, rest);
    CompletedRemains(Run(INITIAL, first), rest, 0, d);
  }

  /**
   At any time at most one runner is between its claim and its terminal mark for a date, and the date's row is its own.
   */
  lemma OneRunnerPerDate(actions: seq<Action>, i: RunnerId, j: RunnerId)
    requires var w := Run(INITIAL, actions); w.At(i).Owns() && w.At(j).Owns() && w.At(i).date == w.At(j).date
    ensures var w := Run(INITIAL, actions); i == j && StartedAt(w.catalog, w.At(i).run, w.At(i).date)
  {
    var w := Run(INITIAL, actions);
    RunKeeps(INITIAL, actions, 0);
    assert StartedAt(w.catalog, w.At(i).run, w.At(i).date);
  }

  // Claims

  // No row of the catalog was ever given the id.
  predicate NewId(catalog: Catalog, run: RunId) {
    forall d :: d in catalog ==> catalog[d].id != run
  }

  /**
   An idle runner with a new id gets a date exactly when the date has no row or a FAILED one, and takes the row over.
   */
  lemma ClaimedWhenFree(w: World, i: RunnerId, run: RunId, date: Date)
    requires w.At(i).Idle? && NewId(w.catalog, run)
    ensures var w' := Next(w, ClaimDate(i, run, date));
            if date !in w.catalog || w.catalog[date].status == Failed
            then w'.At(i) == Claiming(run, date) && w'.catalog == w.catalog[date := BackupRun(run, Started)]
            && w'.files == w.files
            else w' == w
  {
  }

  /**
   A failed date can be backed up again: once the attempt of a runner is cleaned up and marked, any idle runner that
   claims the date under a new id gets it, whatever the other runners are doing.
   */
  lemma FailedDateIsClaimedAgain(actions: seq<Action>, i: RunnerId, j: RunnerId, retry: RunId)
    requires Run(INITIAL, actions).At(i).Cleaned? && NewId(Run(INITIAL, actions).catalog, retry)
    requires i == j || Run(INITIAL, actions).At(j).Idle?
    ensures var date := Run(INITIAL, actions).At(i).date;
            var w := Next(Next(Run(INITIAL, actions), MarkFailure(i, false)), ClaimDate(j, retry, date));
            w.At(j) == Claiming(retry, date) && w.catalog[date] == BackupRun(retry, Started)
  {
    var w := Run(INITIAL, actions);
    RunKeeps(INITIAL, actions, 0);
    assert StartedAt(w.catalog, w.At(i).run, w.At(i).date);
    var marked := Next(w, MarkFailure(i, false));
    assert marked.catalog == w.catalog[w.At(i).date := BackupRun(w.At(i).run, Failed)];
    ClaimedWhenFree(marked, j, retry, w.At(i).date);
  }
}
