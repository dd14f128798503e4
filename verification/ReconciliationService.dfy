/** Completing a reconciliation inside its unit of work. */
module ReconciliationService {
  import opened Wrappers
  import opened Sums
  import opened Ordering
  import opened Ledger
  import opened Database
  import opened Invariants
  import opened Reconciliation
  import opened CompletionProofs
  import opened Reachability
  import opened Store
  import opened LedgerServices

  // SELECT SUM over the join of transactions and entries.
  method Total(txs: map<TxId, Transaction>, g: Measure) returns (total: Cents)
    ensures total == Tally(txs, g)
  {
    var rows := RowTallies(txs, g);
    var remaining := rows.Keys;
    total := 0;
    assert Within(rows, remaining) == rows;
    while remaining != {}
      invariant remaining <= rows.Keys
      invariant total + Sum(Within(rows, remaining)) == Sum(rows)
      decreases |remaining|
    {
      var t :| t in remaining;
      SumWithinOneMore(rows, remaining - {t}, t);
      assert {t} + (remaining - {t}) == remaining;
      total := total + rows[t];
      remaining := remaining - {t};
    }
    assert Within(rows, {}) == map[];
  }

  datatype Balance = Balance(prior: Cents, selected: Cents) {
    function Checked(): Cents {
      prior + selected
    }
  }

  /** Recomputes candidates and balances from the ledger; refuses anything but an exact, eligible selection. */
  method Draft(uow: UnitOfWork, c: Completion) returns (r: Result<Balance>)
    ensures r.Ok? ==>
      && r.value == Balance(PriorCents(uow.working, c.space, c.account, c.cutoff), SelectedCents(uow.working, c))
      && Check(uow.working, c) == if c.observed == r.value.Checked() then Ok(()) else Err(NonZeroDifference)
    ensures r.Err? ==> Check(uow.working, c) == Err(r.error) && r.error != Injected
  {
    hide CandidateIds, PriorMeasure, SelectedMeasure, Unique, Tally;
    var account :- EligibleAccount(uow.working, c.space, c.account);
    var candidates := CandidateIds(uow.working, c.space, c.account, c.cutoff);
    if exists id :: id in c.selected && id !in candidates {
      return Err(IneligibleEntry);
    }
    if c.selected == [] || !Unique(c.selected) {
      return Err(IneligibleEntry);
    }
    var prior := Total(uow.working.transactions, PriorMeasure(uow.working, c.space, c.account, c.cutoff));
    var selected := Total(uow.working.transactions,
                          SelectedMeasure(CompletedIds(uow.working), c.space, c.account, c.cutoff, Ids(c.selected)));
    return Ok(Balance(prior, selected));
  }

  /** Persists the reconciliation and a membership for every selected entry. */
  method AddCompleted(uow: UnitOfWork, c: Completion) returns (r: Result<()>)
    requires Unique(c.selected)
    modifies uow`working, uow`calls
    ensures Faults(uow.failing, r)
    ensures r.Ok? ==> Reconciliation.AddCompleted(old(uow.working), c) == Ok(uow.working)
    ensures r.Err? ==> r.error == Injected || Reconciliation.AddCompleted(old(uow.working), c) == Err(r.error)
  {
    ghost var db := uow.working;
    if exists id :: id in c.selected && id in CompletedIds(uow.working) {
      return Err(DuplicateMembership);
    }
    var _ :- uow.InsertReconciliation(c.id, ReconciliationRecord(c.space, c.account, c.cutoff, c.observed));
    ghost var recorded := uow.working;
    for i := 0 to |c.selected|
      invariant uow.working
           == recorded.(memberships := db.memberships + set j | 0 <= j < i :: Membership(c.id, c.selected[j]))
    {
      assert c.selected[i] in c.selected;
      var _ :- uow.InsertMembership(Membership(c.id, c.selected[i]));
    }
    assert (set j | 0 <= j < |c.selected| :: Membership(c.id, c.selected[j]))
        == (set id | id in c.selected :: Membership(c.id, id));
    return Ok(());
  }

  function AffectedIds(db: Database, space: SpaceId, selected: set<EntryId>): set<TxId> {
    set t | t in db.transactions && db.transactions[t].space == space && Affected(db.transactions[t], space, selected)
  }

  // The database when the transactions with the given ids have been projected.
  function Projected(db: Database, done: set<TxId>): Database {
    db.(transactions := map t | t in db.transactions ::
          if t in done then Reprojected(db, db.transactions[t]) else db.transactions[t])
  }

  lemma ProjectedNext(db: Database, done: set<TxId>, t: TxId)
    requires t in db.transactions && t !in done
    ensures t in Projected(db, done).transactions && Projected(db, done).transactions[t] == db.transactions[t]
    ensures Projected(db, done + {t}) == WithRow(Projected(db, done), t, Reprojected(db, db.transactions[t]))
  {
    assert Projected(db, done + {t}).transactions
        == Projected(db, done).transactions[t := Reprojected(db, db.transactions[t])];
  }

  lemma AllProjected(db: Database, space: SpaceId, selected: set<EntryId>)
    ensures Projected(db, AffectedIds(db, space, selected)) == ProjectAffected(db, space, selected)
    ensures Projected(db, {}) == db
  {
    assert Projected(db, AffectedIds(db, space, selected)).transactions
      == ProjectAffected(db, space, selected).transactions;
    assert Projected(db, {}).transactions == db.transactions;
  }

  // Every projection of an affected transaction is a move the lifecycle trigger lets through.
  ghost predicate MovesForward(db: Database, ids: set<TxId>) {
    forall t :: t in ids ==>
      && t in db.transactions
      && (db.transactions[t].state != Voided ==>
           StateUpdateAllowed(db.transactions[t], ProjectState(db.transactions[t], db.accounts, CompletedIds(db))))
  }

  // A transaction paired with the state it is projected to.
  predicate Reported(db: Database, t: TxId, p: (TxId, State)) {
    p.0 == t && t in db.transactions && p.1 == ProjectState(db.transactions[t], db.accounts, CompletedIds(db))
  }

  // The transactions with the given ids, each once and in id order, with their projected states.
  ghost predicate ReportsAll(db: Database, ids: set<TxId>, states: seq<(TxId, State)>) {
    |states| == |ids| && forall i :: 0 <= i < |states| ==> Reported(db, Ascending(ids)[i], states[i])
  }

  // The transactions with the given ids, each once and in id order, with the states stored for them.
  ghost predicate ReportsStored(db: Database, ids: set<TxId>, states: seq<(TxId, State)>) {
    && |states| == |ids|
    && forall i :: 0 <= i < |states| ==>
      states[i].0 == Ascending(ids)[i] && states[i].0 in db.transactions
      && states[i].1 == db.transactions[states[i].0].state
  }

  lemma ProjectedIsStored(db: Database, ids: set<TxId>, states: seq<(TxId, State)>)
    requires ReportsAll(db, ids, states)
    ensures ReportsStored(Projected(db, ids), ids, states)
  {
    var sorted := Ascending(ids);
    forall i | 0 <= i < |states|
      ensures states[i].0 == sorted[i] && states[i].0 in db.transactions
      ensures states[i].1 == Projected(db, ids).transactions[states[i].0].state
    {
      assert Reported(db, sorted[i], states[i]) && sorted[i] in sorted;
    }
  }

  // Stores the projected state of one transaction, unless it is voided.
  method ProjectOne(uow: UnitOfWork, ghost db: Database, ghost done: set<TxId>, t: TxId) returns (r: Result<State>)
    requires uow.working == Projected(db, done) && t in db.transactions && t !in done
    requires db.transactions[t].state != Voided ==>
      StateUpdateAllowed(db.transactions[t], ProjectState(db.transactions[t], db.accounts, CompletedIds(db)))
    modifies uow`working, uow`calls
    ensures Faults(uow.failing, r)
    ensures r.Ok? ==> uow.working == Projected(db, done + {t})
    ensures r.Ok? ==> r.value == ProjectState(db.transactions[t], db.accounts, CompletedIds(db))
    ensures r.Err? ==> r.error == Injected
  {
    hide StateUpdateAllowed, ProjectState;
    ProjectedNext(db, done, t);
    hide Projected;
    ProjectedFrame(db, done);
    var row := uow.working.transactions[t];
    var state := ProjectState(row, uow.working.accounts, CompletedIds(uow.working));
    if row.state != Voided {
      var _ :- uow.UpdateState(t, state);
    } else {
      SameRow(uow.working, t);
    }
    return Ok(state);
  }

  lemma ProjectedFrame(db: Database, done: set<TxId>)
    ensures Projected(db, done).accounts == db.accounts && Projected(db, done).memberships == db.memberships
  {
  }

  lemma SameRow(db: Database, t: TxId)
    requires t in db.transactions
    ensures WithRow(db, t, db.transactions[t]) == db
  {
    assert db.transactions[t := db.transactions[t]] == db.transactions;
  }

  /** Projects the affected transactions one by one, in id order, and reports their states. */
  method ProjectAll(uow: UnitOfWork, ids: set<TxId>) returns (r: Result<seq<(TxId, State)>>)
    requires MovesForward(uow.working, ids)
    modifies uow`working, uow`calls
    ensures Faults(uow.failing, r)
    ensures r.Ok? ==> uow.working == Projected(old(uow.working), ids)
    ensures r.Ok? ==> ReportsAll(old(uow.working), ids, r.value)
    ensures r.Err? ==> r.error == Injected
  {
    hide StateUpdateAllowed, ProjectState, Projected, Ascending;
    ghost var db := uow.working;
    var sorted := SortedIds(ids);
    AllTaken(sorted, ids);
    AllProjected(db, 0, {});
    assert Taken(sorted, 0) == {};
    var projected: seq<(TxId, State)> := [];
    for i := 0 to |sorted|
      invariant uow.working == Projected(db, Taken(sorted, i))
      invariant |projected| == i
      invariant forall k :: 0 <= k < i ==> Reported(db, sorted[k], projected[k])
    {
      TakeOneMore(sorted, i);
      assert sorted[i] in ids;
      var state :- ProjectOne(uow, db, Taken(sorted, i), sorted[i]);
      projected := projected + [(sorted[i], state)];
    }
    return Ok(projected);
  }

  /** Stores the projected states of the transactions with selected entries, and returns what it stored. */
  method ProjectAffectedTransactions(uow: UnitOfWork, space: SpaceId, selected: set<EntryId>)
    returns (r: Result<seq<(TxId, State)>>)
    requires MovesForward(uow.working, AffectedIds(uow.working, space, selected))
    modifies uow`working, uow`calls
    ensures Faults(uow.failing, r)
    ensures r.Ok? ==> uow.working == ProjectAffected(old(uow.working), space, selected)
    ensures r.Ok? ==> ReportsStored(uow.working, AffectedIds(old(uow.working), space, selected), r.value)
    ensures r.Err? ==> r.error == Injected
  {
    hide AffectedIds, MovesForward, Projected, ProjectAffected, ReportsAll, ReportsStored;
    ghost var db := uow.working;
    var ids := AffectedIds(uow.working, space, selected);
    AllProjected(db, space, selected);
    var states :- ProjectAll(uow, ids);
    ProjectedIsStored(db, ids, states);
    return Ok(states);
  }

  lemma StoredStays(db: Database, db': Database, ids: set<TxId>, states: seq<(TxId, State)>)
    requires ReportsStored(db, ids, states) && db'.transactions == db.transactions
    ensures ReportsStored(db', ids, states)
  {
  }

  lemma AffectedMovesForward(db: Database, c: Completion)
    requires CatalogInv(db) && RowsInv(db) && EntryIdsInv(db) && StatesInv(db) && Admitted(db, c)
    ensures MovesForward(Added(db, c), AffectedIds(Added(db, c), c.space, Ids(c.selected)))
  {
    forall t | t in AffectedIds(Added(db, c), c.space, Ids(c.selected)) && db.transactions[t].state != Voided
      ensures StateUpdateAllowed(db.transactions[t], ProjectState(db.transactions[t], db.accounts,
                                                                  CompletedIds(Added(db, c))))
    {
      CompletionAdvances(db, c, t);
    }
  }

  datatype ReconciliationResult = ReconciliationResult(balance: Balance, states: seq<(TxId, State)>)

  // What runs between entering the unit of work and committing it.
  method RunCompletion(uow: UnitOfWork, c: Completion) returns (r: Result<ReconciliationResult>)
    requires LedgerInv(uow.working)
    modifies uow`working, uow`calls
    ensures Faults(uow.failing, r)
    ensures r.Ok? ==> AttemptCompletion(old(uow.working), c) == Ok(uow.working)
    ensures r.Ok? ==> r.value.balance.Checked() == c.observed
    ensures r.Ok? ==> ReportsStored(uow.working, AffectedIds(old(uow.working), c.space, Ids(c.selected)),
                                    r.value.states)
    ensures r.Err? ==> r.error == Injected || AttemptCompletion(old(uow.working), c) == Err(r.error)
  {
    hide LedgerInv, Check, Reconciliation.AddCompleted, ProjectAffected, Projected, AffectedIds, MovesForward,
         ReportsStored;
    ghost var db := uow.working;
    var balance :- Draft(uow, c);
    if c.observed != balance.Checked() {
      return Err(NonZeroDifference);
    }
    assert Unique(c.selected) by { CheckedIsUnique(db, c); }
    var _ :- AddCompleted(uow, c);
    assert MovesForward(uow.working, AffectedIds(uow.working, c.space, Ids(c.selected))) by {
      PartsOf(db);
      AffectedMovesForward(db, c);
    }
    SameAffected(db, uow.working, c);
    var states :- ProjectAffectedTransactions(uow, c.space, Ids(c.selected));
    ghost var projected := uow.working;
    var _ :- uow.AppendEvent(CompletionEvent(c, true));
    StoredStays(projected, uow.working, AffectedIds(db, c.space, Ids(c.selected)), states);
    return Ok(ReconciliationResult(balance, states));
  }

  lemma SameAffected(db: Database, added: Database, c: Completion)
    requires Reconciliation.AddCompleted(db, c) == Ok(added)
    ensures AffectedIds(added, c.space, Ids(c.selected)) == AffectedIds(db, c.space, Ids(c.selected))
  {
  }

  lemma CheckedIsUnique(db: Database, c: Completion)
    requires Check(db, c).Ok?
    ensures Unique(c.selected)
  {
  }

  /**
   Completes a reconciliation. Whatever write fails, the committed database is the one the specification gives, and
   neither the unique index on completed entries nor the lifecycle trigger is ever what refuses it.
   */
  method CompleteReconciliation(uow: UnitOfWork, c: Completion) returns (r: Result<ReconciliationResult>, lost: bool)
    requires !uow.active && Inv(uow.committed)
    modifies uow
    ensures !uow.active && Inv(uow.committed)
    ensures uow.committed == Complete(old(uow.committed), c, r == Err(Injected), lost)
    ensures uow.failing == {} ==> r != Err(Injected) && !lost
    ensures r.Ok? ==> AttemptCompletion(old(uow.committed), c).Ok? && r.value.balance.Checked() == c.observed
    ensures r.Ok? ==>
      ReportsStored(uow.committed, AffectedIds(old(uow.committed), c.space, Ids(c.selected)), r.value.states)
    ensures r.Err? ==> r.error == Injected || AttemptCompletion(old(uow.committed), c) == Err(r.error)
    ensures r != Err(TriggerAbort) && r != Err(DuplicateMembership)
  {
    hide AttemptCompletion, LedgerInv, KeysInv, AuditInv, ReportsStored, AffectedIds;
    ghost var db := uow.committed;
    var entered := uow.Enter();
    r := RunCompletion(uow, c);
    lost := false;
    if r.Ok? {
      var committed := uow.Commit();
      if committed.Err? {
        r := Err(committed.error);
      }
    } else {
      uow.Rollback();
    }
    if r.Err? {
      var recorded := RecordFailure(uow, CompletionEvent(c, false));
      lost := recorded.Err?;
    }
    CompleteKeeps(db, c, r == Err(Injected), lost);
    NeverDuplicates(db, c);
  }

  /** A selection that has passed its checks has no completed entry, and no completion trips the lifecycle trigger. */
  lemma NeverDuplicates(db: Database, c: Completion)
    ensures AttemptCompletion(db, c) != Err(DuplicateMembership) && AttemptCompletion(db, c) != Err(TriggerAbort)
  {
    if Check(db, c).Ok? {
      forall id | id in c.selected ensures id !in CompletedIds(db) {
        assert id in CandidateIds(db, c.space, c.account, c.cutoff);
      }
    }
  }
}
