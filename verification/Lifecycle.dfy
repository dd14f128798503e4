/** Posted history over whole runs: what never changes, and how states move. */
module Lifecycle {
  import opened Wrappers
  import opened Ledger
  import opened Database
  import opened Commands
  import opened Invariants
  import opened PostingProofs
  import opened ReversalProofs
  import opened CompletionProofs
  import opened Machine
  import opened Reachability
  import R = Reconciliation

  function Rank(s: State): nat {
    match s
    case Draft => 0
    case Posting => 1
    case Posted => 2
    case Reconciled => 3
    case Voided => 4
  }

  ghost predicate Kept(db: Database, db': Database, t: TxId) {
    && t in db.transactions && Shown(db', t)
    && db'.transactions[t] == db.transactions[t].(state := db'.transactions[t].state)
    && Moves(db.transactions[t].state, db'.transactions[t].state)
  }

  ghost predicate HistoryKept(db: Database, db': Database) {
    forall t :: Shown(db, t) ==> Kept(db, db', t)
  }

  lemma ReversesKept(db: Database, db': Database, o: TxId, r: TxId)
    requires Reverses(db, db', o, r)
    ensures HistoryKept(db, db')
  {
  }

  lemma DraftKept(db: Database, mid: Database, db': Database, id: TxId)
    requires HistoryKept(db, mid) && DraftOnly(mid, db', id)
    ensures HistoryKept(db, db')
  {
    DraftInvisible(mid, db', id);
    forall t | Shown(db, t) ensures Kept(db, db', t) {
      assert Kept(db, mid, t) && Shown(mid, t);
    }
  }

  lemma PutKept(db: Database, db': Database, id: TxId)
    requires id in db'.transactions && PutsPosted(db, db', id, db'.transactions[id])
    ensures HistoryKept(db, db')
  {
  }

  lemma ExecuteKept(db: Database, c: Command, supply: Supply)
    requires LedgerInv(db) && Execute(db, c, supply).Ok?
    ensures HistoryKept(db, Execute(db, c, supply).value.db)
  {
    hide CatalogInv, RowsInv, EntryIdsInv, LinksInv, MembershipsInv, StatesInv;
    var db' := Execute(db, c, supply).value.db;
    if c.Reverse? {
      var mid := ExecuteReversalReverses(db, c, supply);
      ReversesKept(db, mid, c.original, supply.tx);
      if db' != mid {
        DraftKept(db, mid, db', supply.replacement);
      }
    } else {
      ExecutePostingPuts(db, c, supply);
      PutKept(db, db', Execute(db, c, supply).value.result.tx);
    }
  }

  lemma SameTransactionsKept(db: Database, mid: Database, db': Database)
    requires HistoryKept(db, mid) && db'.transactions == mid.transactions
    ensures HistoryKept(db, db')
  {
    forall t | Shown(db, t) ensures Kept(db, db', t) {
      assert Kept(db, mid, t);
    }
  }

  lemma DeliverKept(db: Database, call: Call, injected: bool, lost: bool)
    requires LedgerInv(db)
    ensures HistoryKept(db, Deliver(db, call, injected, lost))
  {
    hide Execute, LedgerInv;
    var db' := Deliver(db, call, injected, lost);
    if !injected && Attempt(db, call).Ok? && call.Slot() !in db.keys {
      var reserved := Reserve(db, call).value.db;
      SameLedger(db, reserved);
      ExecuteKept(reserved, call.command, call.supply);
      var mid := Execute(reserved, call.command, call.supply).value.db;
      forall t | Shown(db, t) ensures Kept(db, db', t) {
        assert Shown(reserved, t) && Kept(reserved, mid, t);
      }
    }
  }

  lemma CompleteKept(db: Database, c: R.Completion, injected: bool, lost: bool)
    requires LedgerInv(db)
    ensures HistoryKept(db, R.Complete(db, c, injected, lost))
  {
    hide CatalogInv, RowsInv, EntryIdsInv, StatesInv, LinksInv, MembershipsInv, R.Check, R.AddCompleted,
        R.ProjectAffected;
    if !injected && R.AttemptCompletion(db, c).Ok? {
      AllAdvance(db, c);
      assert forall t :: Shown(db, t) ==> Kept(db, Completed(db, c), t);
      SameTransactionsKept(db, Completed(db, c), R.Complete(db, c, injected, lost));
    }
  }

  /**
   One step leaves every posted transaction in place with the same kind, dates, description and entries, and moves its
   state only as the lifecycle trigger allows.
   */
  lemma StepKeepsHistory(db: Database, s: Step)
    requires Inv(db)
    ensures HistoryKept(db, Apply(db, s))
  {
    hide LedgerInv, KeysInv, AuditInv, Deliver, R.Complete, CreateDraft, UpdateDraft, DiscardDraft, HistoryKept;
    if s.Delivery? {
      DeliverKept(db, s.call, s.injected, s.lost);
    } else if s.Completing? {
      CompleteKept(db, s.completion, s.injected, s.lost);
    } else {
      OtherStepKept(db, s);
    }
  }

  lemma OtherStepKept(db: Database, s: Step)
    requires Inv(db) && !s.Delivery? && !s.Completing?
    ensures HistoryKept(db, Apply(db, s))
  {
    hide KeysInv, AuditInv, CatalogInv, EntryIdsInv, LinksInv, MembershipsInv, StatesInv, UseCatalog,
         CreateDraft, UpdateDraft, DiscardDraft;
    if s.DraftCreation? || s.DraftUpdate? || s.DraftDiscarding? {
      DraftStep(db, s);
      if Apply(db, s) != db {
        DraftInvisible(db, Apply(db, s), s.draft);
      }
    } else {
      CatalogStep(db, s.use);
    }
  }

  // Later in a run: the same row, its state no earlier.
  ghost predicate Persists(db: Database, db': Database, t: TxId) {
    && t in db.transactions && Shown(db', t)
    && db'.transactions[t] == db.transactions[t].(state := db'.transactions[t].state)
    && Rank(db.transactions[t].state) <= Rank(db'.transactions[t].state)
  }

  lemma {:induction false} HistoryPersists(db: Database, steps: seq<Step>, t: TxId)
    requires Inv(db) && Shown(db, t)
    ensures Persists(db, Run(db, steps), t)
    decreases |steps|
  {
    if steps != [] {
      hide Apply, Inv, Persists;
      var next := Apply(db, steps[0]);
      ApplyKeeps(db, steps[0]);
      StepKeepsHistory(db, steps[0]);
      assert Kept(db, next, t);
      HistoryPersists(next, steps[1..], t);
      KeptThenPersists(db, next, Run(next, steps[1..]), t);
    } else {
      hide Inv;
    }
  }

  lemma KeptThenPersists(db: Database, next: Database, db': Database, t: TxId)
    requires Kept(db, next, t) && Persists(next, db', t)
    ensures Persists(db, db', t)
  {
  }

  lemma {:induction false} RunSplit(db: Database, first: seq<Step>, rest: seq<Step>)
    ensures Run(db, first + rest) == Run(Run(db, first), rest)
    decreases |first|
  {
    if first == [] {
      assert first + rest == rest;
    } else {
      assert (first + rest)[1..] == first[1..] + rest;
      RunSplit(Apply(db, first[0]), first[1..], rest);
    }
  }

  /**
   In every run, a transaction once posted is there for good, with the same entries and snapshot, and its state goes
   POSTED, RECONCILED, VOIDED and never back, however archiving, reconciling and reversing are mixed.
   */
  lemma PostedHistoryIsImmutable(first: seq<Step>, rest: seq<Step>, t: TxId)
    requires Shown(Run(EMPTY, first), t)
    ensures Persists(Run(EMPTY, first), Run(EMPTY, first + rest), t)
  {
    Reachable(first);
    RunSplit(EMPTY, first, rest);
    HistoryPersists(Run(EMPTY, first), rest, t);
  }

  // A committed transaction is a draft without entries or a balanced pair of entries of its own space.
  ghost predicate WellPosted(x: Transaction) {
    && x.state != Posting
    && (x.state == Draft ==> x.entries == [])
    && (x.state != Draft ==>
         && |x.entries| >= 2
         && SignedTotal(x.entries) == 0
         && forall e :: e in x.entries ==> e.space == x.space && e.amount > 0)
  }

  lemma PairBalances(x: Transaction)
    requires |x.entries| == 2 && x.entries[0].amount == x.entries[1].amount && x.entries[0].side != x.entries[1].side
    ensures SignedTotal(x.entries) == 0
  {
    assert x.entries[1..][1..] == [];
    assert SignedTotal(x.entries[1..]) == x.entries[1].Signed() + SignedTotal(x.entries[1..][1..]);
  }

  lemma ReachableIsWellPosted(steps: seq<Step>)
    ensures forall t :: t in Run(EMPTY, steps).transactions ==> WellPosted(Run(EMPTY, steps).transactions[t])
  {
    hide WellPosted;
    var db := Run(EMPTY, steps);
    forall t | t in db.transactions ensures WellPosted(db.transactions[t]) {
      assert RowOk(db, db.transactions[t]) by { Reachable(steps); }
      RowIsWellPosted(db, db.transactions[t]);
    }
  }

  lemma RowIsWellPosted(db: Database, x: Transaction)
    requires RowOk(db, x)
    ensures WellPosted(x)
  {
    if x.state != Draft {
      PairBalances(x);
    }
  }

  lemma StepKeepsAudit(db: Database, s: Step)
    ensures db.audit <= Apply(db, s).audit
  {
    hide Deliver, R.Complete, ValidateSelections, UseCatalog;
    match s
    case Delivery(call, injected, lost) => ExecuteKeepsAudit(db, call, injected, lost);
    case Completing(completion, injected, lost) => CompletionKeepsAudit(db, completion, injected, lost);
    case Cataloguing(use) => CatalogOnlyChanges(db, use);
    case DraftCreation(_, _) =>
    case DraftUpdate(_, _) =>
    case DraftDiscarding(_, _) =>
  }

  lemma {:induction false} StartersKeepAudit(db: Database, space: SpaceId, starters: seq<Starter>)
    ensures EnsureStarters(db, space, starters).Ok? ==> EnsureStarters(db, space, starters).value.audit == db.audit
    decreases |starters|
  {
    if starters != [] {
      StartersKeepAudit(db, space, starters[..|starters| - 1]);
    }
  }

  lemma CatalogOnlyChanges(db: Database, use: CatalogUse)
    ensures Committed(db, UseCatalog(db, use)).audit == db.audit
  {
    hide EnsureStarters, ValidatedName, AccountNameTaken, CategoryNameTaken;
    if use.StarterCategories? {
      StartersKeepAudit(db, use.space, Starters(use.income, use.expense));
    }
  }

  lemma BuildSameAudit(db: Database, c: Command, supply: Supply)
    requires !c.Reverse? && BuildPosting(db, c, supply).Ok?
    ensures BuildPosting(db, c, supply).value.db.audit == db.audit
  {
    hide PostedTransaction, MovementEntries, TransferEntries, OpeningEntries, ValidateSelections;
  }

  lemma ExecuteSameAudit(db: Database, c: Command, supply: Supply)
    requires Execute(db, c, supply).Ok?
    ensures Execute(db, c, supply).value.db.audit == db.audit
  {
    hide BuildPosting, BuildReversal, EntriesClash, StoredOrder;
    if !c.Reverse? {
      BuildSameAudit(db, c, supply);
    }
  }

  lemma ExecuteKeepsAudit(db: Database, call: Call, injected: bool, lost: bool)
    ensures db.audit <= Deliver(db, call, injected, lost).audit
  {
    hide Execute;
    var reserved := db.(keys := db.keys[call.Slot() := IdempotencyRecord(call.command, None)]);
    if Execute(reserved, call.command, call.supply).Ok? {
      ExecuteSameAudit(reserved, call.command, call.supply);
    }
  }

  lemma CompletionKeepsAudit(db: Database, c: R.Completion, injected: bool, lost: bool)
    ensures db.audit <= R.Complete(db, c, injected, lost).audit
  {
    hide R.Check;
  }

  /** The audit log is append-only: in every run, what was logged stays where it was. */
  lemma {:induction false} AuditOnlyGrows(db: Database, steps: seq<Step>)
    ensures db.audit <= Run(db, steps).audit
    decreases |steps|
  {
    if steps != [] {
      StepKeepsAudit(db, steps[0]);
      AuditOnlyGrows(Apply(db, steps[0]), steps[1..]);
    }
  }
}
