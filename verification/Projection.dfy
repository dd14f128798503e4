/** How the stored transaction state relates to the state projected from completed entries. */
module Projection {
  import opened Ledger
  import opened Database
  import opened Commands
  import opened Invariants
  import opened PostingProofs
  import opened ReversalProofs
  import opened CompletionProofs
  import opened Machine
  import opened Reachability
  import opened CatalogNames
  import R = Reconciliation

  predicate Projected(db: Database, x: Transaction) {
    x.state == ProjectState(x, db.accounts, CompletedIds(db))
  }

  // The stored state of transaction t is the projected one.
  predicate Agrees(db: Database, t: TxId) {
    t in db.transactions && Projected(db, db.transactions[t])
  }

  // Archive flags over one step

  // The step is an archiving or unarchiving that changes the flag of an account.
  predicate ChangesFlag(db: Database, s: Step) {
    && s.Cataloguing? && s.use.AccountArchiving?
    && GetAccount(db, s.use.space, s.use.account).Ok?
    && db.accounts[s.use.account].archived != s.use.archived
  }

  ghost predicate FlagsKept(db: Database, db': Database) {
    && (forall a :: a in db.accounts ==> a in db'.accounts && db'.accounts[a].archived == db.accounts[a].archived)
    && (forall a :: a in db'.accounts && a !in db.accounts ==> !db'.accounts[a].archived)
  }

  lemma PostingKeepsFlags(db: Database, c: Command, supply: Supply)
    requires !c.Reverse? && ExecutePosting(db, c, supply).Ok?
    ensures FlagsKept(db, ExecutePosting(db, c, supply).value.db)
  {
    hide EntriesClash, StoredOrder;
    assert FlagsKept(db, BuildPosting(db, c, supply).value.db) by { BuildKeepsFlags(db, c, supply); }
  }

  lemma BuildKeepsFlags(db: Database, c: Command, supply: Supply)
    requires !c.Reverse? && BuildPosting(db, c, supply).Ok?
    ensures FlagsKept(db, BuildPosting(db, c, supply).value.db)
  {
    hide PostedTransaction, MovementEntries, TransferEntries, OpeningEntries, ValidateSelections, EnsureEquity,
        FlagsKept;
    SameFlags(db);
    var space := if c.PostDraft? && c.draft in db.transactions then db.transactions[c.draft].space else c.space;
    if EnsureEquity(db, space).Ok? {
      EquityKeepsFlags(db, space);
    }
  }

  lemma SameFlags(db: Database)
    ensures FlagsKept(db, db)
  {
  }

  lemma EquityKeepsFlags(db: Database, space: SpaceId)
    requires EnsureEquity(db, space).Ok?
    ensures FlagsKept(db, EnsureEquity(db, space).value)
  {
    hide AccountNameTaken;
    var db' := EnsureEquity(db, space).value;
    assert db' == db || db'.accounts == db.accounts[OpeningEquity(space) := db'.accounts[OpeningEquity(space)]];
  }

  lemma ReversalKeepsAccounts(db: Database, c: Command, supply: Supply)
    requires c.Reverse? && ExecuteReversal(db, c, supply).Ok?
    ensures ExecuteReversal(db, c, supply).value.db.accounts == db.accounts
  {
    hide BuildReversal, EntriesClash, StoredOrder;
  }

  lemma DeliverKeepsFlags(db: Database, call: Call, injected: bool, lost: bool)
    requires LedgerInv(db)
    ensures FlagsKept(db, Deliver(db, call, injected, lost))
  {
    hide LedgerInv, Execute, ExecutePosting, ExecuteReversal, Deliver;
    var reserved := DeliverSummary(db, call, injected, lost);
    if Execute(reserved, call.command, call.supply).Ok? {
      ExecuteKeepsFlags(reserved, call.command, call.supply);
    }
  }

  lemma ExecuteKeepsFlags(db: Database, c: Command, supply: Supply)
    requires Execute(db, c, supply).Ok?
    ensures FlagsKept(db, Execute(db, c, supply).value.db)
  {
    hide ExecutePosting, ExecuteReversal;
    if c.Reverse? {
      ReversalKeepsAccounts(db, c, supply);
    } else {
      PostingKeepsFlags(db, c, supply);
    }
  }

  lemma {:induction false} StartersKeepAccounts(db: Database, space: SpaceId, starters: seq<Starter>)
    ensures EnsureStarters(db, space, starters).Ok? ==>
      EnsureStarters(db, space, starters).value.accounts == db.accounts
    decreases |starters|
  {
    if starters != [] {
      StartersKeepAccounts(db, space, starters[..|starters| - 1]);
    }
  }

  lemma CatalogKeepsFlags(db: Database, use: CatalogUse)
    requires !ChangesFlag(db, Cataloguing(use))
    ensures FlagsKept(db, Committed(db, UseCatalog(db, use)))
  {
    hide EnsureStarters, ValidatedName, AccountNameTaken, CategoryNameTaken;
    if use.StarterCategories? {
      StartersKeepAccounts(db, use.space, Starters(use.income, use.expense));
    }
  }

  lemma CompletionKeepsAccounts(db: Database, c: R.Completion)
    ensures R.AttemptCompletion(db, c).Ok? ==> R.AttemptCompletion(db, c).value.accounts == db.accounts
  {
    hide R.Check;
  }

  lemma DraftKeepsAccounts(db: Database, s: Step)
    requires s.DraftCreation? || s.DraftUpdate? || s.DraftDiscarding?
    ensures Apply(db, s).accounts == db.accounts
  {
    hide ValidateSelections;
  }

  lemma StepKeepsFlags(db: Database, s: Step)
    requires LedgerInv(db) && !ChangesFlag(db, s)
    ensures FlagsKept(db, Apply(db, s))
  {
    hide LedgerInv, Deliver, R.AttemptCompletion, CreateDraft, UpdateDraft, DiscardDraft, UseCatalog;
    if s.Delivery? {
      DeliverKeepsFlags(db, s.call, s.injected, s.lost);
    } else if s.Completing? {
      CompletionKeepsAccounts(db, s.completion);
    } else if s.Cataloguing? {
      CatalogKeepsFlags(db, s.use);
    } else {
      DraftKeepsAccounts(db, s);
    }
  }

  // Rows over one step that completes nothing

  // The row of t is as before, perhaps voided, or a draft, or just posted with nothing completed.
  ghost predicate Settled(db: Database, db': Database, t: TxId)
    requires t in db'.transactions
  {
    var y := db'.transactions[t];
    || (t in db.transactions && y == db.transactions[t].(state := y.state)
        && (y.state == db.transactions[t].state || y.state == Voided))
    || y.state == Draft
    || (y.state == Posted && forall e :: e in y.entries ==> e.id !in CompletedIds(db))
  }

  lemma ExecuteSettles(db: Database, c: Command, supply: Supply, t: TxId)
    requires LedgerInv(db) && Execute(db, c, supply).Ok? && t in Execute(db, c, supply).value.db.transactions
    ensures var db' := Execute(db, c, supply).value.db;
            Settled(db, db', t) && CatalogExtends(db, db') && db'.memberships == db.memberships
  {
    hide LedgerInv, Execute, CatalogInv, PutsPosted, Reverses, Settled, DraftOnly, CatalogExtends;
    PartsOf(db);
    hide RowsInv, MembershipsInv, EntryIdsInv, LinksInv, StatesInv;
    var db', id := Execute(db, c, supply).value.db, Execute(db, c, supply).value.result.tx;
    var mid := ExecuteSummary(db, c, supply);
    if c.Reverse? {
      ReversesFrame(db, mid, c.original, id);
      if db' == mid {
        ReversesSettles(db, mid, c.original, id, t);
      } else {
        DraftOnlyFrame(mid, db', supply.replacement, t);
        if t != supply.replacement {
          ReversesSettles(db, mid, c.original, id, t);
          SettledStays(db, mid, db', t);
        }
        ExtendsOnly(db, mid, db');
      }
    } else {
      PutsSettles(db, db', id, t);
    }
  }

  lemma PutsSettles(db: Database, db': Database, id: TxId, t: TxId)
    requires MembershipsInv(db) && t in db'.transactions && id in db'.transactions
    requires PutsPosted(db, db', id, db'.transactions[id])
    ensures Settled(db, db', t) && CatalogExtends(db, db') && db'.memberships == db.memberships
  {
    PutUncompleted(db, db', id, db'.transactions[id]);
    hide CatalogExtends, Shape, HasEntry;
  }

  lemma ReversesFrame(db: Database, mid: Database, o: TxId, r: TxId)
    requires Reverses(db, mid, o, r)
    ensures CatalogExtends(db, mid) && mid.memberships == db.memberships
  {
    hide Shape, Mirrors, HasEntry;
  }

  lemma ReversesSettles(db: Database, mid: Database, o: TxId, r: TxId, t: TxId)
    requires MembershipsInv(db) && Reverses(db, mid, o, r) && t in mid.transactions
    ensures Settled(db, mid, t)
  {
    PutUncompleted(db, db.(transactions := db.transactions[r := mid.transactions[r]]), r, mid.transactions[r]);
    hide CatalogExtends, Shape, Mirrors, HasEntry, MembershipsInv;
  }

  lemma DraftOnlyFrame(db: Database, db': Database, id: TxId, t: TxId)
    requires DraftOnly(db, db', id) && t in db'.transactions
    ensures if t == id then Settled(db, db', t) && db'.transactions[t].state == Draft
            else t in db.transactions && db'.transactions[t] == db.transactions[t]
    ensures t == id ==> forall other :: Settled(other, db', t)
    ensures db' == db.(transactions := db'.transactions, details := db'.details)
  {
    DraftFrame(db, db', id);
  }

  lemma SettledStays(db: Database, mid: Database, db': Database, t: TxId)
    requires t in mid.transactions && t in db'.transactions && db'.transactions[t] == mid.transactions[t]
    requires Settled(db, mid, t)
    ensures Settled(db, db', t)
  {
  }

  lemma ExtendsOnly(db: Database, mid: Database, db': Database)
    requires CatalogExtends(db, mid) && db' == mid.(transactions := db'.transactions, details := db'.details)
    ensures CatalogExtends(db, db')
  {
  }

  lemma DeliverSettles(db: Database, call: Call, injected: bool, lost: bool, t: TxId)
    requires LedgerInv(db) && t in Deliver(db, call, injected, lost).transactions
    ensures var db' := Deliver(db, call, injected, lost);
            Settled(db, db', t) && CatalogExtends(db, db') && db'.memberships == db.memberships
  {
    hide LedgerInv, Execute, Deliver;
    var db' := Deliver(db, call, injected, lost);
    var reserved := DeliverSummary(db, call, injected, lost);
    if db' != db.(keys := db'.keys, audit := db'.audit) {
      var mid := Execute(reserved, call.command, call.supply).value.db;
      ExecuteSettles(reserved, call.command, call.supply, t);
      assert CompletedIds(reserved) == CompletedIds(db);
    }
  }

  /** A row that settles agrees as it did before, as long as no flag changes. */
  lemma SettledAgrees(db: Database, db': Database, t: TxId)
    requires RowsInv(db) && t in db'.transactions && Settled(db, db', t)
    requires FlagsKept(db, db') && CatalogExtends(db, db') && db'.memberships == db.memberships
    requires t in db.transactions ==> Agrees(db, t)
    ensures Agrees(db', t)
  {
    var y := db'.transactions[t];
    assert CompletedIds(db') == CompletedIds(db);
    if y.state == Posted && forall e :: e in y.entries ==> e.id !in CompletedIds(db) {
      NothingCompleted(y, db'.accounts, CompletedIds(db'));
    } else if y.state != Draft {
      assert RowOk(db, db.transactions[t]);
      SameReconcilable(db, db', db.transactions[t], y);
    }
  }

  lemma SameReconcilable(db: Database, db': Database, x: Transaction, y: Transaction)
    requires RowOk(db, x) && FlagsKept(db, db') && CatalogExtends(db, db') && y == x.(state := y.state)
    ensures ReconcilableEntryIds(y, db'.accounts) == ReconcilableEntryIds(x, db.accounts)
  {
    assert forall e :: e in x.entries ==> TargetExists(db, e);
    forall e | e in x.entries ensures Reconcilable(y, e, db'.accounts) == Reconcilable(x, e, db.accounts) {
    }
    hide Reconcilable;
    assert forall i :: 0 <= i < |x.entries| ==> x.entries[i] in x.entries;
  }

  lemma NothingCompleted(x: Transaction, accounts: map<AccountId, Account>, completed: set<EntryId>)
    requires x.state == Posted && forall e :: e in x.entries ==> e.id !in completed
    ensures ProjectState(x, accounts, completed) == Posted
  {
  }

  // A step that completes entries

  lemma ProjectedTwice(x: Transaction, accounts: map<AccountId, Account>, completed: set<EntryId>)
    ensures var y := x.(state := ProjectState(x, accounts, completed));
            x.state != Voided && x.state != Draft ==> ProjectState(y, accounts, completed) == y.state
  {
    var y := x.(state := ProjectState(x, accounts, completed));
    assert forall e :: Reconcilable(y, e, accounts) == Reconcilable(x, e, accounts);
    hide Reconcilable;
    assert ReconcilableEntryIds(y, accounts) == ReconcilableEntryIds(x, accounts);
  }

  lemma SameProjection(db: Database, db': Database, x: Transaction)
    requires db'.accounts == db.accounts && Projected(db, x)
    requires forall e :: e in x.entries ==> (e.id in CompletedIds(db) <==> e.id in CompletedIds(db'))
    ensures Projected(db', x)
  {
    hide Reconcilable, CompletedIds;
    var ids := ReconcilableEntryIds(x, db.accounts);
    forall id | id in ids ensures id in CompletedIds(db) <==> id in CompletedIds(db') {
      var i :| 0 <= i < |x.entries| && x.entries[i].id == id;
      assert x.entries[i] in x.entries;
    }
  }

  lemma CompletedAgrees(db: Database, c: R.Completion, t: TxId)
    requires RowsInv(db) && EntryIdsInv(db) && Admitted(db, c) && Agrees(db, t)
    ensures Agrees(Completed(db, c), t)
  {
    hide R.Check, R.AddCompleted, ProjectState, RowsInv, EntryIdsInv;
    var x, db' := db.transactions[t], Completed(db, c);
    AddedIds(db, c);
    CompletedRows(db, c, t);
    if x.space == c.space && R.Affected(x, c.space, R.Ids(c.selected)) {
      if x.state == Voided {
        VoidedAgrees(db', x);
      } else {
        CompletedIsPosted(db, c, t);
        ProjectedTwice(x, db'.accounts, CompletedIds(db'));
      }
    } else {
      UnaffectedEntries(db, c, t);
      SameProjection(db, db', x);
    }
  }

  lemma VoidedAgrees(db: Database, x: Transaction)
    requires x.state == Voided
    ensures Projected(db, x)
  {
  }

  lemma CompletedRows(db: Database, c: R.Completion, t: TxId)
    requires Admitted(db, c) && t in db.transactions
    ensures var (x, db') := (db.transactions[t], Completed(db, c));
            && t in db'.transactions && db'.accounts == db.accounts
            && CompletedIds(db') == CompletedIds(Added(db, c))
            && db'.transactions[t] ==
               if x.space == c.space && R.Affected(x, c.space, R.Ids(c.selected)) && x.state != Voided
               then x.(state := ProjectState(x, db'.accounts, CompletedIds(db')))
               else x
  {
    hide R.Check, ProjectState;
    assert CompletedIds(Completed(db, c)) == CompletedIds(Added(db, c));
  }

  lemma CompletedIsPosted(db: Database, c: R.Completion, t: TxId)
    requires RowsInv(db) && EntryIdsInv(db) && Admitted(db, c) && t in db.transactions
    requires R.Affected(db.transactions[t], c.space, R.Ids(c.selected))
    ensures db.transactions[t].state != Draft
  {
    hide R.Check;
    var i := AffectedAt(db, c, t);
  }

  lemma CompleteAgrees(db: Database, c: R.Completion, injected: bool, lost: bool, t: TxId)
    requires LedgerInv(db) && Agrees(db, t)
    ensures Agrees(R.Complete(db, c, injected, lost), t)
  {
    hide LedgerInv, Agrees, R.AttemptCompletion, Completed;
    var db' := R.Complete(db, c, injected, lost);
    if !injected && R.AttemptCompletion(db, c).Ok? {
      PartsOf(db);
      AttemptIsCompleted(db, c);
      CompletedAgrees(db, c, t);
      SameAgrees(Completed(db, c), db', t);
    } else {
      SameAgrees(db, db', t);
    }
  }

  lemma AttemptIsCompleted(db: Database, c: R.Completion)
    requires R.AttemptCompletion(db, c).Ok?
    ensures Admitted(db, c)
    ensures R.AttemptCompletion(db, c).value == Completed(db, c).(audit := R.AttemptCompletion(db, c).value.audit)
  {
    hide R.Check;
  }

  lemma SameAgrees(db: Database, db': Database, t: TxId)
    requires Agrees(db, t) && db' == db.(audit := db'.audit)
    ensures Agrees(db', t)
  {
    assert CompletedIds(db') == CompletedIds(db);
  }

  /** No step but a change of an archive flag takes a stored state away from its projection or adds one that differs. */
  lemma StepKeepsAgreement(db: Database, s: Step, t: TxId)
    requires Inv(db) && !ChangesFlag(db, s) && t in Apply(db, s).transactions
    requires t in db.transactions ==> Agrees(db, t)
    ensures Agrees(Apply(db, s), t)
  {
    hide KeysInv, AuditInv, Agrees, Deliver, R.Complete, UseCatalog, CreateDraft, UpdateDraft, DiscardDraft,
        ChangesFlag,
         FlagsKept, Settled;
    PartsOf(db);
    hide CatalogInv, RowsInv, EntryIdsInv, LinksInv, MembershipsInv, StatesInv;
    var db' := Apply(db, s);
    if s.Completing? {
      SameKeysComplete(db, s.completion, s.injected, s.lost);
      CompleteAgrees(db, s.completion, s.injected, s.lost, t);
    } else {
      StepKeepsFlags(db, s);
      if s.Delivery? {
        DeliverSettles(db, s.call, s.injected, s.lost, t);
      } else if s.Cataloguing? {
        CatalogStep(db, s.use);
        StaysSettled(db, db', t);
      } else {
        DraftSettles(db, s, t);
      }
      SettledAgrees(db, db', t);
    }
  }

  lemma SameKeysComplete(db: Database, c: R.Completion, injected: bool, lost: bool)
    ensures R.Complete(db, c, injected, lost).transactions.Keys == db.transactions.Keys
  {
    hide R.Check;
  }

  lemma StaysSettled(db: Database, db': Database, t: TxId)
    requires t in db'.transactions && db'.transactions == db.transactions
    ensures Settled(db, db', t)
  {
  }

  lemma DraftSettles(db: Database, s: Step, t: TxId)
    requires RowsInv(db) && (s.DraftCreation? || s.DraftUpdate? || s.DraftDiscarding?) && t in Apply(db, s).transactions
    ensures Settled(db, Apply(db, s), t) && CatalogExtends(db, Apply(db, s))
    ensures Apply(db, s).memberships == db.memberships
  {
    hide RowsInv, Apply;
    DraftStep(db, s);
    if Apply(db, s) != db {
      DraftFrame(db, Apply(db, s), s.draft);
    }
  }

  // Runs that archive no account

  predicate NoneArchived(db: Database) {
    forall a :: a in db.accounts ==> !db.accounts[a].archived
  }

  predicate Archives(s: Step) {
    s.Cataloguing? && s.use.AccountArchiving? && s.use.archived
  }

  ghost predicate AllAgree(db: Database) {
    forall t :: t in db.transactions ==> Agrees(db, t)
  }

  lemma {:induction false} RunAgrees(db: Database, steps: seq<Step>)
    requires Inv(db) && NoneArchived(db) && AllAgree(db)
    requires forall s :: s in steps ==> !Archives(s)
    ensures AllAgree(Run(db, steps))
    decreases |steps|
  {
    hide Inv, Agrees, Apply;
    if steps != [] {
      var s, next := steps[0], Apply(db, steps[0]);
      assert s in steps && !ChangesFlag(db, s);
      assert LedgerInv(db) by { LedgerOf(db); }
      StepKeepsFlags(db, s);
      ApplyKeeps(db, s);
      forall t | t in next.transactions ensures Agrees(next, t) {
        StepKeepsAgreement(db, s, t);
      }
      RunAgrees(next, steps[1..]);
    }
  }

  /** In a run that archives no account, every stored state is exactly the projected one. */
  lemma StateIsProjection(steps: seq<Step>, t: TxId)
    requires forall s :: s in steps ==> !Archives(s)
    requires t in Run(EMPTY, steps).transactions
    ensures Agrees(Run(EMPTY, steps), t)
  {
    hide Run;
    EmptyHolds();
    RunAgrees(EMPTY, steps);
  }

  /**
   In every run, archiving included: a RECONCILED transaction has a completed entry, and a posted transaction whose
   countable entries are all completed, at least one, is RECONCILED or VOIDED.
   */
  lemma StateAgainstMemberships(steps: seq<Step>, t: TxId)
    requires Shown(Run(EMPTY, steps), t)
    ensures var db := Run(EMPTY, steps);
            var x := db.transactions[t];
            && (x.state == Reconciled ==> AnyCompleted(db, x))
            && (AllCompleted(db, x) ==> x.state == Reconciled || x.state == Voided)
  {
    Reachable(steps);
    assert StateOk(Run(EMPTY, steps), Run(EMPTY, steps).transactions[t]);
  }

  // Exactly when the stored state is not the projected one

  // A countable entry whose account is not archived.
  ghost predicate Open(db: Database, e: Entry) {
    Countable(db, e) && !db.accounts[e.target.account].archived
  }

  lemma ReconcilableIff(db: Database, x: Transaction, e: Entry)
    requires CatalogInv(db) && RowOk(db, x) && e in x.entries
    ensures Reconcilable(x, e, db.accounts) <==> Open(db, e)
  {
  }

  // Of the two countable entries of x, d is completed and e is not.
  ghost predicate HalfCompleted(db: Database, x: Transaction, d: Entry, e: Entry) {
    && d in x.entries && e in x.entries
    && Countable(db, d) && Countable(db, e)
    && d.id in CompletedIds(db) && e.id !in CompletedIds(db)
  }

  // With e's account open the projection is POSTED; with it archived, and d's open, it is RECONCILED.
  ghost predicate Diverges(db: Database, x: Transaction, d: Entry, e: Entry)
    requires HalfCompleted(db, x, d, e)
  {
    if Open(db, e) then x.state == Reconciled else x.state == Posted && Open(db, d)
  }

  lemma DivergesExactly(db: Database, x: Transaction)
    requires CatalogInv(db) && RowOk(db, x) && StateOk(db, x)
    ensures !Projected(db, x) <==> SomeDiverges(db, x)
  {
    hide CatalogInv, Shape, Countable, Reconcilable;
    forall e | e in x.entries ensures Reconcilable(x, e, db.accounts) <==> Open(db, e) {
      ReconcilableIff(db, x, e);
    }
    if x.state == Posted || x.state == Reconciled {
      PostedPair(db, x);
      PairDiverges(db, x, x.entries[0], x.entries[1]);
    }
  }

  lemma PostedPair(db: Database, x: Transaction)
    requires RowOk(db, x) && x.state != Draft
    ensures |x.entries| == 2 && x.entries[0].id != x.entries[1].id
  {
  }

  lemma PairDiverges(db: Database, x: Transaction, a: Entry, b: Entry)
    requires x.entries == [a, b] && a.id != b.id && StateOk(db, x)
    requires x.state == Posted || x.state == Reconciled
    requires Reconcilable(x, a, db.accounts) <==> Open(db, a)
    requires Reconcilable(x, b, db.accounts) <==> Open(db, b)
    ensures !Projected(db, x)
       <==> exists d, e :: HalfCompleted(db, x, d, e) && Diverges(db, x, d, e)
  {
    hide Reconcilable;
    var ids, done := ReconcilableEntryIds(x, db.accounts), CompletedIds(db);
    assert x.entries[0] == a && x.entries[1] == b;
    assert ids == (if Reconcilable(x, a, db.accounts) then {a.id} else {})
      + (if Reconcilable(x, b, db.accounts) then {b.id} else {});
    forall d, e | HalfCompleted(db, x, d, e) ensures (d == a && e == b) || (d == b && e == a) {
    }
    assert HalfCompleted(db, x, a, b) && Diverges(db, x, a, b) ==> x.state != ProjectState(x, db.accounts, done);
    assert HalfCompleted(db, x, b, a) && Diverges(db, x, b, a) ==> x.state != ProjectState(x, db.accounts, done);
  }

  /**
   In every run, archiving included, a stored state differs from its projection only where one of two countable entries
   is completed and the other is not, and then as the open accounts among the two say.
   */
  lemma StateDiffersExactlyWhen(steps: seq<Step>, t: TxId)
    requires t in Run(EMPTY, steps).transactions
    ensures var (db, x) := (Run(EMPTY, steps), Run(EMPTY, steps).transactions[t]);
            !Projected(db, x) <==> SomeDiverges(db, x)
  {
    Reachable(steps);
    var db := Run(EMPTY, steps);
    assert RowOk(db, db.transactions[t]) && StateOk(db, db.transactions[t]);
    DivergesExactly(db, db.transactions[t]);
  }

  // What a change of an archive flag takes away

  // Seen before the call: setting the archive flag of account a separates the state of x from its projection.
  ghost predicate Separates(db: Database, x: Transaction, a: AccountId, archived: bool, d: Entry, e: Entry)
    requires HalfCompleted(db, x, d, e)
  {
    || (e.target == ToAccount(a) && x.state != Voided && (Open(db, d) || (!archived && x.state == Reconciled)))
    || (d.target == ToAccount(a) && !archived && !Open(db, e) && x.state == Posted)
  }

  ghost predicate SomeSeparates(db: Database, x: Transaction, a: AccountId, archived: bool) {
    exists d, e :: HalfCompleted(db, x, d, e) && Separates(db, x, a, archived, d, e)
  }

  ghost predicate SomeDiverges(db: Database, x: Transaction) {
    exists d, e :: HalfCompleted(db, x, d, e) && Diverges(db, x, d, e)
  }

  lemma FlagSeparates(db: Database, db': Database, x: Transaction, a: AccountId, archived: bool, d: Entry, e: Entry)
    requires a in db.accounts && db.accounts[a].archived != archived
    requires db' == db.(accounts := db.accounts[a := db.accounts[a].(archived := archived)])
    requires HalfCompleted(db, x, d, e) && d.target != e.target && !Diverges(db, x, d, e)
    requires x.state == Posted || x.state == Reconciled || x.state == Voided
    ensures HalfCompleted(db', x, d, e) && (Diverges(db', x, d, e) <==> Separates(db, x, a, archived, d, e))
  {
    assert CompletedIds(db') == CompletedIds(db);
  }

  lemma FlagSeparatesRow(db: Database, db': Database, x: Transaction, a: AccountId, archived: bool)
    requires a in db.accounts && db.accounts[a].archived != archived
    requires db' == db.(accounts := db.accounts[a := db.accounts[a].(archived := archived)])
    requires RowOk(db, x) && !SomeDiverges(db, x)
    ensures SomeDiverges(db', x) <==> SomeSeparates(db, x, a, archived)
  {
    assert CompletedIds(db') == CompletedIds(db);
    forall d, e ensures HalfCompleted(db', x, d, e) <==> HalfCompleted(db, x, d, e) {
    }
    hide Open, Countable, Shape, Diverges, Separates;
    forall d, e | HalfCompleted(db, x, d, e) ensures Diverges(db', x, d, e) <==> Separates(db, x, a, archived, d, e) {
      PairTargets(db, x, d, e);
      FlagSeparates(db, db', x, a, archived, d, e);
    }
  }

  lemma PairTargets(db: Database, x: Transaction, d: Entry, e: Entry)
    requires RowOk(db, x) && d in x.entries && e in x.entries && d.id != e.id
    ensures d.target != e.target && (x.state == Posted || x.state == Reconciled || x.state == Voided)
  {
  }

  lemma FlagLosesAgreement(db: Database, space: SpaceId, a: AccountId, archived: bool, t: TxId)
    requires Inv(db) && SetAccountArchived(db, space, a, archived).Ok? && db.accounts[a].archived != archived
    requires Agrees(db, t)
    ensures var db' := SetAccountArchived(db, space, a, archived).value;
            && t in db'.transactions && db'.transactions[t] == db.transactions[t]
            && (!Agrees(db', t) <==> SomeSeparates(db, db.transactions[t], a, archived))
  {
    hide KeysInv, AuditInv, AccountNameTaken, SomeDiverges, SomeSeparates, ProjectState, LedgerInv, CatalogInv, RowOk,
        StateOk;
    var x, db' := db.transactions[t], SetAccountArchived(db, space, a, archived).value;
    assert Inv(db') by { ApplyKeeps(db, Cataloguing(AccountArchiving(space, a, archived))); }
    RowAndState(db, t);
    RowAndState(db', t);
    DivergesExactly(db, x);
    DivergesExactly(db', x);
    FlagSeparatesRow(db, db', x, a, archived);
  }

  lemma RowAndState(db: Database, t: TxId)
    requires LedgerInv(db) && t in db.transactions
    ensures CatalogInv(db) && RowOk(db, db.transactions[t]) && StateOk(db, db.transactions[t])
  {
  }

  /**
   In every reachable ledger, a step takes a stored state away from its projection if and only if it changes the archive
   flag of an account that one entry of a half-completed transaction is on, and either
   - the pending entry is on it, and the completed entry's account is open or a RECONCILED transaction is opened again;
   - or the completed entry is on it, it is opened, the pending entry's account is closed and the state is POSTED.
   The condition is about the ledger before the step, and no other step of any kind loses agreement.
   */
  lemma AgreementIsLostExactlyWhen(steps: seq<Step>, s: Step, t: TxId)
    requires Agrees(Run(EMPTY, steps), t) && t in Apply(Run(EMPTY, steps), s).transactions
    ensures var db := Run(EMPTY, steps);
            !Agrees(Apply(db, s), t)
            <==> ChangesFlag(db, s) && SomeSeparates(db, db.transactions[t], s.use.account, s.use.archived)
  {
    hide Inv, Agrees, SomeSeparates, Run;
    var db := Run(EMPTY, steps);
    Reachable(steps);
    if ChangesFlag(db, s) {
      ArchivingSucceeds(steps, s.use.space, s.use.account, s.use.archived);
      FlagLosesAgreement(db, s.use.space, s.use.account, s.use.archived, t);
    } else {
      hide Apply;
      StepKeepsAgreement(db, s, t);
    }
  }

  /** A transaction a step adds never starts out apart from its projection. */
  lemma NewTransactionsAgree(steps: seq<Step>, s: Step, t: TxId)
    requires t !in Run(EMPTY, steps).transactions && t in Apply(Run(EMPTY, steps), s).transactions
    ensures Agrees(Apply(Run(EMPTY, steps), s), t)
  {
    hide Inv, Agrees, Run;
    var db := Run(EMPTY, steps);
    Reachable(steps);
    if s.Cataloguing? {
      CatalogAddsNone(db, s.use);
    } else {
      hide Apply;
      StepKeepsAgreement(db, s, t);
    }
  }

  lemma CatalogAddsNone(db: Database, use: CatalogUse)
    requires Inv(db)
    ensures Committed(db, UseCatalog(db, use)).transactions == db.transactions
  {
    hide KeysInv, AuditInv, UseCatalog;
    PartsOf(db);
    CatalogStep(db, use);
  }
}
