/**
 A run that leaves a transfer RECONCILED while its projection is POSTED: one account is archived, the transfer is
 reconciled on the other one, and the archived account is opened again.
 */
module ArchivedTransfer {
  import opened Wrappers
  import opened Ledger
  import opened Database
  import opened Commands
  import opened Reconciliation
  import opened Machine
  import opened Runs

  const SOURCE := Opaque(0)
  const DESTINATION := Opaque(1)
  const OPEN := Account(0, "bank", Asset, false, true)
  const SAVINGS := Account(0, "savings", Asset, false, true)
  const CLOSED := SAVINGS.(archived := true)
  const DEBIT := Entry(EntryId(1, 0), 0, Debit, 5, ToAccount(DESTINATION))
  const CREDIT := Entry(EntryId(2, 0), 0, Credit, 5, ToAccount(SOURCE))
  const MOVED := Transaction(0, Transfer, Posted, 0, Some(0), "move", [DEBIT, CREDIT])
  const CALL := Call("k", CreateTransfer(0, SOURCE, DESTINATION, 5, 0, None, "move"), Supply(0, 1, 2, 3, 1, 0, ""))
  const COMPLETION := Completion(0, 0, SOURCE, 0, -5, [EntryId(2, 0)], "c")

  const STEPS := [
    Cataloguing(AccountCreation(0, 0, "bank", Asset, true)),
    Cataloguing(AccountCreation(1, 0, "savings", Asset, true)),
    Delivery(CALL, false, false),
    Cataloguing(AccountArchiving(0, DESTINATION, true)),
    Completing(COMPLETION, false, false),
    Cataloguing(AccountArchiving(0, DESTINATION, false))]

  // The rows that matter to projection.
  predicate Has(db: Database, accounts: map<AccountId, Account>, x: Transaction, completed: set<EntryId>) {
    db.accounts == accounts && db.transactions == map[0 := x] && CompletedIds(db) == completed
  }

  const TWO := EMPTY.(accounts := map[SOURCE := OPEN, DESTINATION := SAVINGS])

  lemma Opened()
    ensures Run(EMPTY, STEPS[..2]) == TWO
  {
    hide Apply, ValidatedName;
    var one := EMPTY.(accounts := map[SOURCE := OPEN]);
    assert STEPS[..0] == [];
    assert ValidatedName("bank") == Ok("bank") && ValidatedName("savings") == Ok("savings") by { Names(); }
    OneMore(STEPS, 0);
    AccountAdded(EMPTY, 0, 0, "bank", Asset);
    assert EMPTY.accounts[SOURCE := OPEN] == one.accounts;
    OneMore(STEPS, 1);
    AccountAdded(one, 1, 0, "savings", Asset);
    assert one.accounts[DESTINATION := SAVINGS] == TWO.accounts;
  }

  lemma Names()
    ensures ValidatedName("bank") == Ok("bank") && ValidatedName("savings") == Ok("savings")
  {
  }

  lemma Built(db: Database)
    requires db == TWO.(keys := db.keys)
    ensures BuildPosting(db, CALL.command, CALL.supply) == Ok(Build(db, MOVED))
  {
    PairTotal(DEBIT, CREDIT);
  }

  lemma Transferred(db: Database)
    requires db == TWO
    ensures var db' := Apply(db, STEPS[2]);
            && db'.accounts == db.accounts && db'.transactions == map[0 := MOVED]
            && db'.memberships == {} && db'.reconciliations == map[]
  {
    hide BuildPosting, Apply;
    var reserved := Reserve(db, CALL).value.db;
    Built(reserved);
    StoredPair(DEBIT, CREDIT);
    NoEntries(reserved, DEBIT.id);
    NoEntries(reserved, CREDIT.id);
    NewPair(reserved, DEBIT, CREDIT);
    hide EntriesClash, StoredOrder;
    assert Execute(reserved, CALL.command, CALL.supply).Ok?;
    Delivered(db, CALL);
  }

  lemma Reconciled(db: Database)
    requires db.accounts == map[SOURCE := OPEN, DESTINATION := CLOSED]
    requires db.transactions == map[0 := MOVED] && db.memberships == {} && db.reconciliations == map[]
    ensures Has(Apply(db, STEPS[4]), db.accounts, MOVED.(state := State.Reconciled), {EntryId(2, 0)})
  {
    hide Check, ProjectAffected, Has, AddCompleted;
    CheckPasses(db);
    var added := AddCompleted(db, COMPLETION).value;
    Added(db);
    Projected(added);
    SameRows(ProjectAffected(added, 0, Ids(COMPLETION.selected)), Apply(db, STEPS[4]), db.accounts);
  }

  lemma SameRows(db: Database, db': Database, accounts: map<AccountId, Account>)
    requires Has(db, accounts, MOVED.(state := State.Reconciled), {EntryId(2, 0)}) && db' == db.(audit := db'.audit)
    ensures Has(db', accounts, MOVED.(state := State.Reconciled), {EntryId(2, 0)})
  {
    assert CompletedIds(db') == CompletedIds(db);
  }

  lemma Added(db: Database)
    requires db.memberships == {} && AddCompleted(db, COMPLETION).Ok?
    ensures var added := AddCompleted(db, COMPLETION).value;
            CompletedIds(added) == {EntryId(2, 0)} && added.accounts == db.accounts
            && added.transactions == db.transactions
  {
    assert AddCompleted(db, COMPLETION).value.memberships == {Membership(0, EntryId(2, 0))};
  }

  lemma Projected(added: Database)
    requires added.accounts == map[SOURCE := OPEN, DESTINATION := CLOSED]
    requires added.transactions == map[0 := MOVED] && CompletedIds(added) == {EntryId(2, 0)}
    ensures Has(ProjectAffected(added, 0, Ids(COMPLETION.selected)), added.accounts, MOVED.(state := State.Reconciled),
                {EntryId(2, 0)})
  {
    var projected := ProjectAffected(added, 0, Ids(COMPLETION.selected));
    assert Affected(MOVED, 0, Ids(COMPLETION.selected)) by { assert MOVED.entries[1].id in Ids(COMPLETION.selected); }
    assert ReconcilableEntryIds(MOVED, added.accounts) == {EntryId(2, 0)} by {
      assert Reconcilable(MOVED, MOVED.entries[1], added.accounts);
    }
    assert projected.transactions == map[0 := MOVED.(state := State.Reconciled)];
    assert CompletedIds(projected) == CompletedIds(added);
  }

  lemma CheckPasses(db: Database)
    requires db.accounts == map[SOURCE := OPEN, DESTINATION := CLOSED]
    requires db.transactions == map[0 := MOVED] && db.memberships == {} && db.reconciliations == map[]
    ensures Check(db, COMPLETION) == Ok(()) && AddCompleted(db, COMPLETION).Ok?
  {
    assert CompletedIds(db) == {};
    assert EntryId(2, 0) in CandidateIds(db, 0, SOURCE, 0) by {
      assert IsCandidate({}, 0, SOURCE, 0, db.transactions[0], db.transactions[0].entries[1]);
    }
    Totals(db);
  }

  lemma Totals(db: Database)
    requires db.transactions == map[0 := MOVED] && db.memberships == {}
    ensures PriorCents(db, 0, SOURCE, 0) == 0 && SelectedCents(db, COMPLETION) == -5
  {
    var prior := PriorMeasure(db, 0, SOURCE, 0);
    var selected := SelectedMeasure(CompletedIds(db), 0, SOURCE, 0, Ids(COMPLETION.selected));
    RowTallyPair(MOVED, prior);
    RowTallyPair(MOVED, selected);
    assert MembershipsOf(db, 0, DEBIT.id) == {} && MembershipsOf(db, 0, CREDIT.id) == {};
    OneRow(db.transactions, prior);
    OneRow(db.transactions, selected);
  }

  lemma OneRow(txs: map<TxId, Transaction>, g: Measure)
    requires txs == map[0 := MOVED]
    ensures Tally(txs, g) == RowTally(MOVED, MOVED.entries, g)
  {
    var none: map<TxId, Transaction> := map[];
    TallyPut(none, 0, MOVED, g);
    assert RowTallies(none, g) == map[];
    assert none[0 := MOVED] == txs;
  }

  /** The run ends with both accounts open, the transfer RECONCILED, and POSTED as its projection. */
  lemma StateIsNotItsProjection()
    ensures var db := Run(EMPTY, STEPS);
            && 0 in db.transactions && db.transactions[0].state == State.Reconciled
            && ProjectState(db.transactions[0], db.accounts, CompletedIds(db)) == Posted
  {
    hide Apply;
    Opened();
    var two, three, four, five := Run(EMPTY, STEPS[..2]), Run(EMPTY, STEPS[..3]), Run(EMPTY, STEPS[..4]),
        Run(EMPTY, STEPS[..5]);
    OneMore(STEPS, 2);
    OneMore(STEPS, 3);
    OneMore(STEPS, 4);
    OneMore(STEPS, 5);
    Transferred(two);
    AccountFlagged(three, 0, DESTINATION, true);
    Reconciled(four);
    AccountFlagged(five, 0, DESTINATION, false);
    assert STEPS[..6] == STEPS;
    Projects(Run(EMPTY, STEPS));
  }

  lemma Projects(db: Database)
    requires Has(db, map[SOURCE := OPEN, DESTINATION := SAVINGS], MOVED.(state := State.Reconciled), {EntryId(2, 0)})
    ensures ProjectState(db.transactions[0], db.accounts, CompletedIds(db)) == Posted
  {
    var x := db.transactions[0];
    assert Reconcilable(x, x.entries[0], db.accounts);
    assert EntryId(1, 0) in ReconcilableEntryIds(x, db.accounts);
  }
}
