/** A run that posts an income on an expense category: a draft is created with one and posted. */
module CrossedCategory {
  import opened Wrappers
  import opened Ledger
  import opened Database
  import opened Commands
  import opened Machine
  import opened Runs
  import opened Effects

  const BANK := Opaque(0)
  const ACCOUNT := Account(0, "bank", Asset, false, true)
  const FOOD := Category(0, "food", ExpenseCategory, false)
  const REQUEST := DraftRequest(0, Income, 0, "refund", 5, Some(BANK), Some(0), None, None)
  const CALL := Call("k", PostDraft(0, 0, None), Supply(9, 1, 2, 3, 1, 0, ""))
  const DEBIT := Entry(EntryId(1, 0), 0, Debit, 5, ToAccount(BANK))
  const CREDIT := Entry(EntryId(2, 0), 0, Credit, 5, ToCategory(0))
  const POSTED := Transaction(0, Income, Posted, 0, Some(0), "refund", [DEBIT, CREDIT])

  const STEPS := [
    Cataloguing(AccountCreation(0, 0, "bank", Asset, true)),
    Cataloguing(CategoryCreation(0, 0, "food", ExpenseCategory)),
    DraftCreation(0, REQUEST),
    Delivery(CALL, false, false)]

  const CATALOG := EMPTY.(accounts := map[BANK := ACCOUNT], categories := map[0 := FOOD])
  const DRAFTED := CATALOG.(transactions := map[0 := DraftRow(REQUEST)], details := map[0 := DetailsOf(REQUEST, None)])

  lemma Names()
    ensures ValidatedName("bank") == Ok("bank") && ValidatedName("food") == Ok("food")
  {
  }

  lemma Catalogued()
    ensures Run(EMPTY, STEPS[..2]) == CATALOG
  {
    hide Apply, ValidatedName;
    Names();
    assert STEPS[..0] == [];
    OneMore(STEPS, 0);
    AccountAdded(EMPTY, 0, 0, "bank", Asset);
    assert EMPTY.accounts[BANK := ACCOUNT] == map[BANK := ACCOUNT];
    OneMore(STEPS, 1);
    CategoryAdded(EMPTY.(accounts := map[BANK := ACCOUNT]), 0, 0, "food", ExpenseCategory);
    assert EMPTY.categories[0 := FOOD] == map[0 := FOOD];
  }

  lemma Drafted()
    ensures Apply(CATALOG, STEPS[2]) == DRAFTED
  {
    assert CATALOG.transactions[0 := DraftRow(REQUEST)] == DRAFTED.transactions;
    assert CATALOG.details[0 := DetailsOf(REQUEST, None)] == DRAFTED.details;
  }

  lemma Built(db: Database)
    requires db == DRAFTED.(keys := db.keys)
    ensures BuildPosting(db, CALL.command, CALL.supply) == Ok(Build(db, POSTED))
  {
    PairTotal(DEBIT, CREDIT);
  }

  lemma Delivers(db: Database)
    requires db == DRAFTED
    ensures Attempt(db, CALL).Ok?
    ensures var db' := Apply(db, STEPS[3]);
            db'.categories == db.categories && 0 in db'.transactions && db'.transactions[0] == POSTED
  {
    hide BuildPosting, Apply;
    var reserved := Reserve(db, CALL).value.db;
    Built(reserved);
    StoredPair(DEBIT, CREDIT);
    NoEntries(reserved, DEBIT.id);
    NoEntries(reserved, CREDIT.id);
    NewPair(reserved, DEBIT, CREDIT);
    hide EntriesClash, StoredOrder;
    assert Execute(reserved, CALL.command, CALL.supply).Ok?;
    Delivered(db, CALL);
  }

  /** The run ends with a posted income on an expense category. */
  lemma IncomeOnExpenseCategory()
    ensures var db := Run(EMPTY, STEPS);
            && 0 in db.transactions && db.transactions[0].state == Posted && db.transactions[0].kind == Income
            && Crosses(db, db.transactions[0])
  {
    hide Apply;
    Catalogued();
    OneMore(STEPS, 2);
    Drafted();
    OneMore(STEPS, 3);
    Delivers(DRAFTED);
    assert STEPS[..4] == STEPS;
    var db := Run(EMPTY, STEPS);
    assert OnKind(db, db.transactions[0].entries[1], ExpenseCategory);
  }
}
