/** What a posting does to each report, stated in terms of what was asked for. */
module ReportMoves {
  import opened Wrappers
  import opened Ledger
  import opened Database
  import opened Commands
  import opened Invariants
  import opened Machine
  import opened Reachability
  import opened Idempotency
  import opened Effects
  import opened Reports
  import RT = ReportTheorems

  // The date a movement is paid on.
  function CashDay(r: DraftRequest): Date {
    if r.cashDate.Some? then r.cashDate.value else r.economicDate
  }

  // A report sees what is posted for the request. Openings have no cash date.
  predicate Seen(s: Selection, r: DraftRequest) {
    match s
    case ByEconomicDate(space, start, end) => r.space == space && start <= r.economicDate <= end
    case ByCashDate(space, start, end) => r.space == space && r.kind != Opening && start <= CashDay(r) <= end
    case AsOf(space, date) => r.space == space && r.economicDate <= date
  }

  predicate Categorized(db: Database, r: DraftRequest, kind: CategoryKind) {
    && (r.kind == Income || r.kind == Expense)
    && r.category.Some? && r.category.value in db.categories && db.categories[r.category.value].kind == kind
  }

  // How far the income, or the receipts, move: a crossed draft counts against them.
  function IncomeMove(db: Database, r: DraftRequest): Cents {
    if !Categorized(db, r, IncomeCategory) then 0 else if r.kind == Income then r.amount else -r.amount
  }

  // How far the expenses, or the payments, move.
  function ExpenseMove(db: Database, r: DraftRequest): Cents {
    if !Categorized(db, r, ExpenseCategory) then 0 else if r.kind == Expense then r.amount else -r.amount
  }

  predicate OfKind(db: Database, account: Option<AccountId>, kind: AccountKind) {
    account.Some? && account.value in db.accounts && db.accounts[account.value].kind == kind
  }

  // How far the accounts of a kind move, debits counting up.
  function KindMove(db: Database, r: DraftRequest, kind: AccountKind): Cents {
    var own := if OfKind(db, r.account, kind) then r.amount else 0;
    match r.kind
    case Opening => if OpensLiability(db, r) then -own else own
    case Income => own
    case Expense => -own
    case Transfer => (if OfKind(db, r.destination, kind) then r.amount else 0) - own
    case Reversal => 0
  }

  lemma SeenIffSelected(db: Database, r: DraftRequest, x: Transaction, s: Selection)
    requires Fulfils(db, r, x)
    ensures s.Selects(x) <==> Seen(s, r)
  {
  }

  // One posted row of a pair, against a measure that sees it.

  lemma PairTotals(db: Database, db': Database, r: DraftRequest, x: Transaction, d: Entry, c: Entry, s: Selection)
    requires Fulfils(db, r, x) && Pays(db, r, d, c) && EquityOnly(db, db', r) && db'.categories == db.categories
    requires CatalogInv(db) && TargetExists(db', d) && TargetExists(db', c)
    ensures IncomeMeasure(db', s)(x, d) + IncomeMeasure(db', s)(x, c) == if Seen(s, r) then IncomeMove(db, r) else 0
    ensures ExpenseMeasure(db', s)(x, d) + ExpenseMeasure(db', s)(x, c) == if Seen(s, r) then ExpenseMove(db, r) else 0
  {
    SeenIffSelected(db, r, x, s);
    hide Selection.Selects, Seen, EquityOnly, CatalogInv;
    match r.kind
    case Opening =>
    case Income => KindIs(db', c);
    case Expense => KindIs(db', d);
    case Transfer =>
    case Reversal =>
  }

  lemma KindIs(db: Database, e: Entry)
    requires TargetExists(db, e) && e.target.ToCategory?
    ensures CategoryKindOf(db, e) == Some(db.categories[e.target.category].kind)
  {
  }

  lemma AccountIs(db: Database, db': Database, r: DraftRequest, e: Entry)
    requires CatalogInv(db) && EquityOnly(db, db', r) && TargetExists(db', e) && e.target.ToAccount?
    requires e.target.account in db.accounts || e.target.account == OpeningEquity(r.space)
    ensures AccountKindOf(db', e) ==
              Some(if e.target.account.OpeningEquity? then Equity else db.accounts[e.target.account].kind)
    ensures e.target.account.Opaque? ==> db.accounts[e.target.account].kind != Equity
  {
  }

  // The accounts asked for are household accounts of the ledger.
  predicate OwnTargets(db: Database, r: DraftRequest) {
    && (r.account.Some? ==> r.account.value in db.accounts && r.account.value.Opaque?)
    && (r.kind == Transfer && r.destination.Some? ==> r.destination.value in db.accounts && r.destination.value.Opaque?)
  }

  lemma PairWorth(db: Database, db': Database, r: DraftRequest, x: Transaction, d: Entry, c: Entry, s: Selection)
    requires Fulfils(db, r, x) && Pays(db, r, d, c) && EquityOnly(db, db', r) && CatalogInv(db)
    requires TargetExists(db', d) && TargetExists(db', c) && OwnTargets(db, r)
    ensures AssetMeasure(db', s)(x, d) + AssetMeasure(db', s)(x, c) == if Seen(s, r) then KindMove(db, r, Asset) else 0
    ensures LiabilityMeasure(db', s)(x, d) + LiabilityMeasure(db', s)(x, c)
         == if Seen(s, r) then -KindMove(db, r, Liability) else 0
  {
    SeenIffSelected(db, r, x, s);
    if d.target.ToAccount? {
      AccountIs(db, db', r, d);
    }
    if c.target.ToAccount? {
      AccountIs(db, db', r, c);
    }
    assert d.target.ToCategory? ==> AccountKindOf(db', d) == None;
    assert c.target.ToCategory? ==> AccountKindOf(db', c) == None;
    hide Selection.Selects, Seen, EquityOnly, CatalogInv, AccountKindOf;
    match r.kind
    case Opening =>
    case Income =>
    case Expense =>
    case Transfer =>
    case Reversal =>
  }

  // The whole table

  // Entries of old rows are on targets the ledger had before, so that they weigh as they did.
  lemma OldEntries(db: Database, db': Database, r: DraftRequest, s: Selection, t: TxId, e: Entry)
    requires RowsInv(db) && EquityOnly(db, db', r) && db'.categories == db.categories
    requires t in db.transactions && e in db.transactions[t].entries
    ensures CategoryKindOf(db', e) == CategoryKindOf(db, e) && AccountKindOf(db', e) == AccountKindOf(db, e)
  {
    assert RowOk(db, db.transactions[t]);
    assert TargetExists(db, e);
  }

  lemma PostsTally(db: Database, db': Database, id: TxId, r: DraftRequest, m: Measure, m': Measure)
    requires Posts(db, db', id, r)
    requires forall t, e :: t in db.transactions && e in db.transactions[t].entries ==>
               m'(db.transactions[t], e) == m(db.transactions[t], e)
    ensures Tally(db'.transactions, m')
         == Tally(db.transactions, m) + RowTally(db'.transactions[id], db'.transactions[id].entries, m')
  {
    hide Fulfils, EquityOnly;
    TallyPut(db.transactions, id, db'.transactions[id], m');
    TallyEqual(db.transactions, db.transactions, m, m');
    if id in db.transactions {
      assert RowTally(db.transactions[id], db.transactions[id].entries, m') == 0;
    }
  }

  // The posted row, whichever of its entries comes first.
  lemma RowTotals(db: Database, db': Database, id: TxId, r: DraftRequest, s: Selection)
    requires Posts(db, db', id, r) && CatalogInv(db) && RowsInv(db') && OwnTargets(db, r)
    ensures var x := db'.transactions[id];
            && RowTally(x, x.entries, IncomeMeasure(db', s)) == (if Seen(s, r) then IncomeMove(db, r) else 0)
            && RowTally(x, x.entries, ExpenseMeasure(db', s)) == (if Seen(s, r) then ExpenseMove(db, r) else 0)
            && RowTally(x, x.entries, AssetMeasure(db', s)) == (if Seen(s, r) then KindMove(db, r, Asset) else 0)
            && RowTally(x, x.entries, LiabilityMeasure(db', s)) == if Seen(s, r) then -KindMove(db, r, Liability) else 0
  {
    var x := db'.transactions[id];
    assert RowOk(db', x);
    var k := if Pays(db, r, x.entries[0], x.entries[1]) then 0 else 1;
    var d, c := x.entries[k], x.entries[1 - k];
    assert Pays(db, r, d, c) && TargetExists(db', d) && TargetExists(db', c);
    PairTotals(db, db', r, x, d, c, s);
    PairWorth(db, db', r, x, d, c, s);
    hide IncomeMeasure, ExpenseMeasure, AssetMeasure, LiabilityMeasure, Seen, IncomeMove, ExpenseMove, KindMove, Pays,
        Shape;
    RowTallyPair(x, IncomeMeasure(db', s));
    RowTallyPair(x, ExpenseMeasure(db', s));
    RowTallyPair(x, AssetMeasure(db', s));
    RowTallyPair(x, LiabilityMeasure(db', s));
  }

  // Every total of a selection moves by what was asked for, and by nothing else.
  ghost predicate TotalsMove(db: Database, db': Database, r: DraftRequest, s: Selection) {
    var (income, expense) := if Seen(s, r) then (IncomeMove(db, r), ExpenseMove(db, r)) else (0, 0);
    && RT.Income(db', s) == RT.Income(db, s) + income
    && RT.Expense(db', s) == RT.Expense(db, s) + expense
    && RT.CashReceipts(db', s) == RT.CashReceipts(db, s) + income
    && RT.CashPayments(db', s) == RT.CashPayments(db, s) + expense
  }

  ghost predicate WorthMoves(db: Database, db': Database, r: DraftRequest, space: SpaceId, date: Date) {
    var (assets, liabilities) :=
      if Seen(AsOf(space, date), r) then (KindMove(db, r, Asset), -KindMove(db, r, Liability)) else (0, 0);
    && RT.Assets(db', space, date) == RT.Assets(db, space, date) + assets
    && RT.Liabilities(db', space, date) == RT.Liabilities(db, space, date) + liabilities
  }

  lemma PostsTotals(db: Database, db': Database, id: TxId, r: DraftRequest, s: Selection)
    requires Posts(db, db', id, r) && RT.Shaped(db) && RT.Shaped(db') && RowsInv(db) && RowsInv(db')
    requires OwnTargets(db, r)
    ensures TotalsMove(db, db', r, s)
  {
    hide RT.Shaped, Fulfils, EquityOnly, Seen, IncomeMove, ExpenseMove, KindMove, OwnTargets, RT.Income, RT.Expense,
         RT.CashReceipts, RT.CashPayments, Read, RowsInv, IncomeMeasure, ExpenseMeasure, AssetMeasure, LiabilityMeasure;
    assert CatalogInv(db) by { ShapedCatalog(db); }
    RT.ReadTotals(db, s);
    RT.ReadTotals(db', s);
    RT.ReceiptsArePlain(db, s);
    RT.ReceiptsArePlain(db', s);
    RowTotals(db, db', id, r, s);
    PostsTallies(db, db', id, r, s);
  }

  lemma PostsTallies(db: Database, db': Database, id: TxId, r: DraftRequest, s: Selection)
    requires Posts(db, db', id, r) && RowsInv(db)
    ensures var x := db'.transactions[id];
            && Tally(db'.transactions, IncomeMeasure(db', s))
              == Tally(db.transactions, IncomeMeasure(db, s)) + RowTally(x, x.entries, IncomeMeasure(db', s))
            && Tally(db'.transactions, ExpenseMeasure(db', s))
              == Tally(db.transactions, ExpenseMeasure(db, s)) + RowTally(x, x.entries, ExpenseMeasure(db', s))
            && Tally(db'.transactions, AssetMeasure(db', s))
              == Tally(db.transactions, AssetMeasure(db, s)) + RowTally(x, x.entries, AssetMeasure(db', s))
            && Tally(db'.transactions, LiabilityMeasure(db', s))
              == Tally(db.transactions, LiabilityMeasure(db, s)) + RowTally(x, x.entries, LiabilityMeasure(db', s))
  {
    hide Fulfils, EquityOnly, RowsInv, IncomeMeasure, ExpenseMeasure, AssetMeasure, LiabilityMeasure;
    OldMeasures(db, db', r, s);
    PostsTally(db, db', id, r, IncomeMeasure(db, s), IncomeMeasure(db', s));
    PostsTally(db, db', id, r, ExpenseMeasure(db, s), ExpenseMeasure(db', s));
    PostsTally(db, db', id, r, AssetMeasure(db, s), AssetMeasure(db', s));
    PostsTally(db, db', id, r, LiabilityMeasure(db, s), LiabilityMeasure(db', s));
  }

  lemma OldMeasures(db: Database, db': Database, r: DraftRequest, s: Selection)
    requires RowsInv(db) && EquityOnly(db, db', r) && db'.categories == db.categories
    ensures forall t, e :: t in db.transactions && e in db.transactions[t].entries ==>
              && IncomeMeasure(db', s)(db.transactions[t], e) == IncomeMeasure(db, s)(db.transactions[t], e)
              && ExpenseMeasure(db', s)(db.transactions[t], e) == ExpenseMeasure(db, s)(db.transactions[t], e)
              && AssetMeasure(db', s)(db.transactions[t], e) == AssetMeasure(db, s)(db.transactions[t], e)
              && LiabilityMeasure(db', s)(db.transactions[t], e) == LiabilityMeasure(db, s)(db.transactions[t], e)
  {
    hide RowsInv, EquityOnly, CategoryKindOf, AccountKindOf, Sees;
    forall t, e | t in db.transactions && e in db.transactions[t].entries
      ensures IncomeMeasure(db', s)(db.transactions[t], e) == IncomeMeasure(db, s)(db.transactions[t], e)
      ensures ExpenseMeasure(db', s)(db.transactions[t], e) == ExpenseMeasure(db, s)(db.transactions[t], e)
      ensures AssetMeasure(db', s)(db.transactions[t], e) == AssetMeasure(db, s)(db.transactions[t], e)
      ensures LiabilityMeasure(db', s)(db.transactions[t], e) == LiabilityMeasure(db, s)(db.transactions[t], e)
    {
      OldEntries(db, db', r, s, t, e);
    }
  }

  lemma ShapedCatalog(db: Database)
    requires RT.Shaped(db)
    ensures CatalogInv(db)
  {
  }

  lemma PostsWorth(db: Database, db': Database, id: TxId, r: DraftRequest, space: SpaceId, date: Date)
    requires Posts(db, db', id, r) && CatalogInv(db) && RowsInv(db) && RowsInv(db') && OwnTargets(db, r)
    ensures WorthMoves(db, db', r, space, date)
  {
    hide Fulfils, EquityOnly, Seen, IncomeMove, ExpenseMove, KindMove, OwnTargets, Read, RowsInv, CatalogInv,
         IncomeMeasure, ExpenseMeasure, AssetMeasure, LiabilityMeasure;
    var s := AsOf(space, date);
    RT.ReadTotals(db, s);
    RT.ReadTotals(db', s);
    RowTotals(db, db', id, r, s);
    PostsTallies(db, db', id, r, s);
  }

  lemma AskedTargets(db: Database, c: Command, supply: Supply)
    requires CatalogInv(db) && !c.Reverse? && BuildPosting(db, c, supply).Ok?
    ensures c.PostDraft? ==> c.draft in db.transactions && c.draft in db.details
    ensures OwnTargets(db, Asked(db, c))
  {
    hide EnsureEquity, PostedTransaction, OpeningEntries, MovementEntries, TransferEntries;
  }

  lemma CallTargets(db: Database, call: Call)
    requires FirstSuccess(db, call, false) && !call.command.Reverse? && CatalogInv(db)
    requires call.command.PostDraft? ==> call.command.draft in db.transactions && call.command.draft in db.details
    ensures OwnTargets(db, Asked(db, call.command))
  {
    hide BuildPosting, EntriesClash, StoredOrder, CatalogInv, OwnTargets;
    var reserved := Reserve(db, call).value.db;
    assert CatalogInv(reserved) by { SameCatalog(db, reserved); }
    AskedTargets(reserved, call.command, call.supply);
    assert Asked(reserved, call.command) == Asked(db, call.command);
    SameTargets(db, reserved, Asked(db, call.command));
  }

  lemma SameCatalog(db: Database, db': Database)
    requires CatalogInv(db) && db'.accounts == db.accounts
    ensures CatalogInv(db')
  {
  }

  lemma SameTargets(db: Database, db': Database, r: DraftRequest)
    requires OwnTargets(db', r) && db'.accounts == db.accounts
    ensures OwnTargets(db, r)
  {
  }

  /**
   A posting that takes effect moves each total of each report by exactly what was asked for. An income on an income
   category moves income and receipts up by its amount, an expense on an expense category expenses and payments; a draft
   that crosses the kinds moves the other total down. A report sees it by the economic date, the cash date or up to a
   date.
   */
  lemma PostingMovesTotals(steps: seq<Step>, call: Call, s: Selection)
    requires FirstSuccess(Run(EMPTY, steps), call, false) && !call.command.Reverse?
    ensures var (db, c) := (Run(EMPTY, steps), call.command);
            && (c.PostDraft? ==> c.draft in db.transactions && c.draft in db.details)
            && TotalsMove(db, Deliver(db, call, false, false), Asked(db, c), s)
  {
    hide Attempt, Deliver, Posts, Asked, TotalsMove, OwnTargets, Run;
    var db := Run(EMPTY, steps);
    var db' := Deliver(db, call, false, false);
    PostingFulfilsTheRequest(steps, call);
    Holds(steps, call);
    PostsTotals(db, db', Attempt(db, call).value.result.tx, Asked(db, call.command), s);
  }

  /** And it moves the assets and the liabilities of net worth by what the accounts of each kind move. */
  lemma PostingMovesWorth(steps: seq<Step>, call: Call, space: SpaceId, date: Date)
    requires FirstSuccess(Run(EMPTY, steps), call, false) && !call.command.Reverse?
    ensures var (db, c) := (Run(EMPTY, steps), call.command);
            && (c.PostDraft? ==> c.draft in db.transactions && c.draft in db.details)
            && WorthMoves(db, Deliver(db, call, false, false), Asked(db, c), space, date)
  {
    hide Attempt, Deliver, Posts, Asked, WorthMoves, OwnTargets, Run;
    var db := Run(EMPTY, steps);
    PostingFulfilsTheRequest(steps, call);
    Holds(steps, call);
    PostsWorth(db, Deliver(db, call, false, false), Attempt(db, call).value.result.tx, Asked(db, call.command), space,
               date);
  }

  // What the theorems above need of the ledgers before and after.
  lemma Holds(steps: seq<Step>, call: Call)
    requires FirstSuccess(Run(EMPTY, steps), call, false) && !call.command.Reverse?
    requires var (db, c) := (Run(EMPTY, steps), call.command);
             c.PostDraft? ==> c.draft in db.transactions && c.draft in db.details
    ensures var db := Run(EMPTY, steps);
            var db' := Deliver(db, call, false, false);
            && CatalogInv(db) && RowsInv(db) && RowsInv(db') && RT.Shaped(db) && RT.Shaped(db')
            && OwnTargets(db, Asked(db, call.command))
  {
    hide Inv, Attempt, Asked, OwnTargets, Deliver;
    var db := Run(EMPTY, steps);
    Reachable(steps);
    DeliverKeeps(db, call, false, false);
    LedgerOf(db);
    LedgerOf(Deliver(db, call, false, false));
    PartsOf(db);
    PartsOf(Deliver(db, call, false, false));
    CallTargets(db, call);
  }

  // Income less expense

  ghost function EconomicResult(db: Database, s: Selection): Cents {
    RT.Income(db, s) - RT.Expense(db, s)
  }

  // How far income less expense moves.
  function Result(r: DraftRequest): Cents {
    match r.kind
    case Income => r.amount
    case Expense => -r.amount
    case _ => 0
  }

  /**
   Whatever the kind of the category, which a draft may have chosen freely, the economic result moves up by the amount
   of an income, down by that of an expense, and not at all for a transfer or an opening.
   */
  lemma PostingMovesResult(steps: seq<Step>, call: Call, s: Selection)
    requires FirstSuccess(Run(EMPTY, steps), call, false) && !call.command.Reverse?
    ensures var (db, c) := (Run(EMPTY, steps), call.command);
            && (c.PostDraft? ==> c.draft in db.transactions && c.draft in db.details)
            && EconomicResult(Deliver(db, call, false, false), s)
               == EconomicResult(db, s) + if Seen(s, Asked(db, c)) then Result(Asked(db, c)) else 0
  {
    hide Attempt, Deliver, Asked, Run, Seen, Fulfils, EquityOnly;
    var db := Run(EMPTY, steps);
    PostingMovesTotals(steps, call, s);
    PostingFulfilsTheRequest(steps, call);
    var posted := Attempt(db, call).value.result.tx;
    MovesAdd(db, Asked(db, call.command), Deliver(db, call, false, false).transactions[posted]);
  }

  lemma MovesAdd(db: Database, r: DraftRequest, x: Transaction)
    requires Fulfils(db, r, x)
    ensures IncomeMove(db, r) - ExpenseMove(db, r) == Result(r)
  {
    if r.kind == Income || r.kind == Expense {
      match db.categories[r.category.value].kind {
        case IncomeCategory =>
        case ExpenseCategory =>
      }
    }
  }
}
