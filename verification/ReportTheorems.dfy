/** How the reports agree with each other and with the ledger. */
module ReportTheorems {
  import opened Wrappers
  import opened Sums
  import opened Ledger
  import opened Database
  import opened Invariants
  import opened Machine
  import opened Reachability
  import opened Reports
  import opened ReportQueries
  import opened Chains

  // The totals of a selection of the ledger, as the queries return them over the rows read.

  ghost function Income(db: Database, s: Selection): Cents {
    RowSum(Read(db, s), IncomeAmount)
  }

  ghost function Expense(db: Database, s: Selection): Cents {
    RowSum(Read(db, s), ExpenseAmount)
  }

  ghost function NetWorthCents(db: Database, space: SpaceId, date: Date): Cents {
    RowSum(Read(db, AsOf(space, date)), AssetAmount) - RowSum(Read(db, AsOf(space, date)), LiabilityAmount)
  }

  ghost function CashReceipts(db: Database, s: Selection): Cents {
    Sum(Receipts(Read(db, s), GroupIds(Read(db, s))))
  }

  ghost function CashPayments(db: Database, s: Selection): Cents {
    Sum(Payments(Read(db, s), GroupIds(Read(db, s))))
  }

  // Signed movement of asset and liability accounts, and of equity accounts, over a selection.

  ghost function OwnMovement(db: Database, s: Selection): Cents {
    Tally(db.transactions, AssetMeasure(db, s)) - Tally(db.transactions, LiabilityMeasure(db, s))
  }

  ghost function EquityMovement(db: Database, s: Selection): Cents {
    Tally(db.transactions, EquityMeasure(db, s))
  }

  // Rows whose shape the invariants give, over a consistent catalog.
  ghost predicate Shaped(db: Database) {
    CatalogInv(db) && forall t :: t in db.transactions ==> RowOk(db, db.transactions[t])
  }

  lemma ReachableIsShaped(steps: seq<Step>)
    ensures Shaped(Run(EMPTY, steps))
  {
    Reachable(steps);
  }

  lemma ReadTotals(db: Database, s: Selection)
    ensures Income(db, s) == Tally(db.transactions, IncomeMeasure(db, s))
    ensures Expense(db, s) == Tally(db.transactions, ExpenseMeasure(db, s))
    ensures RowSum(Read(db, s), AssetAmount) == Tally(db.transactions, AssetMeasure(db, s))
    ensures RowSum(Read(db, s), LiabilityAmount) == Tally(db.transactions, LiabilityMeasure(db, s))
  {
    hide Read, Agree, IncomeMeasure, ExpenseMeasure, AssetMeasure, LiabilityMeasure;
    AmountsAgree(db, s);
    ReadSum(db, s, IncomeAmount, IncomeMeasure(db, s));
    ReadSum(db, s, ExpenseAmount, ExpenseMeasure(db, s));
    ReadSum(db, s, AssetAmount, AssetMeasure(db, s));
    ReadSum(db, s, LiabilityAmount, LiabilityMeasure(db, s));
  }

  // Accounting equation

  // What one entry adds to assets and equity, less liabilities, less the result: its own sign.
  function BookMeasure(db: Database, s: Selection): Measure {
    (x: Transaction, e: Entry) => if Sees(s, x, e) then e.Signed() else 0
  }

  lemma EntryBooks(db: Database, s: Selection, x: Transaction, e: Entry)
    requires TargetExists(db, e)
    ensures BookMeasure(db, s)(x, e)
         == AssetMeasure(db, s)(x, e) - LiabilityMeasure(db, s)(x, e) + EquityMeasure(db, s)(x, e)
          - IncomeMeasure(db, s)(x, e) + ExpenseMeasure(db, s)(x, e)
  {
    match e.target
    case ToAccount(a) =>
      match db.accounts[a].kind {
        case Asset =>
        case Liability =>
        case Equity =>
      }
    case ToCategory(c) =>
      match db.categories[c].kind {
        case IncomeCategory =>
        case ExpenseCategory =>
      }
  }

  lemma RowBooks(db: Database, s: Selection, x: Transaction)
    requires RowOk(db, x)
    ensures RowTally(x, x.entries, BookMeasure(db, s)) == 0
  {
    if x.state != Draft {
      RowTallyPair(x, BookMeasure(db, s));
    }
  }

  lemma EntryTarget(db: Database, t: TxId, e: Entry)
    requires Shaped(db) && t in db.transactions && e in db.transactions[t].entries
    ensures TargetExists(db, e)
  {
    assert RowOk(db, db.transactions[t]);
  }

  /** Double entry over any selection: what own accounts and equity move equals the result of the categories. */
  lemma SelectionBalances(db: Database, s: Selection)
    requires Shaped(db)
    ensures OwnMovement(db, s) + EquityMovement(db, s)
         == Tally(db.transactions, IncomeMeasure(db, s)) - Tally(db.transactions, ExpenseMeasure(db, s))
  {
    hide Shaped, TargetExists, BookMeasure, AssetMeasure, LiabilityMeasure, EquityMeasure, IncomeMeasure,
        ExpenseMeasure;
    var left := Both(Both(AssetMeasure(db, s), EquityMeasure(db, s)), ExpenseMeasure(db, s));
    var right := Both(Both(BookMeasure(db, s), LiabilityMeasure(db, s)), IncomeMeasure(db, s));
    TallyBoth(db.transactions, AssetMeasure(db, s), EquityMeasure(db, s), ExpenseMeasure(db, s));
    TallyBoth(db.transactions, BookMeasure(db, s), LiabilityMeasure(db, s), IncomeMeasure(db, s));
    forall t, e | t in db.transactions && e in db.transactions[t].entries
      ensures left(db.transactions[t], e) == right(db.transactions[t], e)
    {
      EntryTarget(db, t, e);
      EntryBooks(db, s, db.transactions[t], e);
    }
    TallyEqual(db.transactions, db.transactions, left, right);
    forall t | t in db.transactions
      ensures RowTally(db.transactions[t], db.transactions[t].entries, BookMeasure(db, s)) == 0
    {
      ShapedRow(db, t);
      RowBooks(db, s, db.transactions[t]);
    }
    TallyZero(db.transactions, BookMeasure(db, s));
  }

  lemma MovementUpTo(db: Database, space: SpaceId, before: Date, after: Date)
    requires before <= after
    ensures OwnMovement(db, AsOf(space, after))
         == OwnMovement(db, AsOf(space, before)) + OwnMovement(db, ByEconomicDate(space, before + 1, after))
  {
    TallyAdd(db.transactions, AssetMeasure(db, AsOf(space, before)),
             AssetMeasure(db, ByEconomicDate(space, before + 1, after)),
             AssetMeasure(db, AsOf(space, after)));
    TallyAdd(db.transactions, LiabilityMeasure(db, AsOf(space, before)),
             LiabilityMeasure(db, ByEconomicDate(space, before + 1, after)), LiabilityMeasure(db, AsOf(space, after)));
  }

  /**
   The accounting equation across reports, in every reachable ledger and for all dates: net worth grows by the economic
   result of the days in between, less what was booked on equity in them.
   */
  lemma AccountingEquation(steps: seq<Step>, space: SpaceId, before: Date, after: Date)
    requires before <= after
    ensures var db, days := Run(EMPTY, steps), ByEconomicDate(space, before + 1, after);
            NetWorthCents(db, space, after) - NetWorthCents(db, space, before) ==
            Income(db, days) - Expense(db, days) - EquityMovement(db, days)
  {
    hide Shaped, Read, OwnMovement;
    var db, days := Run(EMPTY, steps), ByEconomicDate(space, before + 1, after);
    ReachableIsShaped(steps);
    ReadTotals(db, days);
    NetWorthIsMovement(db, space, before);
    NetWorthIsMovement(db, space, after);
    MovementUpTo(db, space, before, after);
    SelectionBalances(db, days);
  }

  lemma NetWorthIsMovement(db: Database, space: SpaceId, date: Date)
    ensures NetWorthCents(db, space, date) == OwnMovement(db, AsOf(space, date))
  {
    ReadTotals(db, AsOf(space, date));
  }

  // Cash flow

  lemma GroupOfTransaction(db: Database, space: SpaceId, t: TxId, u: TxId, x: Transaction, entries: seq<Entry>)
    ensures Group(TransactionRows(db, space, u, x, entries), t)
         == if t == u then TransactionRows(db, space, u, x, entries) else []
  {
    if entries != [] {
      var first := if entries[0].space == space then [Joined(db, u, x, entries[0])] else [];
      GroupOfTransaction(db, space, t, u, x, entries[1..]);
      GroupConcat(first, TransactionRows(db, space, u, x, entries[1..]), t);
      if first != [] {
        assert Group(first, t) == (if u == t then first else []) + Group(first[1..], t);
      }
    }
  }

  lemma {:induction false} GroupOfRows(db: Database, space: SpaceId, keys: seq<(Date, TxId)>, t: TxId)
    requires forall k :: k in keys ==> k.1 in db.transactions
    requires DistinctIds(keys)
    ensures Group(RowsOf(db, space, keys), t)
         == if t in KeyIds(keys) && t in db.transactions
            then TransactionRows(db, space, t, db.transactions[t], db.transactions[t].entries) else []
  {
    if keys != [] {
      var u := keys[0].1;
      FirstKey(keys);
      GroupConcat(TransactionRows(db, space, u, db.transactions[u], db.transactions[u].entries),
                  RowsOf(db, space, keys[1..]), t);
      GroupOfTransaction(db, space, t, u, db.transactions[u], db.transactions[u].entries);
      GroupOfRows(db, space, keys[1..], t);
    }
  }

  /** The group of a transaction the selection sees is exactly its two rows. */
  lemma GroupIsTransaction(db: Database, s: Selection, t: TxId)
    requires Shaped(db) && t in db.transactions && s.Selects(db.transactions[t])
    ensures var x := db.transactions[t];
            |x.entries| == 2
            && Group(Read(db, s), t) == [Joined(db, t, x, x.entries[0]), Joined(db, t, x, x.entries[1])]
  {
    var x := db.transactions[t];
    assert RowOk(db, x);
    SelectedKeysAre(db, s);
    GroupOfRows(db, s.space, SelectedKeys(db, s), t);
    assert TransactionRows(db, s.space, t, x, x.entries[1..]) == [Joined(db, t, x, x.entries[1])] by {
      assert x.entries[1..][1..] == [];
      assert x.entries[1..][0] == x.entries[1];
    }
  }

  lemma GroupOfUnseen(db: Database, s: Selection, t: TxId)
    requires !(t in db.transactions && s.Selects(db.transactions[t]))
    ensures Group(Read(db, s), t) == []
  {
    SelectedKeysAre(db, s);
    GroupOfRows(db, s.space, SelectedKeys(db, s), t);
  }

  /**
   Looking only at the first category and the first account entry of a group gives the amount its category entries
   carry: a group has at most one category entry, and then one account entry of the opposite sign.
   */
  lemma GroupAmounts(db: Database, s: Selection, t: TxId)
    requires Shaped(db) && t in db.transactions && s.Selects(db.transactions[t])
    ensures var x, group := db.transactions[t], Group(Read(db, s), t);
            && GroupReceipt(group) == RowTally(x, x.entries, IncomeMeasure(db, s))
            && GroupPayment(group) == RowTally(x, x.entries, ExpenseMeasure(db, s))
  {
    hide Shaped, Read;
    var x, group := db.transactions[t], Group(Read(db, s), t);
    GroupIsTransaction(db, s, t);
    assert RowOk(db, x) by { ShapedRow(db, t); }
    PairAmounts(db, s, t, x, group);
  }

  lemma ShapedRow(db: Database, t: TxId)
    requires Shaped(db) && t in db.transactions
    ensures RowOk(db, db.transactions[t])
  {
  }

  lemma PairFirsts(a: ReportingEntry, b: ReportingEntry)
    ensures FirstCategoryKind([a, b]) == if a.categoryKind.Some? then a.categoryKind else b.categoryKind
    ensures FirstAccountEntry([a, b]) == if a.account.Some? then Some(a) else if b.account.Some? then Some(b) else None
  {
    assert [a, b][1..] == [b];
    assert [b][1..] == [];
    assert FirstCategoryKind([b]) == b.categoryKind;
    assert FirstAccountEntry([b]) == if b.account.Some? then Some(b) else None;
  }

  lemma PairAmounts(db: Database, s: Selection, t: TxId, x: Transaction, group: seq<ReportingEntry>)
    requires Shape(db, x) && s.Selects(x)
    requires group == [Joined(db, t, x, x.entries[0]), Joined(db, t, x, x.entries[1])]
    ensures GroupReceipt(group) == RowTally(x, x.entries, IncomeMeasure(db, s))
    ensures GroupPayment(group) == RowTally(x, x.entries, ExpenseMeasure(db, s))
  {
    RowTallyPair(x, IncomeMeasure(db, s));
    RowTallyPair(x, ExpenseMeasure(db, s));
    PairFirsts(group[0], group[1]);
  }

  lemma ReceiptsArePlain(db: Database, s: Selection)
    requires Shaped(db)
    ensures CashReceipts(db, s) == Income(db, s) && CashPayments(db, s) == Expense(db, s)
  {
    hide Shaped, Read, IncomeMeasure, ExpenseMeasure, Agree, GroupIds, Receipts, Payments, RowTallies;
    var ids := GroupIds(Read(db, s));
    var income := RowTallies(db.transactions, IncomeMeasure(db, s));
    var expense := RowTallies(db.transactions, ExpenseMeasure(db, s));
    ReadTotals(db, s);
    SumPartition(income, ids);
    SumPartition(expense, ids);
    GroupsWithin(db, s);
    SumZero(income - ids);
    SumZero(expense - ids);
  }

  lemma GroupsWithin(db: Database, s: Selection)
    requires Shaped(db)
    ensures var ids := GroupIds(Read(db, s));
            var (income, expense) := (RowTallies(db.transactions, IncomeMeasure(db, s)),
                                      RowTallies(db.transactions, ExpenseMeasure(db, s)));
            && Within(income, ids) == Receipts(Read(db, s), ids) && Within(expense, ids) == Payments(Read(db, s), ids)
            && (forall t :: t in income - ids ==> (income - ids)[t] == 0)
            && (forall t :: t in expense - ids ==> (expense - ids)[t] == 0)
  {
    hide Shaped, Read, IncomeMeasure, ExpenseMeasure, GroupReceipt, GroupPayment, Group, Agree, GroupIds,
        Selection.Selects;
    GroupsRead(db, s);
  }

  // A group of the rows read weighs what its transaction weighs; a transaction without a group weighs nothing.
  ghost predicate GroupMatches(db: Database, s: Selection, t: TxId) {
    var group := Group(Read(db, s), t);
    var income := RowTallies(db.transactions, IncomeMeasure(db, s));
    var expense := RowTallies(db.transactions, ExpenseMeasure(db, s));
    if t in GroupIds(Read(db, s)) then
      t in db.transactions && GroupReceipt(group) == income[t] && GroupPayment(group) == expense[t]
    else
      t in db.transactions ==> income[t] == 0 && expense[t] == 0
  }

  lemma GroupsRead(db: Database, s: Selection)
    requires Shaped(db)
    ensures forall t :: t in GroupIds(Read(db, s)) || t in db.transactions ==> GroupMatches(db, s, t)
  {
    hide Shaped, Read, IncomeMeasure, ExpenseMeasure, GroupReceipt, GroupPayment, Agree, Group, GroupIds;
    forall t | t in GroupIds(Read(db, s)) || t in db.transactions ensures GroupMatches(db, s, t) {
      SomeGroup(Read(db, s), t);
      if t in db.transactions && s.Selects(db.transactions[t]) {
        GroupIsTransaction(db, s, t);
        GroupAmounts(db, s, t);
      } else {
        GroupOfUnseen(db, s, t);
        if t in db.transactions {
          AmountsAgree(db, s);
          UnseenRow(s, db, IncomeAmount, IncomeMeasure(db, s), db.transactions[t], db.transactions[t].entries);
          UnseenRow(s, db, ExpenseAmount, ExpenseMeasure(db, s), db.transactions[t], db.transactions[t].entries);
        }
      }
    }
  }

  lemma {:induction false} SomeGroup(rows: seq<ReportingEntry>, t: TxId)
    ensures t in GroupIds(rows) <==> Group(rows, t) != []
  {
    if rows != [] {
      SomeGroup(rows[1..], t);
      assert GroupIds(rows) == {rows[0].tx} + GroupIds(rows[1..]) by {
        assert rows == [rows[0]] + rows[1..];
      }
    }
  }

  // A transaction with a cash date has no equity entry.
  lemma NoEquityInCash(db: Database, space: SpaceId, start: Date, end: Date)
    requires Shaped(db)
    ensures EquityMovement(db, ByCashDate(space, start, end)) == 0
  {
    var s := ByCashDate(space, start, end);
    var g := EquityMeasure(db, s);
    forall t | t in db.transactions ensures RowTally(db.transactions[t], db.transactions[t].entries, g) == 0 {
      var x := db.transactions[t];
      assert RowOk(db, x);
      if x.state != Draft {
        RowTallyPair(x, g);
      }
    }
    TallyZero(db.transactions, g);
  }

  // The totals read straight off the rows of the ledger

  predicate OnCategory(db: Database, e: Entry, kind: CategoryKind) {
    e.target.ToCategory? && e.target.category in db.categories && db.categories[e.target.category].kind == kind
  }

  predicate OnAccount(db: Database, e: Entry, kind: AccountKind) {
    e.target.ToAccount? && e.target.account in db.accounts && db.accounts[e.target.account].kind == kind
  }

  predicate PostedIn(space: SpaceId, x: Transaction) {
    x.space == space && (x.state == Posted || x.state == Reconciled || x.state == Voided)
  }

  // What posted entries on categories of a kind earn, or cost, by economic date and by cash date.

  function ByEconomic(db: Database, space: SpaceId, kind: CategoryKind, start: Date, end: Date): Measure {
    (x: Transaction, e: Entry) =>
      if PostedIn(space, x) && start <= x.economicDate <= end && OnCategory(db, e, kind) then Weight(kind, e) else 0
  }

  function ByCash(db: Database, space: SpaceId, kind: CategoryKind, start: Date, end: Date): Measure {
    (x: Transaction, e: Entry) =>
      if PostedIn(space, x) && x.cashDate.Some? && start <= x.cashDate.value <= end && OnCategory(db, e, kind)
      then Weight(kind, e) else 0
  }

  // Credits on an income category and debits on an expense category count up.
  function Weight(kind: CategoryKind, e: Entry): Cents {
    match kind
    case IncomeCategory => if e.side == Credit then e.amount else -e.amount
    case ExpenseCategory => if e.side == Debit then e.amount else -e.amount
  }

  // What posted entries on accounts of a kind are worth up to a date, debits counting up.
  function UpTo(db: Database, space: SpaceId, kind: AccountKind, date: Date): Measure {
    (x: Transaction, e: Entry) =>
      if PostedIn(space, x) && x.economicDate <= date && OnAccount(db, e, kind)
      then (if e.side == Debit then e.amount else -e.amount) else 0
  }

  lemma PlainEntry(db: Database, s: Selection, t: TxId, e: Entry)
    requires Shaped(db) && t in db.transactions && e in db.transactions[t].entries
    ensures e.space == db.transactions[t].space
    ensures forall kind :: CategoryKindOf(db, e) == Some(kind) <==> OnCategory(db, e, kind)
    ensures forall kind :: AccountKindOf(db, e) == Some(kind) <==> OnAccount(db, e, kind)
    ensures Sees(s, db.transactions[t], e) <==> PostedIn(s.space, db.transactions[t]) && s.Dated(db.transactions[t])
  {
    assert RowOk(db, db.transactions[t]);
    EntryTarget(db, t, e);
  }

  lemma PlainTotal(db: Database, m: Measure, plain: Measure)
    requires forall t, e :: t in db.transactions && e in db.transactions[t].entries ==>
               m(db.transactions[t], e) == plain(db.transactions[t], e)
    ensures Tally(db.transactions, m) == Tally(db.transactions, plain)
  {
    TallyEqual(db.transactions, db.transactions, m, plain);
  }

  lemma PlainEconomic(db: Database, space: SpaceId, start: Date, end: Date)
    requires Shaped(db)
    ensures var s := ByEconomicDate(space, start, end);
            && Tally(db.transactions, IncomeMeasure(db, s))
              == Tally(db.transactions, ByEconomic(db, space, IncomeCategory, start, end))
            && Tally(db.transactions, ExpenseMeasure(db, s))
              == Tally(db.transactions, ByEconomic(db, space, ExpenseCategory, start, end))
  {
    hide Shaped, CategoryKindOf, OnCategory, Sees, PostedIn;
    var s := ByEconomicDate(space, start, end);
    forall t, e | t in db.transactions && e in db.transactions[t].entries
      ensures IncomeMeasure(db, s)(db.transactions[t], e)
           == ByEconomic(db, space, IncomeCategory, start, end)(db.transactions[t], e)
      ensures ExpenseMeasure(db, s)(db.transactions[t], e)
           == ByEconomic(db, space, ExpenseCategory, start, end)(db.transactions[t], e)
    {
      PlainEntry(db, s, t, e);
    }
    hide IncomeMeasure, ExpenseMeasure, ByEconomic;
    PlainTotal(db, IncomeMeasure(db, s), ByEconomic(db, space, IncomeCategory, start, end));
    PlainTotal(db, ExpenseMeasure(db, s), ByEconomic(db, space, ExpenseCategory, start, end));
  }

  lemma PlainCash(db: Database, space: SpaceId, start: Date, end: Date)
    requires Shaped(db)
    ensures var s := ByCashDate(space, start, end);
            && Tally(db.transactions, IncomeMeasure(db, s))
              == Tally(db.transactions, ByCash(db, space, IncomeCategory, start, end))
            && Tally(db.transactions, ExpenseMeasure(db, s))
              == Tally(db.transactions, ByCash(db, space, ExpenseCategory, start, end))
  {
    hide Shaped, CategoryKindOf, OnCategory, Sees, PostedIn;
    var s := ByCashDate(space, start, end);
    forall t, e | t in db.transactions && e in db.transactions[t].entries
      ensures IncomeMeasure(db, s)(db.transactions[t], e)
           == ByCash(db, space, IncomeCategory, start, end)(db.transactions[t], e)
      ensures ExpenseMeasure(db, s)(db.transactions[t], e)
           == ByCash(db, space, ExpenseCategory, start, end)(db.transactions[t], e)
    {
      PlainEntry(db, s, t, e);
    }
    hide IncomeMeasure, ExpenseMeasure, ByCash;
    PlainTotal(db, IncomeMeasure(db, s), ByCash(db, space, IncomeCategory, start, end));
    PlainTotal(db, ExpenseMeasure(db, s), ByCash(db, space, ExpenseCategory, start, end));
  }

  /**
   In every reachable ledger the economic report gives the posted credits less debits on income categories, and debits
   less credits on expense categories, of transactions whose economic date is in the interval.
   */
  lemma EconomicAgrees(steps: seq<Step>, space: SpaceId, start: Date, end: Date)
    ensures var db, s := Run(EMPTY, steps), ByEconomicDate(space, start, end);
            && Income(db, s) == Tally(db.transactions, ByEconomic(db, space, IncomeCategory, start, end))
            && Expense(db, s) == Tally(db.transactions, ByEconomic(db, space, ExpenseCategory, start, end))
  {
    hide Shaped, Read, IncomeMeasure, ExpenseMeasure, ByEconomic, Run;
    var db := Run(EMPTY, steps);
    ReachableIsShaped(steps);
    ReadTotals(db, ByEconomicDate(space, start, end));
    PlainEconomic(db, space, start, end);
  }

  /**
   In every reachable ledger the cash report, which groups rows by transaction, gives the posted credits less debits on
   income categories and debits less credits on expense categories of transactions whose cash date is in the interval,
   and its net is all that asset and liability accounts moved in them.
   */
  lemma CashFlowAgrees(steps: seq<Step>, space: SpaceId, start: Date, end: Date)
    ensures var db, s := Run(EMPTY, steps), ByCashDate(space, start, end);
            && CashReceipts(db, s) == Tally(db.transactions, ByCash(db, space, IncomeCategory, start, end))
            && CashPayments(db, s) == Tally(db.transactions, ByCash(db, space, ExpenseCategory, start, end))
            && CashReceipts(db, s) - CashPayments(db, s) == OwnMovement(db, s)
  {
    hide Shaped, Read, IncomeMeasure, ExpenseMeasure, OwnMovement, ByCash;
    var db, s := Run(EMPTY, steps), ByCashDate(space, start, end);
    ReachableIsShaped(steps);
    ReceiptsArePlain(db, s);
    ReadTotals(db, s);
    SelectionBalances(db, s);
    NoEquityInCash(db, space, start, end);
    PlainCash(db, space, start, end);
  }

  // Which assets and liabilities the net-worth report gives.

  ghost function Assets(db: Database, space: SpaceId, date: Date): Cents {
    RowSum(Read(db, AsOf(space, date)), AssetAmount)
  }

  ghost function Liabilities(db: Database, space: SpaceId, date: Date): Cents {
    RowSum(Read(db, AsOf(space, date)), LiabilityAmount)
  }

  /**
   In every reachable ledger the net-worth report gives what asset accounts are worth and, its sign turned, what
   liability accounts are worth, over the posted transactions up to the date.
   */
  lemma NetWorthAgrees(steps: seq<Step>, space: SpaceId, date: Date)
    ensures var db := Run(EMPTY, steps);
            && Assets(db, space, date) == Tally(db.transactions, UpTo(db, space, Asset, date))
            && Liabilities(db, space, date) == -Tally(db.transactions, UpTo(db, space, Liability, date))
            && NetWorthCents(db, space, date) == Assets(db, space, date) - Liabilities(db, space, date)
  {
    hide Shaped, Read, Run, AccountKindOf, OnAccount, Sees, PostedIn;
    var db, s := Run(EMPTY, steps), AsOf(space, date);
    ReachableIsShaped(steps);
    ReadTotals(db, s);
    forall t, e | t in db.transactions && e in db.transactions[t].entries
      ensures AssetMeasure(db, s)(db.transactions[t], e) == UpTo(db, space, Asset, date)(db.transactions[t], e)
      ensures LiabilityMeasure(db, s)(db.transactions[t], e)
                + UpTo(db, space, Liability, date)(db.transactions[t], e) == 0
    {
      PlainEntry(db, s, t, e);
    }
    hide AssetMeasure, LiabilityMeasure, UpTo;
    PlainTotal(db, AssetMeasure(db, s), UpTo(db, space, Asset, date));
    TallyCancels(db, LiabilityMeasure(db, s), UpTo(db, space, Liability, date));
  }

  lemma TallyCancels(db: Database, f: Measure, g: Measure)
    requires forall t, e :: t in db.transactions && e in db.transactions[t].entries ==>
               f(db.transactions[t], e) + g(db.transactions[t], e) == 0
    ensures Tally(db.transactions, f) + Tally(db.transactions, g) == 0
  {
    var zero: Measure := (x: Transaction, e: Entry) => 0;
    TallyAdd(db.transactions, f, g, zero);
    forall t | t in db.transactions ensures RowTally(db.transactions[t], db.transactions[t].entries, zero) == 0 {
      ZeroRow(db.transactions[t], db.transactions[t].entries, zero);
    }
    TallyZero(db.transactions, zero);
  }

  lemma ZeroRow(x: Transaction, entries: seq<Entry>, zero: Measure)
    requires forall e :: zero(x, e) == 0
    ensures RowTally(x, entries, zero) == 0
  {
  }

  // Adjacent intervals and cancelled pairs

  lemma IncomeExpenseSplit(db: Database, first: Selection, second: Selection, whole: Selection)
    requires forall x, e :: Sees(whole, x, e) <==> Sees(first, x, e) || Sees(second, x, e)
    requires forall x, e :: !(Sees(first, x, e) && Sees(second, x, e))
    ensures Income(db, whole) == Income(db, first) + Income(db, second)
    ensures Expense(db, whole) == Expense(db, first) + Expense(db, second)
  {
    hide Read, RowSum, Income, Expense, Sees;
    ReadTotals(db, first);
    ReadTotals(db, second);
    ReadTotals(db, whole);
    MeasuresSplit(db, first, second, whole);
    TallyAdd(db.transactions, IncomeMeasure(db, first), IncomeMeasure(db, second), IncomeMeasure(db, whole));
    TallyAdd(db.transactions, ExpenseMeasure(db, first), ExpenseMeasure(db, second), ExpenseMeasure(db, whole));
  }

  lemma MeasuresSplit(db: Database, first: Selection, second: Selection, whole: Selection)
    requires forall x, e :: Sees(whole, x, e) <==> Sees(first, x, e) || Sees(second, x, e)
    requires forall x, e :: !(Sees(first, x, e) && Sees(second, x, e))
    ensures forall x, e ::
              IncomeMeasure(db, whole)(x, e) == IncomeMeasure(db, first)(x, e) + IncomeMeasure(db, second)(x, e)
    ensures forall x, e ::
              ExpenseMeasure(db, whole)(x, e) == ExpenseMeasure(db, first)(x, e) + ExpenseMeasure(db, second)(x, e)
  {
    hide Sees;
  }

  /** The economic and cash reports of adjacent intervals add up to the report of the whole. */
  lemma ReportsAreAdditive(steps: seq<Step>, space: SpaceId, start: Date, middle: Date, end: Date)
    requires start <= middle + 1 && middle <= end
    ensures var db := Run(EMPTY, steps);
            var (first, second, whole) := (ByEconomicDate(space, start, middle), ByEconomicDate(space, middle + 1, end),
                                           ByEconomicDate(space, start, end));
            && Income(db, whole) == Income(db, first) + Income(db, second)
            && Expense(db, whole) == Expense(db, first) + Expense(db, second)
    ensures var db := Run(EMPTY, steps);
            var (first, second, whole) := (ByCashDate(space, start, middle), ByCashDate(space, middle + 1, end),
                                           ByCashDate(space, start, end));
            && CashReceipts(db, whole) == CashReceipts(db, first) + CashReceipts(db, second)
            && CashPayments(db, whole) == CashPayments(db, first) + CashPayments(db, second)
  {
    hide Shaped, Income, Expense, CashReceipts, CashPayments;
    var db := Run(EMPTY, steps);
    IncomeExpenseSplit(db, ByEconomicDate(space, start, middle), ByEconomicDate(space, middle + 1, end),
                       ByEconomicDate(space, start, end));
    IncomeExpenseSplit(db, ByCashDate(space, start, middle), ByCashDate(space, middle + 1, end),
                       ByCashDate(space, start, end));
    ReachableIsShaped(steps);
    ReceiptsArePlain(db, ByCashDate(space, start, middle));
    ReceiptsArePlain(db, ByCashDate(space, middle + 1, end));
    ReceiptsArePlain(db, ByCashDate(space, start, end));
  }

  // Net worth and account balances

  // The accounts of a space that count towards its net worth.
  function OwnAccounts(db: Database, space: SpaceId): set<AccountId> {
    set a | a in db.accounts && db.accounts[a].space == space && db.accounts[a].kind != Equity
  }

  ghost function Balances(db: Database, space: SpaceId, accounts: set<AccountId>): map<AccountId, Cents> {
    map a | a in accounts :: BalanceCents(db, space, a)
  }

  // The signed effects on a set of accounts.
  function OnAccounts(space: SpaceId, accounts: set<AccountId>): Measure {
    (x: Transaction, e: Entry) =>
      if x.Visible() && e.space == space && e.target.ToAccount? && e.target.account in accounts then e.Signed() else 0
  }

  /** Summing a table by account and then over accounts, or in one go, is the same. */
  lemma {:induction false} BalancesAddUp(db: Database, space: SpaceId, accounts: set<AccountId>)
    ensures Sum(Balances(db, space, accounts)) == Tally(db.transactions, OnAccounts(space, accounts))
    decreases |accounts|
  {
    var balances := Balances(db, space, accounts);
    if accounts == {} {
      assert balances == map[];
      NoAccounts(db, space);
    } else {
      hide OnAccounts, Sum;
      var a :| a in accounts;
      var rest := accounts - {a};
      BalancesAddUp(db, space, rest);
      SumRemove(balances, a);
      assert balances - {a} == Balances(db, space, rest);
      OneMoreAccount(space, accounts, a);
      TallyAdd(db.transactions, AccountMeasure(space, a), OnAccounts(space, rest), OnAccounts(space, accounts));
    }
  }

  lemma OneMoreAccount(space: SpaceId, accounts: set<AccountId>, a: AccountId)
    requires a in accounts
    ensures forall x, e ::
              OnAccounts(space, accounts)(x, e)
                == AccountMeasure(space, a)(x, e) + OnAccounts(space, accounts - {a})(x, e)
  {
  }

  lemma NoAccounts(db: Database, space: SpaceId)
    ensures Tally(db.transactions, OnAccounts(space, {})) == 0
  {
    forall t | t in db.transactions
      ensures RowTally(db.transactions[t], db.transactions[t].entries, OnAccounts(space, {})) == 0
    {
      NoAccountsRow(db.transactions[t], db.transactions[t].entries, space);
    }
    TallyZero(db.transactions, OnAccounts(space, {}));
  }

  lemma NoAccountsRow(x: Transaction, entries: seq<Entry>, space: SpaceId)
    ensures RowTally(x, entries, OnAccounts(space, {})) == 0
  {
  }

  lemma OwnEntry(db: Database, space: SpaceId, date: Date, t: TxId, e: Entry)
    requires Shaped(db) && t in db.transactions && e in db.transactions[t].entries
    requires NotAfter(db.transactions[t], space, date)
    ensures OnAccounts(space, OwnAccounts(db, space))(db.transactions[t], e)
          + LiabilityMeasure(db, AsOf(space, date))(db.transactions[t], e)
         == AssetMeasure(db, AsOf(space, date))(db.transactions[t], e)
  {
    assert RowOk(db, db.transactions[t]);
    EntryTarget(db, t, e);
    if e.target.ToAccount? {
      match db.accounts[e.target.account].kind {
        case Asset => assert AccountKindOf(db, e) == Some(Asset);
        case Liability => assert AccountKindOf(db, e) == Some(Liability);
        case Equity => assert AccountKindOf(db, e) == Some(Equity);
      }
    }
  }

  // No visible transaction of the space has a later economic date.
  predicate NothingAfter(db: Database, space: SpaceId, date: Date) {
    forall t :: t in db.transactions ==> NotAfter(db.transactions[t], space, date)
  }

  predicate NotAfter(x: Transaction, space: SpaceId, date: Date) {
    x.Visible() && x.space == space ==> x.economicDate <= date
  }

  /**
   In every reachable ledger, net worth as of a date that no visible transaction of the space comes after is the sum of
   the balances of its asset and liability accounts.
   */
  lemma NetWorthIsBalances(steps: seq<Step>, space: SpaceId, date: Date)
    requires NothingAfter(Run(EMPTY, steps), space, date)
    ensures var db := Run(EMPTY, steps);
            NetWorthCents(db, space, date) == Sum(Balances(db, space, OwnAccounts(db, space)))
  {
    hide Run, Shaped, Read, OnAccounts, AssetMeasure, LiabilityMeasure, Sum;
    var db, s := Run(EMPTY, steps), AsOf(space, date);
    ReachableIsShaped(steps);
    ReadTotals(db, s);
    BalancesAddUp(db, space, OwnAccounts(db, space));
    forall t, e | t in db.transactions && e in db.transactions[t].entries
      ensures AssetMeasure(db, s)(db.transactions[t], e)
           == OnAccounts(space, OwnAccounts(db, space))(db.transactions[t], e)
             + LiabilityMeasure(db, s)(db.transactions[t], e)
    {
      OwnEntry(db, space, date, t, e);
    }
    TallyAdd(db.transactions, OnAccounts(space, OwnAccounts(db, space)), LiabilityMeasure(db, s), AssetMeasure(db, s));
  }

  // The ledger with a reversed transaction and its reversal taken out.
  function WithoutPair(db: Database, o: TxId): Database
    requires o in db.links
  {
    db.(transactions := db.transactions - {o, db.links[o]})
  }

  predicate Opposed(e: Entry, f: Entry) {
    f.target == e.target && f.space == e.space && f.amount == e.amount && f.side == e.side.Opposite()
  }

  // Opposite entries weigh opposite amounts where a selection sees both.
  ghost predicate Signs(m: Measure, s: Selection) {
    && (forall x, y, e, f | Sees(s, x, e) && Sees(s, y, f) && Opposed(e, f) :: m(y, f) == -m(x, e))
    && (forall x, e :: !Sees(s, x, e) ==> m(x, e) == 0)
  }

  lemma MeasuresSign(db: Database, s: Selection)
    ensures Signs(IncomeMeasure(db, s), s) && Signs(ExpenseMeasure(db, s), s)
    ensures Signs(AssetMeasure(db, s), s) && Signs(LiabilityMeasure(db, s), s)
  {
  }

  lemma PairCancels(db: Database, s: Selection, m: Measure, o: Transaction, r: Transaction)
    requires Signs(m, s) && Shape(db, o) && Shape(db, r) && Mirrors(o, r) && o.Visible() && r.Visible()
    requires s.Dated(o) == s.Dated(r)
    ensures RowTally(o, o.entries, m) + RowTally(r, r.entries, m) == 0
  {
    hide Selection.Dated;
    RowTallyPair(o, m);
    RowTallyPair(r, m);
    assert forall i :: 0 <= i < 2 ==> (Sees(s, o, o.entries[i]) <==> Sees(s, r, r.entries[i]));
  }

  lemma LinkShapes(db: Database, o: TxId)
    requires RowsInv(db) && LinksInv(db) && o in db.links
    ensures LinkOk(db, o, db.links[o]) && o != db.links[o]
    ensures db.transactions[o].Visible() && Shape(db, db.transactions[o]) && Shape(db, db.transactions[db.links[o]])
  {
    assert LinkOk(db, o, db.links[o]);
    assert RowOk(db, db.transactions[o]) && RowOk(db, db.transactions[db.links[o]]);
  }

  lemma PairRemoved(db: Database, s: Selection, m: Measure, m': Measure, o: TxId)
    requires RowsInv(db) && LinksInv(db) && o in db.links
    requires s.Dated(db.transactions[o]) == s.Dated(db.transactions[db.links[o]])
    requires Signs(m, s) && forall x, e :: m'(x, e) == m(x, e)
    ensures Tally(WithoutPair(db, o).transactions, m') == Tally(db.transactions, m)
  {
    hide RowsInv, LinksInv, Signs, Shape;
    var r := db.links[o];
    LinkShapes(db, o);
    PairCancels(db, s, m, db.transactions[o], db.transactions[r]);
    TallyRemove(db.transactions, o, m);
    TallyRemove(db.transactions - {o}, r, m);
    assert db.transactions - {o} - {r} == WithoutPair(db, o).transactions;
    TallyEqual(WithoutPair(db, o).transactions, WithoutPair(db, o).transactions, m, m');
  }

  lemma SameMeasures(db: Database, s: Selection, o: TxId)
    requires o in db.links
    ensures var db' := WithoutPair(db, o);
            forall x, e ::
              && IncomeMeasure(db', s)(x, e) == IncomeMeasure(db, s)(x, e)
              && ExpenseMeasure(db', s)(x, e) == ExpenseMeasure(db, s)(x, e)
              && AssetMeasure(db', s)(x, e) == AssetMeasure(db, s)(x, e)
              && LiabilityMeasure(db', s)(x, e) == LiabilityMeasure(db, s)(x, e)
  {
    hide Sees;
  }

  lemma RemovedTotals(db: Database, s: Selection, o: TxId)
    requires RowsInv(db) && LinksInv(db) && o in db.links
    requires s.Dated(db.transactions[o]) == s.Dated(db.transactions[db.links[o]])
    ensures var db' := WithoutPair(db, o);
            && Income(db', s) == Income(db, s) && Expense(db', s) == Expense(db, s)
            && OwnMovement(db', s) == OwnMovement(db, s)
  {
    hide RowsInv, LinksInv, Signs, Selection.Dated, Income, Expense, Read, WithoutPair;
    var db' := WithoutPair(db, o);
    MeasuresSign(db, s);
    SameMeasures(db, s, o);
    hide IncomeMeasure, ExpenseMeasure, AssetMeasure, LiabilityMeasure;
    PairRemoved(db, s, IncomeMeasure(db, s), IncomeMeasure(db', s), o);
    PairRemoved(db, s, ExpenseMeasure(db, s), ExpenseMeasure(db', s), o);
    PairRemoved(db, s, AssetMeasure(db, s), AssetMeasure(db', s), o);
    PairRemoved(db, s, LiabilityMeasure(db, s), LiabilityMeasure(db', s), o);
    ReadTotals(db, s);
    ReadTotals(db', s);
  }

  lemma WithoutPairShaped(db: Database, o: TxId)
    requires Shaped(db) && o in db.links
    ensures Shaped(WithoutPair(db, o))
  {
    var db' := WithoutPair(db, o);
    forall t | t in db'.transactions ensures RowOk(db', db'.transactions[t]) {
      assert RowOk(db, db.transactions[t]);
    }
  }

  /**
   Deleting a reversed transaction together with its reversal would leave every report as it is, as long as the report
   sees both or neither: by economic date, by cash date, or up to a date.
   */
  lemma ReversedPairsCancel(steps: seq<Step>, o: TxId, s: Selection)
    requires o in Run(EMPTY, steps).links
    requires var db := Run(EMPTY, steps);
             o in db.transactions && db.links[o] in db.transactions
             && s.Dated(db.transactions[o]) == s.Dated(db.transactions[db.links[o]])
    ensures var db := Run(EMPTY, steps);
            var db' := WithoutPair(db, o);
            && Income(db', s) == Income(db, s) && Expense(db', s) == Expense(db, s)
            && CashReceipts(db', s) == CashReceipts(db, s) && CashPayments(db', s) == CashPayments(db, s)
            && (s.AsOf? ==> NetWorthCents(db', s.space, s.date) == NetWorthCents(db, s.space, s.date))
  {
    hide CatalogInv, RowsInv, EntryIdsInv, LinksInv, MembershipsInv, StatesInv, KeysInv, AuditInv,
         Shaped, Income, Expense, CashReceipts, CashPayments, NetWorthCents, OwnMovement, Selection.Dated;
    var db := Run(EMPTY, steps);
    Reachable(steps);
    ReachableIsShaped(steps);
    WithoutPairShaped(db, o);
    RemovedTotals(db, s, o);
    ReceiptsArePlain(db, s);
    ReceiptsArePlain(WithoutPair(db, o), s);
    if s.AsOf? {
      NetWorthIsMovement(db, s.space, s.date);
      NetWorthIsMovement(WithoutPair(db, o), s.space, s.date);
    }
  }
}
