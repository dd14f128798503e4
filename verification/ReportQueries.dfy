/** The economic, cash-flow and net-worth queries: loops over the rows the ledger reader returns. */
module ReportQueries {
  import opened Wrappers
  import opened Sums
  import opened Ordering
  import opened Ledger
  import opened Reports

  datatype Contribution = Contribution(
    tx: TxId, amount: Cents, economicDate: Date, cashDate: Option<Date>,
    account: Option<AccountId>, category: Option<CategoryId>)

  datatype EconomicReport = EconomicReport(income: Cents, expense: Cents, result: Cents,
                                           contributions: seq<Contribution>)

  datatype CashFlowReport = CashFlowReport(receipts: Cents, payments: Cents, net: Cents,
                                           contributions: seq<Contribution>)

  datatype NetWorthReport = NetWorthReport(assets: Cents, liabilities: Cents, netWorth: Cents,
                                           contributions: seq<Contribution>)

  function Contributed(r: ReportingEntry, amount: Cents): Contribution {
    Contribution(r.tx, amount, r.economicDate, r.cashDate, r.account, r.category)
  }

  // The rows a report names, each with its amount.
  function Contributions(rows: seq<ReportingEntry>, counts: ReportingEntry -> bool,
                         amount: ReportingEntry -> Cents): seq<Contribution> {
    if rows == [] then []
    else
      var first := if counts(rows[0]) then [Contributed(rows[0], amount(rows[0]))] else [];
      first + Contributions(rows[1..], counts, amount)
  }

  lemma {:induction false} ContributionsConcat(a: seq<ReportingEntry>, b: seq<ReportingEntry>,
                                               counts: ReportingEntry -> bool, amount: ReportingEntry -> Cents)
    ensures Contributions(a + b, counts, amount) == Contributions(a, counts, amount) + Contributions(b, counts, amount)
  {
    if a == [] {
      assert a + b == b;
    } else {
      assert (a + b)[1..] == a[1..] + b;
      ContributionsConcat(a[1..], b, counts, amount);
    }
  }

  lemma OneMoreRow(rows: seq<ReportingEntry>, i: nat, g: ReportingEntry -> Cents)
    requires i < |rows|
    ensures RowSum(rows[..i + 1], g) == RowSum(rows[..i], g) + g(rows[i])
  {
    assert rows[..i + 1] == rows[..i] + [rows[i]];
    RowSumConcat(rows[..i], [rows[i]], g);
  }

  lemma OneMoreContribution(rows: seq<ReportingEntry>, i: nat, counts: ReportingEntry -> bool,
                            amount: ReportingEntry -> Cents)
    requires i < |rows|
    ensures Contributions(rows[..i + 1], counts, amount)
         == if counts(rows[i]) then Contributions(rows[..i], counts, amount) + [Contributed(rows[i], amount(rows[i]))]
            else Contributions(rows[..i], counts, amount)
  {
    assert rows[..i + 1] == rows[..i] + [rows[i]];
    ContributionsConcat(rows[..i], [rows[i]], counts, amount);
  }

  predicate OnCategory(r: ReportingEntry) {
    r.categoryKind.Some?
  }

  function CategoryAmount(r: ReportingEntry): Cents {
    IncomeAmount(r) + ExpenseAmount(r)
  }

  predicate OnOwnAccount(r: ReportingEntry) {
    r.accountKind == Some(Asset) || r.accountKind == Some(Liability)
  }

  function OwnAmount(r: ReportingEntry): Cents {
    AssetAmount(r) + LiabilityAmount(r)
  }

  lemma KindsAreTwo(kind: Option<CategoryKind>)
    ensures kind == None || kind == Some(IncomeCategory) || kind == Some(ExpenseCategory)
  {
    if kind.Some? {
      match kind.value
      case IncomeCategory =>
      case ExpenseCategory =>
    }
  }

  method Economic(rows: seq<ReportingEntry>) returns (report: EconomicReport)
    ensures report.income == RowSum(rows, IncomeAmount)
    ensures report.expense == RowSum(rows, ExpenseAmount)
    ensures report.result == report.income - report.expense
    ensures report.contributions == Contributions(rows, OnCategory, CategoryAmount)
  {
    var income, expense := 0, 0;
    var contributions: seq<Contribution> := [];
    for i := 0 to |rows|
      invariant income == RowSum(rows[..i], IncomeAmount)
      invariant expense == RowSum(rows[..i], ExpenseAmount)
      invariant contributions == Contributions(rows[..i], OnCategory, CategoryAmount)
    {
      OneMoreRow(rows, i, IncomeAmount);
      OneMoreRow(rows, i, ExpenseAmount);
      OneMoreContribution(rows, i, OnCategory, CategoryAmount);
      var entry := rows[i];
      var amount := 0;
      if entry.categoryKind == Some(IncomeCategory) {
        amount := -entry.Signed();
        income := income + amount;
      } else if entry.categoryKind == Some(ExpenseCategory) {
        amount := entry.Signed();
        expense := expense + amount;
      } else {
        KindsAreTwo(entry.categoryKind);
        continue;
      }
      contributions := contributions + [Contributed(entry, amount)];
    }
    assert rows[..|rows|] == rows;
    report := EconomicReport(income, expense, income - expense, contributions);
  }

  method NetWorth(rows: seq<ReportingEntry>) returns (report: NetWorthReport)
    ensures report.assets == RowSum(rows, AssetAmount)
    ensures report.liabilities == RowSum(rows, LiabilityAmount)
    ensures report.netWorth == report.assets - report.liabilities
    ensures report.contributions == Contributions(rows, OnOwnAccount, OwnAmount)
  {
    var assets, liabilities := 0, 0;
    var contributions: seq<Contribution> := [];
    for i := 0 to |rows|
      invariant assets == RowSum(rows[..i], AssetAmount)
      invariant liabilities == RowSum(rows[..i], LiabilityAmount)
      invariant contributions == Contributions(rows[..i], OnOwnAccount, OwnAmount)
    {
      OneMoreRow(rows, i, AssetAmount);
      OneMoreRow(rows, i, LiabilityAmount);
      OneMoreContribution(rows, i, OnOwnAccount, OwnAmount);
      var entry := rows[i];
      var amount := 0;
      if entry.accountKind == Some(Asset) {
        amount := entry.Signed();
        assets := assets + amount;
      } else if entry.accountKind == Some(Liability) {
        amount := -entry.Signed();
        liabilities := liabilities + amount;
      } else {
        continue;
      }
      contributions := contributions + [Contributed(entry, amount)];
    }
    assert rows[..|rows|] == rows;
    report := NetWorthReport(assets, liabilities, assets - liabilities, contributions);
  }

  // Cash flow: rows grouped by transaction

  function GroupIds(rows: seq<ReportingEntry>): set<TxId> {
    set r | r in rows :: r.tx
  }

  function Group(rows: seq<ReportingEntry>, t: TxId): seq<ReportingEntry> {
    if rows == [] then []
    else (if rows[0].tx == t then [rows[0]] else []) + Group(rows[1..], t)
  }

  function FirstCategoryKind(group: seq<ReportingEntry>): Option<CategoryKind> {
    if group == [] then None
    else if group[0].categoryKind.Some? then group[0].categoryKind
    else FirstCategoryKind(group[1..])
  }

  function FirstAccountEntry(group: seq<ReportingEntry>): Option<ReportingEntry> {
    if group == [] then None
    else if group[0].account.Some? then Some(group[0])
    else FirstAccountEntry(group[1..])
  }

  function GroupReceipt(group: seq<ReportingEntry>): Cents {
    if FirstAccountEntry(group).Some? && FirstCategoryKind(group) == Some(IncomeCategory)
    then FirstAccountEntry(group).value.Signed() else 0
  }

  function GroupPayment(group: seq<ReportingEntry>): Cents {
    if FirstAccountEntry(group).Some? && FirstCategoryKind(group) == Some(ExpenseCategory)
    then -FirstAccountEntry(group).value.Signed() else 0
  }

  function GroupContribution(group: seq<ReportingEntry>): seq<Contribution> {
    if FirstAccountEntry(group).Some? && FirstCategoryKind(group).Some?
    then [Contributed(FirstAccountEntry(group).value, GroupReceipt(group) + GroupPayment(group))] else []
  }

  function Receipts(rows: seq<ReportingEntry>, ids: set<TxId>): map<TxId, Cents> {
    map t | t in ids :: GroupReceipt(Group(rows, t))
  }

  function Payments(rows: seq<ReportingEntry>, ids: set<TxId>): map<TxId, Cents> {
    map t | t in ids :: GroupPayment(Group(rows, t))
  }

  function CashContributions(rows: seq<ReportingEntry>, ids: seq<TxId>): seq<Contribution> {
    if ids == [] then []
    else CashContributions(rows, ids[..|ids| - 1]) + GroupContribution(Group(rows, ids[|ids| - 1]))
  }

  lemma {:induction false} GroupConcat(a: seq<ReportingEntry>, b: seq<ReportingEntry>, t: TxId)
    ensures Group(a + b, t) == Group(a, t) + Group(b, t)
  {
    if a == [] {
      assert a + b == b;
    } else {
      var first := if a[0].tx == t then [a[0]] else [];
      assert (a + b)[1..] == a[1..] + b && (a + b)[0] == a[0];
      assert Group(a + b, t) == first + Group(a[1..] + b, t) && Group(a, t) == first + Group(a[1..], t);
      hide Group;
      GroupConcat(a[1..], b, t);
    }
  }

  lemma GroupOneMore(rows: seq<ReportingEntry>, i: nat, t: TxId)
    requires i < |rows|
    ensures Group(rows[..i + 1], t) == if rows[i].tx == t then Group(rows[..i], t) + [rows[i]] else Group(rows[..i], t)
    ensures GroupIds(rows[..i + 1]) == GroupIds(rows[..i]) + {rows[i].tx}
    ensures t !in GroupIds(rows[..i]) ==> Group(rows[..i], t) == []
  {
    assert rows[..i + 1] == rows[..i] + [rows[i]];
    GroupConcat(rows[..i], [rows[i]], t);
    NoGroup(rows[..i], t);
  }

  lemma {:induction false} NoGroup(rows: seq<ReportingEntry>, t: TxId)
    ensures t !in GroupIds(rows) ==> Group(rows, t) == []
  {
    if rows != [] && t !in GroupIds(rows) {
      assert rows[0] in rows;
      assert forall r :: r in rows[1..] ==> r in rows;
      NoGroup(rows[1..], t);
    }
  }

  method GroupRows(rows: seq<ReportingEntry>) returns (groups: map<TxId, seq<ReportingEntry>>)
    ensures groups.Keys == GroupIds(rows)
    ensures forall t :: t in groups ==> groups[t] == Group(rows, t)
  {
    hide Group, GroupIds;
    groups := map[];
    assert GroupIds(rows[..0]) == {} by { NoRowsNoGroups(rows[..0]); }
    for i := 0 to |rows|
      invariant groups.Keys == GroupIds(rows[..i])
      invariant forall t :: t in groups ==> groups[t] == Group(rows[..i], t)
    {
      var entry := rows[i];
      forall t | t == entry.tx || t in groups
        ensures Group(rows[..i + 1], t) == if entry.tx == t then Group(rows[..i], t) + [entry] else Group(rows[..i], t)
        ensures GroupIds(rows[..i + 1]) == GroupIds(rows[..i]) + {entry.tx}
        ensures t !in GroupIds(rows[..i]) ==> Group(rows[..i], t) == []
      {
        GroupOneMore(rows, i, t);
      }
      assert GroupIds(rows[..i + 1]) == GroupIds(rows[..i]) + {entry.tx} by { GroupOneMore(rows, i, entry.tx); }
      groups := groups[entry.tx := (if entry.tx in groups then groups[entry.tx] else []) + [entry]];
    }
    assert rows[..|rows|] == rows;
  }

  lemma NoRowsNoGroups(rows: seq<ReportingEntry>)
    requires rows == []
    ensures GroupIds(rows) == {}
  {
  }

  lemma OneMoreGroup(rows: seq<ReportingEntry>, ids: seq<TxId>, i: nat)
    requires i < |ids| && Increasing(ids, ById)
    ensures Sum(Receipts(rows, Taken(ids, i + 1)))
         == Sum(Receipts(rows, Taken(ids, i))) + GroupReceipt(Group(rows, ids[i]))
    ensures Sum(Payments(rows, Taken(ids, i + 1)))
         == Sum(Payments(rows, Taken(ids, i))) + GroupPayment(Group(rows, ids[i]))
    ensures CashContributions(rows, ids[..i + 1])
         == CashContributions(rows, ids[..i]) + GroupContribution(Group(rows, ids[i]))
  {
    hide GroupReceipt, GroupPayment, GroupContribution, Group, Taken;
    TakeOneMore(ids, i);
    var done, t := Taken(ids, i), ids[i];
    SumPut(Receipts(rows, done), t, GroupReceipt(Group(rows, t)));
    SumPut(Payments(rows, done), t, GroupPayment(Group(rows, t)));
    assert Receipts(rows, done + {t}) == Receipts(rows, done)[t := GroupReceipt(Group(rows, t))];
    assert Payments(rows, done + {t}) == Payments(rows, done)[t := GroupPayment(Group(rows, t))];
    assert ids[..i + 1][..i] == ids[..i];
  }

  method CashFlow(rows: seq<ReportingEntry>) returns (report: CashFlowReport)
    ensures report.receipts == Sum(Receipts(rows, GroupIds(rows)))
    ensures report.payments == Sum(Payments(rows, GroupIds(rows)))
    ensures report.net == report.receipts - report.payments
    ensures report.contributions == CashContributions(rows, Ascending(GroupIds(rows)))
  {
    hide Group, GroupIds, Ascending, Sum, Receipts, Payments, FirstCategoryKind, FirstAccountEntry, Taken;
    var groups := GroupRows(rows);
    var ids := SortedIds(groups.Keys);
    var receipts, payments := 0, 0;
    var contributions: seq<Contribution> := [];
    NothingTaken(rows, ids);
    AllTaken(ids, groups.Keys);
    for i := 0 to |ids|
      invariant receipts == Sum(Receipts(rows, Taken(ids, i)))
      invariant payments == Sum(Payments(rows, Taken(ids, i)))
      invariant contributions == CashContributions(rows, ids[..i])
    {
      OneMoreGroup(rows, ids, i);
      var group := groups[ids[i]];
      var categoryKind := FirstCategoryKind(group);
      var accountEntry := FirstAccountEntry(group);
      if accountEntry.None? {
        continue;
      }
      var amount := 0;
      if categoryKind == Some(IncomeCategory) {
        amount := accountEntry.value.Signed();
        receipts := receipts + amount;
      } else if categoryKind == Some(ExpenseCategory) {
        amount := -accountEntry.value.Signed();
        payments := payments + amount;
      } else {
        KindsAreTwo(categoryKind);
        continue;
      }
      contributions := contributions + [Contributed(accountEntry.value, amount)];
    }
    assert ids[..|ids|] == ids;
    report := CashFlowReport(receipts, payments, receipts - payments, contributions);
  }

  lemma NothingTaken(rows: seq<ReportingEntry>, ids: seq<TxId>)
    ensures Sum(Receipts(rows, Taken(ids, 0))) == 0 && Sum(Payments(rows, Taken(ids, 0))) == 0
  {
    assert Receipts(rows, Taken(ids, 0)) == map[] && Payments(rows, Taken(ids, 0)) == map[];
  }
}
