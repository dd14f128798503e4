/** The ledger as the reports read it, and the totals each report draws from those rows. */
module Reports {
  import opened Wrappers
  import opened Sums
  import opened Ordering
  import opened Ledger
  import opened Database

  datatype ReportingEntry = ReportingEntry(
    entry: EntryId,
    tx: TxId,
    economicDate: Date,
    cashDate: Option<Date>,
    side: Side,
    amount: Cents,
    account: Option<AccountId>,
    accountKind: Option<AccountKind>,
    category: Option<CategoryId>,
    categoryKind: Option<CategoryKind>)
  {
    function Signed(): Cents {
      if side == Debit then amount else -amount
    }
  }

  // Which transactions a report reads: an interval of economic or of cash dates, or all up to a date.
  datatype Selection =
    | ByEconomicDate(space: SpaceId, start: Date, end: Date)
    | ByCashDate(space: SpaceId, start: Date, end: Date)
    | AsOf(space: SpaceId, date: Date)
  {
    predicate Dated(x: Transaction) {
      match this
      case ByEconomicDate(_, start, end) => start <= x.economicDate <= end
      case ByCashDate(_, start, end) => x.cashDate.Some? && start <= x.cashDate.value <= end
      case AsOf(_, date) => x.economicDate <= date
    }

    predicate Selects(x: Transaction) {
      x.space == space && x.Visible() && Dated(x)
    }

    function SortDate(x: Transaction): Date {
      if ByCashDate? && x.cashDate.Some? then x.cashDate.value else x.economicDate
    }
  }

  function AccountKindOf(db: Database, e: Entry): Option<AccountKind> {
    if e.target.ToAccount? && e.target.account in db.accounts && db.accounts[e.target.account].space == e.space
    then Some(db.accounts[e.target.account].kind) else None
  }

  function CategoryKindOf(db: Database, e: Entry): Option<CategoryKind> {
    if e.target.ToCategory? && e.target.category in db.categories && db.categories[e.target.category].space == e.space
    then Some(db.categories[e.target.category].kind) else None
  }

  function Joined(db: Database, t: TxId, x: Transaction, e: Entry): ReportingEntry {
    ReportingEntry(e.id, t, x.economicDate, x.cashDate, e.side, e.amount,
                   if e.target.ToAccount? then Some(e.target.account) else None, AccountKindOf(db, e),
                   if e.target.ToCategory? then Some(e.target.category) else None, CategoryKindOf(db, e))
  }

  function TransactionRows(db: Database, space: SpaceId, t: TxId, x: Transaction,
                           entries: seq<Entry>): seq<ReportingEntry> {
    if entries == [] then []
    else (if entries[0].space == space then [Joined(db, t, x, entries[0])] else [])
         + TransactionRows(db, space, t, x, entries[1..])
  }

  // Rows are ordered by date, then transaction, then entry.
  predicate DateThenId(a: (Date, TxId), b: (Date, TxId)) {
    a.0 < b.0 || (a.0 == b.0 && a.1 < b.1)
  }

  ghost function SelectedKeys(db: Database, s: Selection): seq<(Date, TxId)> {
    Listed(set t | t in db.transactions && s.Selects(db.transactions[t]) ::
             (s.SortDate(db.transactions[t]), t), DateThenId)
  }

  ghost function RowsOf(db: Database, space: SpaceId, keys: seq<(Date, TxId)>): seq<ReportingEntry>
    requires forall k :: k in keys ==> k.1 in db.transactions
  {
    if keys == [] then []
    else TransactionRows(db, space, keys[0].1, db.transactions[keys[0].1], db.transactions[keys[0].1].entries)
         + RowsOf(db, space, keys[1..])
  }

  /** The rows a report receives from the ledger reader. */
  ghost function Read(db: Database, s: Selection): seq<ReportingEntry> {
    RowsOf(db, s.space, SelectedKeys(db, s))
  }

  // Sums over rows

  function RowSum(rows: seq<ReportingEntry>, g: ReportingEntry -> Cents): Cents {
    if rows == [] then 0 else g(rows[0]) + RowSum(rows[1..], g)
  }

  lemma {:induction false} RowSumConcat(a: seq<ReportingEntry>, b: seq<ReportingEntry>, g: ReportingEntry -> Cents)
    ensures RowSum(a + b, g) == RowSum(a, g) + RowSum(b, g)
  {
    if a == [] {
      assert a + b == b;
    } else {
      assert (a + b)[1..] == a[1..] + b;
      RowSumConcat(a[1..], b, g);
    }
  }

  function IncomeAmount(r: ReportingEntry): Cents {
    if r.categoryKind == Some(IncomeCategory) then -r.Signed() else 0
  }

  function ExpenseAmount(r: ReportingEntry): Cents {
    if r.categoryKind == Some(ExpenseCategory) then r.Signed() else 0
  }

  function AssetAmount(r: ReportingEntry): Cents {
    if r.accountKind == Some(Asset) then r.Signed() else 0
  }

  function LiabilityAmount(r: ReportingEntry): Cents {
    if r.accountKind == Some(Liability) then -r.Signed() else 0
  }

  // The same amounts read straight off the ledger, for the transactions a selection sees.

  predicate Sees(s: Selection, x: Transaction, e: Entry) {
    s.Selects(x) && e.space == s.space
  }

  function IncomeMeasure(db: Database, s: Selection): Measure {
    (x: Transaction, e: Entry) =>
      if Sees(s, x, e) && CategoryKindOf(db, e) == Some(IncomeCategory) then -e.Signed() else 0
  }

  function ExpenseMeasure(db: Database, s: Selection): Measure {
    (x: Transaction, e: Entry) =>
      if Sees(s, x, e) && CategoryKindOf(db, e) == Some(ExpenseCategory) then e.Signed() else 0
  }

  function AssetMeasure(db: Database, s: Selection): Measure {
    (x: Transaction, e: Entry) => if Sees(s, x, e) && AccountKindOf(db, e) == Some(Asset) then e.Signed() else 0
  }

  function LiabilityMeasure(db: Database, s: Selection): Measure {
    (x: Transaction, e: Entry) => if Sees(s, x, e) && AccountKindOf(db, e) == Some(Liability) then -e.Signed() else 0
  }

  function EquityMeasure(db: Database, s: Selection): Measure {
    (x: Transaction, e: Entry) => if Sees(s, x, e) && AccountKindOf(db, e) == Some(Equity) then e.Signed() else 0
  }

  // A row amount and a ledger measure that agree on what the selection sees; the measure is nothing elsewhere.
  ghost predicate Agree(db: Database, s: Selection, g: ReportingEntry -> Cents, m: Measure) {
    && (forall t, x, e :: Sees(s, x, e) ==> g(Joined(db, t, x, e)) == m(x, e))
    && (forall x, e :: !Sees(s, x, e) ==> m(x, e) == 0)
  }

  lemma AmountsAgree(db: Database, s: Selection)
    ensures Agree(db, s, IncomeAmount, IncomeMeasure(db, s))
    ensures Agree(db, s, ExpenseAmount, ExpenseMeasure(db, s))
    ensures Agree(db, s, AssetAmount, AssetMeasure(db, s))
    ensures Agree(db, s, LiabilityAmount, LiabilityMeasure(db, s))
  {
  }

  lemma {:induction false} TransactionRowsSum(db: Database, s: Selection, g: ReportingEntry -> Cents, m: Measure,
                                              t: TxId, x: Transaction, entries: seq<Entry>)
    requires Agree(db, s, g, m) && s.Selects(x)
    ensures RowSum(TransactionRows(db, s.space, t, x, entries), g) == RowTally(x, entries, m)
  {
    if entries != [] {
      var rest := TransactionRows(db, s.space, t, x, entries[1..]);
      TransactionRowsSum(db, s, g, m, t, x, entries[1..]);
      if entries[0].space == s.space {
        assert Sees(s, x, entries[0]);
        assert ([Joined(db, t, x, entries[0])] + rest)[1..] == rest;
      } else {
        assert [] + rest == rest;
      }
    }
  }

  function KeyIds(keys: seq<(Date, TxId)>): set<TxId> {
    set k | k in keys :: k.1
  }

  predicate DistinctIds(keys: seq<(Date, TxId)>) {
    forall i, j :: 0 <= i < j < |keys| ==> keys[i].1 != keys[j].1
  }

  lemma FirstKey(keys: seq<(Date, TxId)>)
    requires keys != [] && DistinctIds(keys)
    ensures KeyIds(keys) == {keys[0].1} + KeyIds(keys[1..])
    ensures keys[0].1 !in KeyIds(keys[1..]) && DistinctIds(keys[1..])
  {
    assert keys == [keys[0]] + keys[1..];
    assert forall j :: 0 <= j < |keys[1..]| ==> keys[1..][j] == keys[j + 1];
  }

  lemma {:induction false} RowsOfSum(db: Database, s: Selection, g: ReportingEntry -> Cents, m: Measure,
                                     keys: seq<(Date, TxId)>)
    requires Agree(db, s, g, m)
    requires forall k :: k in keys ==> k.1 in db.transactions && s.Selects(db.transactions[k.1])
    requires DistinctIds(keys)
    ensures RowSum(RowsOf(db, s.space, keys), g) == Sum(Within(RowTallies(db.transactions, m), KeyIds(keys)))
  {
    hide Agree, Selection.Selects, TransactionRows, RowTally, KeyIds, DistinctIds;
    var tallies := RowTallies(db.transactions, m);
    if keys == [] {
      assert KeyIds(keys) == {} by { NoKeys(); }
      assert Within(tallies, KeyIds(keys)) == map[];
    } else {
      var t := keys[0].1;
      var x := db.transactions[t];
      FirstKey(keys);
      RowsOfSum(db, s, g, m, keys[1..]);
      RowSumConcat(TransactionRows(db, s.space, t, x, x.entries), RowsOf(db, s.space, keys[1..]), g);
      TransactionRowsSum(db, s, g, m, t, x, x.entries);
      SumWithinOneMore(tallies, KeyIds(keys[1..]), t);
    }
  }

  lemma NoKeys()
    ensures KeyIds([]) == {}
  {
  }

  lemma SelectedKeysAre(db: Database, s: Selection)
    ensures var keys := SelectedKeys(db, s);
            && (forall k :: k in keys ==> k.1 in db.transactions && s.Selects(db.transactions[k.1]))
            && (forall t :: t in KeyIds(keys) <==> t in db.transactions && s.Selects(db.transactions[t]))
            && DistinctIds(keys)
  {
    var keys := SelectedKeys(db, s);
    forall t | t in db.transactions && s.Selects(db.transactions[t]) ensures t in KeyIds(keys) {
      assert (s.SortDate(db.transactions[t]), t) in keys;
    }
    forall i, j | 0 <= i < j < |keys| ensures keys[i].1 != keys[j].1 {
      assert keys[i] in keys && keys[j] in keys && DateThenId(keys[i], keys[j]);
    }
  }

  lemma UnseenRow(s: Selection, db: Database, g: ReportingEntry -> Cents, m: Measure, x: Transaction,
                  entries: seq<Entry>)
    requires Agree(db, s, g, m) && !s.Selects(x)
    ensures RowTally(x, entries, m) == 0
  {
  }

  /** A total over the rows read is the total over the whole ledger of what the selection sees. */
  lemma ReadSum(db: Database, s: Selection, g: ReportingEntry -> Cents, m: Measure)
    requires Agree(db, s, g, m)
    ensures RowSum(Read(db, s), g) == Tally(db.transactions, m)
  {
    var keys, tallies := SelectedKeys(db, s), RowTallies(db.transactions, m);
    SelectedKeysAre(db, s);
    RowsOfSum(db, s, g, m, keys);
    SumPartition(tallies, KeyIds(keys));
    forall t | t in tallies - KeyIds(keys) ensures tallies[t] == 0 {
      UnseenRow(s, db, g, m, db.transactions[t], db.transactions[t].entries);
    }
    SumZero(tallies - KeyIds(keys));
  }
}
