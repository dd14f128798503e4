/** The rows the services keep, as one value: what a unit of work commits or drops whole. */
module Database {
  import opened Wrappers
  import opened Ledger
  import opened Sums

  type ReconciliationId = nat
  type Key = string

  datatype DraftDetails = DraftDetails(
    amount: Cents,
    account: Option<AccountId>,
    category: Option<CategoryId>,
    destination: Option<AccountId>,
    cashDate: Option<Date>,
    replacementOf: Option<TxId>)

  datatype DraftRequest = DraftRequest(
    space: SpaceId,
    kind: Kind,
    economicDate: Date,
    description: string,
    amount: Cents,
    account: Option<AccountId>,
    category: Option<CategoryId>,
    destination: Option<AccountId>,
    cashDate: Option<Date>)

  // A command without its idempotency key: the command name together with the canonical payload.
  datatype Command =
    | CreateOpening(space: SpaceId, account: AccountId, amount: Cents, economicDate: Date, description: string)
    | CreateIncome(space: SpaceId, account: AccountId, category: CategoryId, amount: Cents,
                   economicDate: Date, cashDate: Option<Date>, description: string)
    | CreateExpense(space: SpaceId, account: AccountId, category: CategoryId, amount: Cents,
                    economicDate: Date, cashDate: Option<Date>, description: string)
    | CreateTransfer(space: SpaceId, account: AccountId, destination: AccountId, amount: Cents,
                     economicDate: Date, cashDate: Option<Date>, description: string)
    | PostDraft(space: SpaceId, draft: TxId, cashDate: Option<Date>)
    | Reverse(space: SpaceId, original: TxId, reversalDate: Option<Date>, cashDate: Option<Date>,
              replacement: Option<DraftRequest>)
  {
    function Action(): Action {
      match this
      case CreateOpening(_, _, _, _, _) => OpeningCreated
      case CreateIncome(_, _, _, _, _, _, _) => IncomeCreated
      case CreateExpense(_, _, _, _, _, _, _) => ExpenseCreated
      case CreateTransfer(_, _, _, _, _, _, _) => TransferCreated
      case PostDraft(_, _, _) => DraftPosted
      case Reverse(_, _, _, _, _) => TransactionReversed
    }
  }

  datatype CommandResult = CommandResult(tx: TxId, state: State, replayed: bool, replacement: Option<TxId>)

  datatype IdempotencyRecord = IdempotencyRecord(command: Command, result: Option<CommandResult>)

  datatype ReconciliationRecord = ReconciliationRecord(
    space: SpaceId, account: AccountId, cutoff: Date, observed: Cents)

  datatype Membership = Membership(reconciliation: ReconciliationId, entry: EntryId)

  datatype Action =
    | OpeningCreated | IncomeCreated | ExpenseCreated | TransferCreated | DraftPosted
    | TransactionReversed | ReconciliationCompleted

  datatype AuditEvent = AuditEvent(
    action: Action, success: bool, space: SpaceId, subject: Option<nat>, correlation: Key)

  datatype Database = Database(
    accounts: map<AccountId, Account>,
    categories: map<CategoryId, Category>,
    transactions: map<TxId, Transaction>,
    details: map<TxId, DraftDetails>,
    links: map<TxId, TxId>,
    keys: map<(SpaceId, Key), IdempotencyRecord>,
    reconciliations: map<ReconciliationId, ReconciliationRecord>,
    memberships: set<Membership>,
    audit: seq<AuditEvent>)

  const EMPTY := Database(map[], map[], map[], map[], map[], map[], map[], {}, [])

  predicate EntryAt(db: Database, t: TxId, i: nat, id: EntryId) {
    t in db.transactions && i < |db.transactions[t].entries| && db.transactions[t].entries[i].id == id
  }

  ghost predicate HasEntry(db: Database, id: EntryId) {
    exists t, i :: EntryAt(db, t, i, id)
  }

  function CompletedIds(db: Database): set<EntryId> {
    set m | m in db.memberships :: m.entry
  }

  // The account or category an entry targets exists in the entry's space.
  predicate TargetExists(db: Database, e: Entry) {
    match e.target
    case ToAccount(a) => a in db.accounts && db.accounts[a].space == e.space
    case ToCategory(c) => c in db.categories && db.categories[c].space == e.space
  }

  // Unique keys of the catalog

  // Another account of the space has the name.
  predicate AccountNameTaken(db: Database, space: SpaceId, name: string, id: AccountId) {
    exists a :: a in db.accounts && a != id && db.accounts[a].space == space && db.accounts[a].name == name
  }

  predicate CategoryNameTaken(db: Database, space: SpaceId, name: string, id: CategoryId) {
    exists c :: c in db.categories && c != id && db.categories[c].space == space && db.categories[c].name == name
  }

  // SQL aggregates over the join of transactions and entries

  type Measure = (Transaction, Entry) -> Cents

  function RowTally(x: Transaction, entries: seq<Entry>, g: Measure): Cents {
    if entries == [] then 0 else g(x, entries[0]) + RowTally(x, entries[1..], g)
  }

  function RowTallies(txs: map<TxId, Transaction>, g: Measure): (rows: map<TxId, Cents>) {
    map t | t in txs :: RowTally(txs[t], txs[t].entries, g)
  }

  ghost function Tally(txs: map<TxId, Transaction>, g: Measure): Cents {
    Sum(RowTallies(txs, g))
  }

  lemma RowTallyPair(x: Transaction, g: Measure)
    requires |x.entries| == 2
    ensures RowTally(x, x.entries, g) == g(x, x.entries[0]) + g(x, x.entries[1])
  {
    assert x.entries[1..][1..] == [];
    assert RowTally(x, x.entries[1..], g) == g(x, x.entries[1]) + RowTally(x, x.entries[1..][1..], g);
  }

  lemma TallyPut(txs: map<TxId, Transaction>, t: TxId, x: Transaction, g: Measure)
    ensures Tally(txs[t := x], g)
         == Tally(txs, g) - (if t in txs then RowTally(txs[t], txs[t].entries, g) else 0) + RowTally(x, x.entries, g)
  {
    SumPut(RowTallies(txs, g), t, RowTally(x, x.entries, g));
    assert RowTallies(txs[t := x], g) == RowTallies(txs, g)[t := RowTally(x, x.entries, g)];
  }

  lemma TallyRemove(txs: map<TxId, Transaction>, t: TxId, g: Measure)
    requires t in txs
    ensures Tally(txs - {t}, g) == Tally(txs, g) - RowTally(txs[t], txs[t].entries, g)
  {
    SumRemove(RowTallies(txs, g), t);
    assert RowTallies(txs - {t}, g) == RowTallies(txs, g) - {t};
  }

  lemma {:induction false} RowTallyAdd(x: Transaction, entries: seq<Entry>, f: Measure, g: Measure, h: Measure)
    requires forall e :: e in entries ==> h(x, e) == f(x, e) + g(x, e)
    ensures RowTally(x, entries, h) == RowTally(x, entries, f) + RowTally(x, entries, g)
  {
    if entries != [] {
      RowTallyAdd(x, entries[1..], f, g, h);
    }
  }

  /** SUM is linear: a measure that splits row by row splits in total. */
  lemma TallyAdd(txs: map<TxId, Transaction>, f: Measure, g: Measure, h: Measure)
    requires forall t, e :: t in txs && e in txs[t].entries ==> h(txs[t], e) == f(txs[t], e) + g(txs[t], e)
    ensures Tally(txs, h) == Tally(txs, f) + Tally(txs, g)
  {
    var fs, gs, hs := RowTallies(txs, f), RowTallies(txs, g), RowTallies(txs, h);
    forall t | t in txs ensures hs[t] == fs[t] + gs[t] {
      RowTallyAdd(txs[t], txs[t].entries, f, g, h);
    }
    SumAdd(fs, gs);
    assert hs == Plus(fs, gs);
  }

  function Both(f: Measure, g: Measure): Measure {
    (x: Transaction, e: Entry) => f(x, e) + g(x, e)
  }

  lemma TallyBoth(txs: map<TxId, Transaction>, f: Measure, g: Measure, h: Measure)
    ensures Tally(txs, Both(Both(f, g), h)) == Tally(txs, f) + Tally(txs, g) + Tally(txs, h)
  {
    TallyAdd(txs, f, g, Both(f, g));
    TallyAdd(txs, Both(f, g), h, Both(Both(f, g), h));
  }

  lemma TallyZero(txs: map<TxId, Transaction>, g: Measure)
    requires forall t :: t in txs ==> RowTally(txs[t], txs[t].entries, g) == 0
    ensures Tally(txs, g) == 0
  {
    SumZero(RowTallies(txs, g));
  }

  lemma {:induction false} RowTallyEqual(x: Transaction, y: Transaction, entries: seq<Entry>, f: Measure, g: Measure)
    requires forall e :: e in entries ==> f(x, e) == g(y, e)
    ensures RowTally(x, entries, f) == RowTally(y, entries, g)
  {
    if entries != [] {
      RowTallyEqual(x, y, entries[1..], f, g);
    }
  }

  /** Tables whose rows have the same entries, measured alike, have the same total. */
  lemma TallyEqual(txs: map<TxId, Transaction>, txs': map<TxId, Transaction>, f: Measure, g: Measure)
    requires txs.Keys == txs'.Keys
    requires forall t :: t in txs ==> txs[t].entries == txs'[t].entries
    requires forall t, e :: t in txs && e in txs[t].entries ==> f(txs[t], e) == g(txs'[t], e)
    ensures Tally(txs, f) == Tally(txs', g)
  {
    forall t | t in txs
      ensures RowTally(txs[t], txs[t].entries, f) == RowTally(txs'[t], txs'[t].entries, g)
    {
      RowTallyEqual(txs[t], txs'[t], txs[t].entries, f, g);
    }
    assert RowTallies(txs, f) == RowTallies(txs', g);
  }

  /** Rows that count for nothing on either side may appear, disappear or differ. */
  lemma TallyMatch(txs: map<TxId, Transaction>, txs': map<TxId, Transaction>, f: Measure, g: Measure, shared: set<TxId>)
    requires shared <= txs.Keys && shared <= txs'.Keys
    requires forall t :: t in shared ==> RowTally(txs[t], txs[t].entries, f) == RowTally(txs'[t], txs'[t].entries, g)
    requires forall t :: t in txs && t !in shared ==> RowTally(txs[t], txs[t].entries, f) == 0
    requires forall t :: t in txs' && t !in shared ==> RowTally(txs'[t], txs'[t].entries, g) == 0
    ensures Tally(txs, f) == Tally(txs', g)
  {
    var fs, gs := RowTallies(txs, f), RowTallies(txs', g);
    SumPartition(fs, shared);
    SumPartition(gs, shared);
    SumZero(fs - shared);
    SumZero(gs - shared);
    assert Within(fs, shared) == Within(gs, shared);
  }
}
