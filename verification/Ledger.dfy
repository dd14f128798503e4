/** The ledger domain: accounts, entries, posting recipes, transactions and their lifecycle. */
module Ledger {
  import opened Wrappers
  import Text

  type SpaceId = nat
  type TxId = nat
  type CategoryId = nat
  type Date = int
  type Cents = int

  // The technical equity account of a space has an id derived from the space's own.
  datatype AccountId = Opaque(n: nat) | OpeningEquity(space: SpaceId)

  datatype AccountKind = Asset | Liability | Equity

  datatype Account = Account(space: SpaceId, name: string, kind: AccountKind, archived: bool, reconcilable: bool) {
    predicate Eligible() {
      !archived && reconcilable && kind != Equity
    }
  }

  datatype CategoryKind = IncomeCategory | ExpenseCategory

  datatype Category = Category(space: SpaceId, name: string, kind: CategoryKind, archived: bool)

  // Names

  predicate IsBlank(c: char) {
    || '\U{0009}' <= c <= '\U{000D}'
    || '\U{001C}' <= c <= '\U{0020}'
    || c in {'\U{0085}', '\U{00A0}', '\U{1680}'}
    || '\U{2000}' <= c <= '\U{200A}'
    || c in {'\U{2028}', '\U{2029}', '\U{202F}', '\U{205F}', '\U{3000}'}
  }

  const NAME_LIMIT := 120

  predicate IsName(name: string) {
    1 <= |name| <= NAME_LIMIT && Text.IsTrim(name, IsBlank)
  }

  /** A catalog name without the blanks around it, if that leaves a name of admissible length. */
  function ValidatedName(name: string): (r: Result<string>)
    ensures r.Ok? ==> IsName(r.value)
  {
    var stripped := Text.Trimmed(name, IsBlank);
    Text.TrimmedIsTrim(name, IsBlank);
    if stripped == "" || |stripped| > NAME_LIMIT then Err(InvalidName) else Ok(stripped)
  }

  // A plain identifier has index 0; a reversal's entries are its prefix with index 1, 2, ...
  datatype EntryId = EntryId(base: nat, index: nat) {
    predicate Before(other: EntryId) {
      base < other.base || (base == other.base && index < other.index)
    }
  }

  datatype Side = Debit | Credit {
    function Opposite(): Side {
      match this
      case Debit => Credit
      case Credit => Debit
    }
  }

  // An entry targets exactly one account or category.
  datatype Target = ToAccount(account: AccountId) | ToCategory(category: CategoryId)

  datatype Entry = Entry(id: EntryId, space: SpaceId, side: Side, amount: Cents, target: Target) {
    function Signed(): Cents {
      if side == Debit then amount else -amount
    }

    function Reversed(newId: EntryId): Entry {
      Entry(newId, space, side.Opposite(), amount, target)
    }
  }

  datatype Kind = Opening | Income | Expense | Transfer | Reversal

  datatype State = Draft | Posting | Posted | Reconciled | Voided

  // The moves the lifecycle trigger allows on posted history.
  predicate Moves(before: State, after: State) {
    || after == before
    || (before == Posted && (after == Reconciled || after == Voided))
    || (before == Reconciled && after == Voided)
  }

  datatype Transaction = Transaction(
    space: SpaceId,
    kind: Kind,
    state: State,
    economicDate: Date,
    cashDate: Option<Date>,
    description: string,
    entries: seq<Entry>)
  {
    // The states whose entries balances, reports and reconciliations see.
    predicate Visible() {
      state == Posted || state == Reconciled || state == Voided
    }

    function EligibilityDate(): Date {
      if kind == Opening || cashDate.None? then economicDate else cashDate.value
    }
  }

  function SignedTotal(entries: seq<Entry>): Cents {
    if entries == [] then 0 else entries[0].Signed() + SignedTotal(entries[1..])
  }

  // Posting recipes

  function OpeningEntries(space: SpaceId, account: AccountId, kind: AccountKind, equity: AccountId, amount: Cents,
                          id0: EntryId, id1: EntryId): Result<seq<Entry>>
  {
    if amount <= 0 then Err(InvalidAmount)
    else match kind
      case Asset => Ok([Entry(id0, space, Debit, amount, ToAccount(account)),
                        Entry(id1, space, Credit, amount, ToAccount(equity))])
      case Liability => Ok([Entry(id0, space, Debit, amount, ToAccount(equity)),
                            Entry(id1, space, Credit, amount, ToAccount(account))])
      case Equity => Err(InvalidLifecycle)
  }

  function IncomeEntries(space: SpaceId, account: AccountId, category: CategoryId, amount: Cents,
                         id0: EntryId, id1: EntryId): Result<seq<Entry>>
  {
    if amount <= 0 then Err(InvalidAmount)
    else Ok([Entry(id0, space, Debit, amount, ToAccount(account)),
             Entry(id1, space, Credit, amount, ToCategory(category))])
  }

  function ExpenseEntries(space: SpaceId, account: AccountId, category: CategoryId, amount: Cents,
                          id0: EntryId, id1: EntryId): Result<seq<Entry>>
  {
    if amount <= 0 then Err(InvalidAmount)
    else Ok([Entry(id0, space, Debit, amount, ToCategory(category)),
             Entry(id1, space, Credit, amount, ToAccount(account))])
  }

  function TransferEntries(space: SpaceId, source: AccountId, destination: AccountId, amount: Cents,
                           id0: EntryId, id1: EntryId): Result<seq<Entry>>
  {
    if amount <= 0 then Err(InvalidAmount)
    else if source == destination then Err(InvalidLifecycle)
    else Ok([Entry(id0, space, Debit, amount, ToAccount(destination)),
             Entry(id1, space, Credit, amount, ToAccount(source))])
  }

  function ReversalEntries(prefix: nat, original: seq<Entry>): Result<seq<Entry>> {
    if |original| < 2 then Err(InvalidLifecycle)
    else Ok(seq(|original|, i requires 0 <= i < |original| => original[i].Reversed(EntryId(prefix, i + 1))))
  }

  /** The constructor of posted transactions: balanced, same-space entries and a fitting cash date. */
  function PostedTransaction(space: SpaceId, kind: Kind, economicDate: Date, cashDate: Option<Date>,
                             description: string, entries: seq<Entry>): Result<Transaction>
  {
    if |entries| < 2 || SignedTotal(entries) != 0 then Err(Unbalanced)
    else if exists e :: e in entries && e.space != space then Err(Ownership)
    else if kind == Opening && cashDate.Some? then Err(InvalidLifecycle)
    else if kind != Opening && kind != Reversal && cashDate.None? then Err(InvalidLifecycle)
    else Ok(Transaction(space, kind, Posted, economicDate, cashDate, description, entries))
  }

  // Entries are read back ordered by id.

  function InsertById(entries: seq<Entry>, e: Entry): (r: seq<Entry>)
    ensures |r| == |entries| + 1
  {
    if entries == [] then [e]
    else if e.id.Before(entries[0].id) then [e] + entries
    else [entries[0]] + InsertById(entries[1..], e)
  }

  function StoredOrder(entries: seq<Entry>): (r: seq<Entry>)
    ensures |r| == |entries|
  {
    if entries == [] then []
    else InsertById(StoredOrder(entries[..|entries| - 1]), entries[|entries| - 1])
  }

  lemma StoredPair(a: Entry, b: Entry)
    ensures StoredOrder([a, b]) == if b.id.Before(a.id) then [b, a] else [a, b]
  {
    assert [a, b][..1] == [a];
    assert StoredOrder([a]) == InsertById(StoredOrder([a][..0]), a) == [a];
    assert StoredOrder([a, b]) == InsertById(StoredOrder([a]), b);
  }

  // State projection

  function ReconcilableEntryIds(tx: Transaction, accounts: map<AccountId, Account>): set<EntryId> {
    set i | 0 <= i < |tx.entries| && Reconcilable(tx, tx.entries[i], accounts) :: tx.entries[i].id
  }

  predicate Reconcilable(tx: Transaction, e: Entry, accounts: map<AccountId, Account>) {
    && e.target.ToAccount?
    && e.target.account in accounts
    && accounts[e.target.account].space == tx.space
    && accounts[e.target.account].Eligible()
  }

  function ProjectState(tx: Transaction, accounts: map<AccountId, Account>, completed: set<EntryId>): State {
    if tx.state == Draft || tx.state == Voided then tx.state
    else
      var ids := ReconcilableEntryIds(tx, accounts);
      if ids == {} then tx.state
      else if ids <= completed then Reconciled
      else Posted
  }
}
