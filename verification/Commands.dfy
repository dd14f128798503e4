/**
 What each command does to the database when nothing fails under it: the specification that the
 unit-of-work services are proved against and that the state machine runs.
 */
module Commands {
  import opened Wrappers
  import opened Ledger
  import opened Database

  // Identifiers and clock readings a command draws from outside, and its idempotency key.
  datatype Supply = Supply(tx: TxId, entry0: nat, entry1: nat, prefix: nat, replacement: TxId, today: Date,
                         description: string)

  datatype Call = Call(key: Key, command: Command, supply: Supply) {
    function Slot(): (SpaceId, Key) {
      (command.space, key)
    }
  }

  // Lookups

  function GetAccount(db: Database, space: SpaceId, id: AccountId): Result<Account> {
    if id in db.accounts && db.accounts[id].space == space then Ok(db.accounts[id]) else Err(NotFound)
  }

  function GetCategory(db: Database, space: SpaceId, id: CategoryId): Result<Category> {
    if id in db.categories && db.categories[id].space == space then Ok(db.categories[id]) else Err(NotFound)
  }

  function GetTransaction(db: Database, space: SpaceId, id: TxId): Result<Transaction> {
    if id in db.transactions && db.transactions[id].space == space then Ok(db.transactions[id]) else Err(NotFound)
  }

  function GetDetails(db: Database, space: SpaceId, id: TxId): Result<DraftDetails> {
    if id in db.details && id in db.transactions && db.transactions[id].space == space then Ok(db.details[id])
    else Err(NotFound)
  }

  function ActiveAccount(db: Database, space: SpaceId, id: AccountId): Result<Account> {
    var account :- GetAccount(db, space, id);
    if account.archived then Err(Archived)
    else if account.kind == Equity then Err(InvalidLifecycle)
    else Ok(account)
  }

  function ActiveCategory(db: Database, space: SpaceId, id: CategoryId): Result<Category> {
    var category :- GetCategory(db, space, id);
    if category.archived then Err(Archived) else Ok(category)
  }

  // Catalog

  const EQUITY_NAME := "Opening equity"

  // The program reports every clash of a catalog row, of its id too, as a duplicate name.

  function PutAccount(db: Database, id: AccountId, account: Account): Result<Database> {
    if AccountNameTaken(db, account.space, account.name, id) then Err(DuplicateName)
    else Ok(db.(accounts := db.accounts[id := account]))
  }

  function PutCategory(db: Database, id: CategoryId, category: Category): Result<Database> {
    if CategoryNameTaken(db, category.space, category.name, id) then Err(DuplicateName)
    else Ok(db.(categories := db.categories[id := category]))
  }

  function AddAccount(db: Database, id: AccountId, account: Account): Result<Database> {
    if id in db.accounts then Err(DuplicateName) else PutAccount(db, id, account)
  }

  function AddCategory(db: Database, id: CategoryId, category: Category): Result<Database> {
    if id in db.categories then Err(DuplicateName) else PutCategory(db, id, category)
  }

  datatype CatalogUse =
    | AccountCreation(n: nat, space: SpaceId, name: string, accountKind: AccountKind, reconcilable: bool)
    | CategoryCreation(category: CategoryId, space: SpaceId, name: string, categoryKind: CategoryKind)
    | AccountRenaming(space: SpaceId, account: AccountId, name: string)
    | CategoryRenaming(space: SpaceId, category: CategoryId, name: string)
    | AccountArchiving(space: SpaceId, account: AccountId, archived: bool)
    | CategoryArchiving(space: SpaceId, category: CategoryId, archived: bool)
    | StarterCategories(space: SpaceId, income: CategoryId, expense: CategoryId)

  function CreateAccount(db: Database, n: nat, space: SpaceId, name: string, kind: AccountKind, reconcilable: bool):
    Result<Database>
  {
    if kind == Equity then Err(InvalidLifecycle)
    else
      var validated :- ValidatedName(name);
      AddAccount(db, Opaque(n), Account(space, validated, kind, false, reconcilable))
  }

  function CreateCategory(db: Database, id: CategoryId, space: SpaceId, name: string,
                          kind: CategoryKind): Result<Database> {
    var validated :- ValidatedName(name);
    AddCategory(db, id, Category(space, validated, kind, false))
  }

  function RenameAccount(db: Database, space: SpaceId, id: AccountId, name: string): Result<Database> {
    var account :- GetAccount(db, space, id);
    var validated :- ValidatedName(name);
    PutAccount(db, id, account.(name := validated))
  }

  function RenameCategory(db: Database, space: SpaceId, id: CategoryId, name: string): Result<Database> {
    var category :- GetCategory(db, space, id);
    var validated :- ValidatedName(name);
    PutCategory(db, id, category.(name := validated))
  }

  function SetAccountArchived(db: Database, space: SpaceId, id: AccountId, archived: bool): Result<Database> {
    var account :- GetAccount(db, space, id);
    PutAccount(db, id, account.(archived := archived))
  }

  function SetCategoryArchived(db: Database, space: SpaceId, id: CategoryId, archived: bool): Result<Database> {
    var category :- GetCategory(db, space, id);
    PutCategory(db, id, category.(archived := archived))
  }

  predicate CategoryNamed(db: Database, space: SpaceId, name: string, id: CategoryId) {
    id in db.categories && db.categories[id].space == space && db.categories[id].name == name
  }

  predicate HasCategoryNamed(db: Database, space: SpaceId, name: string) {
    exists c :: c in db.categories && CategoryNamed(db, space, name, c)
  }

  // Any category of the name will do, whatever its kind.
  function EnsureCategory(db: Database, space: SpaceId, name: string, kind: CategoryKind,
                          id: CategoryId): Result<Database> {
    if HasCategoryNamed(db, space, name) then Ok(db)
    else AddCategory(db, id, Category(space, name, kind, false))
  }

  datatype Starter = Starter(name: string, kind: CategoryKind, id: CategoryId)

  function Starters(income: CategoryId, expense: CategoryId): seq<Starter> {
    [Starter("Other income", IncomeCategory, income), Starter("Other expense", ExpenseCategory, expense)]
  }

  function EnsureStarters(db: Database, space: SpaceId, starters: seq<Starter>): Result<Database> {
    if starters == [] then Ok(db)
    else
      var n := |starters| - 1;
      var before :- EnsureStarters(db, space, starters[..n]);
      EnsureCategory(before, space, starters[n].name, starters[n].kind, starters[n].id)
  }

  function UseCatalog(db: Database, use: CatalogUse): Result<Database> {
    match use
    case AccountCreation(n, space, name, kind, reconcilable) => CreateAccount(db, n, space, name, kind, reconcilable)
    case CategoryCreation(id, space, name, kind) => CreateCategory(db, id, space, name, kind)
    case AccountRenaming(space, id, name) => RenameAccount(db, space, id, name)
    case CategoryRenaming(space, id, name) => RenameCategory(db, space, id, name)
    case AccountArchiving(space, id, archived) => SetAccountArchived(db, space, id, archived)
    case CategoryArchiving(space, id, archived) => SetCategoryArchived(db, space, id, archived)
    case StarterCategories(space, income, expense) => EnsureStarters(db, space, Starters(income, expense))
  }

  function EnsureEquity(db: Database, space: SpaceId): Result<Database> {
    if GetAccount(db, space, OpeningEquity(space)).Ok? then Ok(db)
    else AddAccount(db, OpeningEquity(space), Account(space, EQUITY_NAME, Equity, false, false))
  }

  // Drafts

  function ValidateSelections(db: Database, r: DraftRequest): Result<()> {
    if r.account.None? then Err(InvalidLifecycle)
    else
      var _ :- ActiveAccount(db, r.space, r.account.value);
      var _ :- ValidateCategory(db, r);
      if r.kind != Transfer then Ok(())
      else if r.destination.None? then Err(InvalidLifecycle)
      else
        var _ :- ActiveAccount(db, r.space, r.destination.value);
        Ok(())
  }

  function ValidateCategory(db: Database, r: DraftRequest): Result<()> {
    if r.kind != Income && r.kind != Expense then Ok(())
    else if r.category.None? then Err(InvalidLifecycle)
    else
      var _ :- ActiveCategory(db, r.space, r.category.value);
      Ok(())
  }

  function DraftRow(r: DraftRequest): Transaction {
    Transaction(r.space, r.kind, Draft, r.economicDate, None, r.description, [])
  }

  function DetailsOf(r: DraftRequest, replacementOf: Option<TxId>): DraftDetails {
    DraftDetails(r.amount, r.account, r.category, r.destination, r.cashDate, replacementOf)
  }

  function AddDraft(db: Database, id: TxId, r: DraftRequest, replacementOf: Option<TxId>): Result<Database> {
    if id in db.transactions || id in db.details then Err(IntegrityViolation)
    else Ok(db.(transactions := db.transactions[id := DraftRow(r)],
                details := db.details[id := DetailsOf(r, replacementOf)]))
  }

  function CreateDraft(db: Database, id: TxId, r: DraftRequest): Result<Database> {
    if r.amount <= 0 then Err(InvalidLifecycle)
    else
      var _ :- ValidateSelections(db, r);
      AddDraft(db, id, r, None)
  }

  function UpdateDraft(db: Database, id: TxId, r: DraftRequest): Result<Database> {
    if r.amount <= 0 then Err(InvalidLifecycle)
    else
      var current :- GetTransaction(db, r.space, id);
      var _ :- ValidateSelections(db, r);
      if current.state != Draft then Err(Immutable)
      else
        var _ :- GetDetails(db, r.space, id);
        Ok(db.(transactions := db.transactions[id := DraftRow(r)],
               details := db.details[id := DetailsOf(r, None)]))
  }

  function DiscardDraft(db: Database, space: SpaceId, id: TxId): Result<Database> {
    var current :- GetTransaction(db, space, id);
    if current.state != Draft then Err(Immutable)
    else Ok(db.(transactions := db.transactions - {id}, details := db.details - {id}))
  }

  // Posting

  ghost predicate EntriesClash(db: Database, entries: seq<Entry>) {
    || (exists i :: 0 <= i < |entries| && HasEntry(db, entries[i].id))
    || (exists i, j :: 0 <= i < j < |entries| && entries[i].id == entries[j].id)
  }

  ghost function AddPosted(db: Database, id: TxId, x: Transaction): Result<Database> {
    if id in db.transactions || EntriesClash(db, x.entries) then Err(IntegrityViolation)
    else Ok(db.(transactions := db.transactions[id := x.(entries := StoredOrder(x.entries))]))
  }

  ghost function PostExistingDraft(db: Database, id: TxId, x: Transaction): Result<Database> {
    var current :- GetTransaction(db, x.space, id);
    if current.state != Draft then Err(Immutable)
    else if EntriesClash(db, x.entries) then Err(IntegrityViolation)
    else
      var _ :- GetDetails(db, x.space, id);
      Ok(db.(transactions := db.transactions[id := x.(entries := StoredOrder(x.entries))],
             details := db.details - {id}))
  }

  // A posted transaction ready to be written, over a database that has the equity account it needs.
  datatype Build = Build(db: Database, tx: Transaction)

  function BuildOpening(db: Database, space: SpaceId, id: AccountId, amount: Cents, economicDate: Date,
                        description: string, supply: Supply): Result<Build>
  {
    var account :- ActiveAccount(db, space, id);
    var db' :- EnsureEquity(db, space);
    var entries :- OpeningEntries(space, id, account.kind, OpeningEquity(space), amount,
                                  EntryId(supply.entry0, 0), EntryId(supply.entry1, 0));
    var tx :- PostedTransaction(space, Opening, economicDate, None, description, entries);
    Ok(Build(db', tx))
  }

  function DefaultDate(date: Option<Date>, fallback: Date): Date {
    if date.Some? then date.value else fallback
  }

  function BuildMovement(db: Database, kind: Kind, space: SpaceId, account: AccountId, categoryId: CategoryId,
                         amount: Cents, economicDate: Date, cashDate: Option<Date>, description: string,
                         supply: Supply): Result<Build>
    requires kind == Income || kind == Expense
  {
    var _ :- ActiveAccount(db, space, account);
    var category :- ActiveCategory(db, space, categoryId);
    if category.kind != (if kind == Income then IncomeCategory else ExpenseCategory) then Err(InvalidLifecycle)
    else
      var entries :- MovementEntries(kind, space, account, categoryId, amount, supply);
      var tx :- PostedTransaction(space, kind, economicDate, Some(DefaultDate(cashDate, economicDate)), description,
                                  entries);
      Ok(Build(db, tx))
  }

  function MovementEntries(kind: Kind, space: SpaceId, account: AccountId, category: CategoryId, amount: Cents,
                           supply: Supply): Result<seq<Entry>>
  {
    var id0, id1 := EntryId(supply.entry0, 0), EntryId(supply.entry1, 0);
    if kind == Income then IncomeEntries(space, account, category, amount, id0, id1)
    else ExpenseEntries(space, account, category, amount, id0, id1)
  }

  function BuildTransfer(db: Database, space: SpaceId, source: AccountId, destination: AccountId, amount: Cents,
                         economicDate: Date, cashDate: Option<Date>, description: string, supply: Supply): Result<Build>
  {
    var _ :- ActiveAccount(db, space, source);
    var _ :- ActiveAccount(db, space, destination);
    var entries :- TransferEntries(space, source, destination, amount, EntryId(supply.entry0, 0),
                                   EntryId(supply.entry1, 0));
    var tx :- PostedTransaction(space, Transfer, economicDate, Some(DefaultDate(cashDate, economicDate)), description,
                                entries);
    Ok(Build(db, tx))
  }

  /** The request a draft row and its details stand for when the draft is posted. */
  function RequestOf(draft: Transaction, details: DraftDetails, cashDate: Option<Date>): DraftRequest {
    DraftRequest(draft.space, draft.kind, draft.economicDate, draft.description, details.amount, details.account,
                 details.category, details.destination, if cashDate.Some? then cashDate else details.cashDate)
  }

  /** What a posting command asks for, whether directly or through the draft it posts. */
  function Asked(db: Database, c: Command): DraftRequest
    requires !c.Reverse?
    requires c.PostDraft? ==> c.draft in db.transactions && c.draft in db.details
  {
    match c
    case CreateOpening(space, account, amount, economicDate, description) =>
      DraftRequest(space, Opening, economicDate, description, amount, Some(account), None, None, None)
    case CreateIncome(space, account, category, amount, economicDate, cashDate, description) =>
      DraftRequest(space, Income, economicDate, description, amount, Some(account), Some(category), None, cashDate)
    case CreateExpense(space, account, category, amount, economicDate, cashDate, description) =>
      DraftRequest(space, Expense, economicDate, description, amount, Some(account), Some(category), None, cashDate)
    case CreateTransfer(space, source, destination, amount, economicDate, cashDate, description) =>
      DraftRequest(space, Transfer, economicDate, description, amount, Some(source), None, Some(destination), cashDate)
    case PostDraft(_, draft, cashDate) => RequestOf(db.transactions[draft], db.details[draft], cashDate)
  }

  // Posting a draft does not compare the category's kind with the operation's.
  function BuildFromDraft(db: Database, r: DraftRequest, supply: Supply): Result<Build> {
    if r.account.None? then Err(InvalidLifecycle)
    else
      var cashDate := Some(DefaultDate(r.cashDate, r.economicDate));
      if r.kind == Opening then
        BuildOpening(db, r.space, r.account.value, r.amount, r.economicDate, r.description, supply)
      else if (r.kind == Income || r.kind == Expense) && r.category.Some? then
        var entries :- MovementEntries(r.kind, r.space, r.account.value, r.category.value, r.amount, supply);
        var tx :- PostedTransaction(r.space, r.kind, r.economicDate, cashDate, r.description, entries);
        Ok(Build(db, tx))
      else if r.kind == Transfer && r.destination.Some? then
        var entries :- TransferEntries(r.space, r.account.value, r.destination.value, r.amount,
                                       EntryId(supply.entry0, 0), EntryId(supply.entry1, 0));
        var tx :- PostedTransaction(r.space, r.kind, r.economicDate, cashDate, r.description, entries);
        Ok(Build(db, tx))
      else Err(InvalidLifecycle)
  }

  function BuildDraft(db: Database, space: SpaceId, id: TxId, cashDate: Option<Date>, supply: Supply): Result<Build> {
    var draft :- GetTransaction(db, space, id);
    var details :- GetDetails(db, space, id);
    var r := RequestOf(draft, details, cashDate);
    var _ :- ValidateSelections(db, r);
    BuildFromDraft(db, r, supply)
  }

  /** The transaction a posting command writes, validated against the catalog. */
  function BuildPosting(db: Database, c: Command, supply: Supply): Result<Build>
    requires !c.Reverse?
  {
    match c
    case CreateOpening(space, account, amount, economicDate, description) =>
      BuildOpening(db, space, account, amount, economicDate, description, supply)
    case CreateIncome(space, account, category, amount, economicDate, cashDate, description) =>
      BuildMovement(db, Income, space, account, category, amount, economicDate, cashDate, description, supply)
    case CreateExpense(space, account, category, amount, economicDate, cashDate, description) =>
      BuildMovement(db, Expense, space, account, category, amount, economicDate, cashDate, description, supply)
    case CreateTransfer(space, source, destination, amount, economicDate, cashDate, description) =>
      BuildTransfer(db, space, source, destination, amount, economicDate, cashDate, description, supply)
    case PostDraft(space, draft, cashDate) =>
      BuildDraft(db, space, draft, cashDate, supply)
  }

  datatype Effect = Effect(db: Database, result: CommandResult)

  ghost function ExecutePosting(db: Database, c: Command, supply: Supply): Result<Effect>
    requires !c.Reverse?
  {
    var build :- BuildPosting(db, c, supply);
    if c.PostDraft? then
      var db' :- PostExistingDraft(build.db, c.draft, build.tx);
      Ok(Effect(db', CommandResult(c.draft, Posted, false, None)))
    else
      var db' :- AddPosted(build.db, supply.tx, build.tx);
      Ok(Effect(db', CommandResult(supply.tx, Posted, false, None)))
  }

  // Reversal

  function MarkVoided(db: Database, space: SpaceId, id: TxId): Result<Database> {
    var current :- GetTransaction(db, space, id);
    if current.state != Posted && current.state != Reconciled then Err(Immutable)
    else Ok(db.(transactions := db.transactions[id := current.(state := Voided)]))
  }

  function AddLink(db: Database, original: TxId, reversal: TxId): Result<Database> {
    if original in db.links || reversal in db.links.Values || original == reversal then Err(IntegrityViolation)
    else Ok(db.(links := db.links[original := reversal]))
  }

  function BuildReversal(original: Transaction, c: Command, supply: Supply): Result<Transaction>
    requires c.Reverse?
  {
    if original.state != Posted && original.state != Reconciled then Err(InvalidLifecycle)
    else
      var cashDate := if original.cashDate.None? then None else Some(DefaultDate(c.cashDate, supply.today));
      var entries :- ReversalEntries(supply.prefix, original.entries);
      PostedTransaction(c.space, Reversal, DefaultDate(c.reversalDate, supply.today), cashDate, supply.description,
                        entries)
  }

  function AddReplacement(db: Database, c: Command, id: TxId): Result<Database>
    requires c.Reverse?
  {
    if c.replacement.None? then Ok(db)
    else if c.replacement.value.space != c.space then Err(InvalidLifecycle)
    else if c.replacement.value.amount <= 0 then Err(InvalidLifecycle)
    else AddDraft(db, id, c.replacement.value, Some(c.original))
  }

  function LinkReversal(db: Database, c: Command, reversal: TxId, replacement: TxId): Result<Database>
    requires c.Reverse?
  {
    var voided :- MarkVoided(db, c.space, c.original);
    var linked :- AddLink(voided, c.original, reversal);
    AddReplacement(linked, c, replacement)
  }

  ghost function ExecuteReversal(db: Database, c: Command, supply: Supply): Result<Effect>
    requires c.Reverse?
  {
    var original :- GetTransaction(db, c.space, c.original);
    var reversal :- BuildReversal(original, c, supply);
    var posted :- AddPosted(db, supply.tx, reversal);
    var linked :- LinkReversal(posted, c, supply.tx, supply.replacement);
    Ok(Effect(linked, CommandResult(supply.tx, Posted, false,
                                 if c.replacement.None? then None else Some(supply.replacement))))
  }

  ghost function Execute(db: Database, c: Command, supply: Supply): Result<Effect> {
    if c.Reverse? then ExecuteReversal(db, c, supply) else ExecutePosting(db, c, supply)
  }

  // Idempotency

  datatype Reservation = Reserved(db: Database) | Replay(result: CommandResult)

  function Reserve(db: Database, call: Call): Result<Reservation> {
    if call.key == "" then Err(InvalidKey)
    else if call.Slot() in db.keys then
      var record := db.keys[call.Slot()];
      if record.command != call.command then Err(KeyConflict)
      else if record.result.None? then Err(KeyInProgress)
      else Ok(Replay(record.result.value.(replayed := true)))
    else Ok(Reserved(db.(keys := db.keys[call.Slot() := IdempotencyRecord(call.command, None)])))
  }

  function CompleteKey(db: Database, call: Call, result: CommandResult): Database {
    db.(keys := db.keys[call.Slot() := IdempotencyRecord(call.command, Some(result))])
  }

  function Record(db: Database, event: AuditEvent): Database {
    db.(audit := db.audit + [event])
  }

  function SuccessEvent(call: Call, result: CommandResult): AuditEvent {
    AuditEvent(call.command.Action(), true, call.command.space, Some(result.tx), call.key)
  }

  function FailureEvent(call: Call): AuditEvent {
    AuditEvent(call.command.Action(), false, call.command.space, None, call.key)
  }

  /** One attempt at a command inside its unit of work. */
  ghost function Attempt(db: Database, call: Call): Result<Effect> {
    var reservation :- Reserve(db, call);
    match reservation
    case Replay(result) => Ok(Effect(db, result))
    case Reserved(reserved) =>
      var effect :- Execute(reserved, call.command, call.supply);
      Ok(Effect(Record(CompleteKey(effect.db, call, effect.result), SuccessEvent(call, effect.result)), effect.result))
  }

  /**
   One delivery of a command. An exception, raised by the attempt itself or injected anywhere in it,
   drops the working copy and appends one failure event, unless that append is lost too.
   */
  ghost function Deliver(db: Database, call: Call, injected: bool, lost: bool): Database {
    if injected || Attempt(db, call).Err? then
      if lost then db else Record(db, FailureEvent(call))
    else Attempt(db, call).value.db
  }
}
