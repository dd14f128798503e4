/** Exactly which postings, reversals and drafts are accepted, in terms of the ledger before the call. */
module Acceptance {
  import opened Wrappers
  import opened Ledger
  import opened Database
  import opened Commands
  import opened Invariants
  import opened ReversalProofs
  import opened Machine
  import opened Reachability
  import opened Idempotency
  import opened CatalogNames
  import opened Effects

  // An asset or liability account of the space that is not archived.
  predicate Household(db: Database, space: SpaceId, account: Option<AccountId>) {
    && account.Some? && account.value in db.accounts
    && db.accounts[account.value].space == space
    && !db.accounts[account.value].archived
    && (db.accounts[account.value].kind == Asset || db.accounts[account.value].kind == Liability)
  }

  predicate OpenCategory(db: Database, space: SpaceId, category: Option<CategoryId>) {
    && category.Some? && category.value in db.categories
    && db.categories[category.value].space == space
    && !db.categories[category.value].archived
  }

  // What a posting may ask for; a direct command must also choose a category of its own kind.
  predicate Acceptable(db: Database, r: DraftRequest, direct: bool) {
    && r.amount > 0
    && Household(db, r.space, r.account)
    && match r.kind
       case Opening => EquityFree(db, r.space)
       case Income =>
         && OpenCategory(db, r.space, r.category)
         && (direct ==> db.categories[r.category.value].kind == IncomeCategory)
       case Expense =>
         && OpenCategory(db, r.space, r.category)
         && (direct ==> db.categories[r.category.value].kind == ExpenseCategory)
       case Transfer => Household(db, r.space, r.destination) && r.account != r.destination
       case Reversal => false
  }

  predicate DraftOf(db: Database, c: Command) {
    c.PostDraft? ==> c.draft in db.transactions && c.draft in db.details && db.transactions[c.draft].space == c.space
  }

  lemma HouseholdIff(db: Database, space: SpaceId, account: AccountId)
    ensures ActiveAccount(db, space, account).Ok? <==> Household(db, space, Some(account))
  {
    if account in db.accounts {
      match db.accounts[account].kind {
        case Asset =>
        case Liability =>
        case Equity =>
      }
    }
  }

  lemma CategoryIff(db: Database, space: SpaceId, category: CategoryId)
    ensures ActiveCategory(db, space, category).Ok? <==> OpenCategory(db, space, Some(category))
    ensures ActiveCategory(db, space, category).Ok? ==>
      ActiveCategory(db, space, category).value == db.categories[category]
  {
  }

  lemma SelectionsIff(db: Database, r: DraftRequest)
    ensures ValidateSelections(db, r).Ok?
       <==> Household(db, r.space, r.account)
            && (r.kind == Income || r.kind == Expense ==> OpenCategory(db, r.space, r.category))
            && (r.kind == Transfer ==> Household(db, r.space, r.destination))
  {
    if r.account.Some? { HouseholdIff(db, r.space, r.account.value); }
    if r.category.Some? { CategoryIff(db, r.space, r.category.value); }
    if r.destination.Some? { HouseholdIff(db, r.space, r.destination.value); }
    hide ActiveAccount, ActiveCategory, Household, OpenCategory;
  }

  lemma MovementPosts(r: DraftRequest, cashDate: Date, supply: Supply)
    requires (r.kind == Income || r.kind == Expense) && r.account.Some? && r.category.Some?
    ensures var entries := MovementEntries(r.kind, r.space, r.account.value, r.category.value, r.amount, supply);
            && (entries.Ok? <==> r.amount > 0)
            && (entries.Ok? ==>
                  PostedTransaction(r.space, r.kind, r.economicDate, Some(cashDate), r.description, entries.value).Ok?)
  {
    var entries := MovementEntries(r.kind, r.space, r.account.value, r.category.value, r.amount, supply);
    if entries.Ok? {
      Balanced(entries.value);
    }
  }

  lemma TransferPosts(r: DraftRequest, cashDate: Date, supply: Supply)
    requires r.kind == Transfer && r.account.Some? && r.destination.Some?
    ensures var entries := TransferEntries(r.space, r.account.value, r.destination.value, r.amount,
                                           EntryId(supply.entry0, 0), EntryId(supply.entry1, 0));
            && (entries.Ok? <==> r.amount > 0 && r.account != r.destination)
            && (entries.Ok? ==>
                  PostedTransaction(r.space, Transfer, r.economicDate, Some(cashDate), r.description,
                                    entries.value).Ok?)
  {
    var entries := TransferEntries(r.space, r.account.value, r.destination.value, r.amount,
                                   EntryId(supply.entry0, 0), EntryId(supply.entry1, 0));
    if entries.Ok? {
      Balanced(entries.value);
    }
  }

  lemma Balanced(entries: seq<Entry>)
    requires |entries| == 2
    ensures SignedTotal(entries) == entries[0].Signed() + entries[1].Signed()
  {
    assert entries[1..][1..] == [];
    assert SignedTotal(entries[1..]) == entries[1].Signed() + SignedTotal(entries[1..][1..]);
  }

  lemma OpeningIff(db: Database, r: DraftRequest, supply: Supply)
    requires CatalogInv(db) && r.kind == Opening && r.account.Some?
    ensures BuildOpening(db, r.space, r.account.value, r.amount, r.economicDate, r.description, supply).Ok?
       <==> Acceptable(db, r, true)
  {
    var c := CreateOpening(r.space, r.account.value, r.amount, r.economicDate, r.description);
    CatalogNames.OpeningBuilds(db, c, supply);
    HouseholdIff(db, r.space, r.account.value);
    hide BuildOpening, EquityFree, Household, ActiveAccount;
  }

  lemma FromDraftIff(db: Database, r: DraftRequest, supply: Supply)
    requires CatalogInv(db) && ValidateSelections(db, r).Ok?
    ensures BuildFromDraft(db, r, supply).Ok? <==> Acceptable(db, r, false)
  {
    SelectionsIff(db, r);
    hide ValidateSelections, Household, OpenCategory, EquityFree, BuildOpening, MovementEntries, TransferEntries,
        PostedTransaction;
    assert r.account.Some? by { HouseholdSome(db, r.space, r.account); }
    var cashDate := DefaultDate(r.cashDate, r.economicDate);
    match r.kind
    case Opening => OpeningIff(db, r, supply);
    case Income => CategorySome(db, r.space, r.category); MovementPosts(r, cashDate, supply);
    case Expense => CategorySome(db, r.space, r.category); MovementPosts(r, cashDate, supply);
    case Transfer => HouseholdSome(db, r.space, r.destination); TransferPosts(r, cashDate, supply);
    case Reversal =>
  }

  lemma HouseholdSome(db: Database, space: SpaceId, account: Option<AccountId>)
    requires Household(db, space, account)
    ensures account.Some?
  {
  }

  lemma CategorySome(db: Database, space: SpaceId, category: Option<CategoryId>)
    requires OpenCategory(db, space, category)
    ensures category.Some?
  {
  }

  /** A posting can be built exactly when what it asks for is acceptable. */
  lemma BuildsIff(db: Database, c: Command, supply: Supply)
    requires CatalogInv(db) && !c.Reverse?
    ensures BuildPosting(db, c, supply).Ok? <==> DraftOf(db, c) && Acceptable(db, Asked(db, c), !c.PostDraft?)
  {
    match c
    case CreateOpening(space, account, amount, economicDate, description) =>
      OpeningIff(db, Asked(db, c), supply);
    case CreateIncome(space, account, category, amount, economicDate, cashDate, description) =>
      HouseholdIff(db, space, account);
      CategoryIff(db, space, category);
      MovementPosts(Asked(db, c), DefaultDate(cashDate, economicDate), supply);
      hide ActiveAccount, ActiveCategory, Household, MovementEntries, PostedTransaction;
    case CreateExpense(space, account, category, amount, economicDate, cashDate, description) =>
      HouseholdIff(db, space, account);
      CategoryIff(db, space, category);
      MovementPosts(Asked(db, c), DefaultDate(cashDate, economicDate), supply);
      hide ActiveAccount, ActiveCategory, Household, MovementEntries, PostedTransaction;
    case CreateTransfer(space, source, destination, amount, economicDate, cashDate, description) =>
      HouseholdIff(db, space, source);
      HouseholdIff(db, space, destination);
      TransferPosts(Asked(db, c), DefaultDate(cashDate, economicDate), supply);
      hide ActiveAccount, Household, TransferEntries, PostedTransaction;
    case PostDraft(space, draft, cashDate) =>
      if DraftOf(db, c) {
        var r := Asked(db, c);
        SelectionsIff(db, r);
        if ValidateSelections(db, r).Ok? {
          FromDraftIff(db, r, supply);
        }
        hide ValidateSelections, BuildFromDraft, Household, OpenCategory, EquityFree;
      }
  }

  // Identifiers

  ghost predicate NewEntries(db: Database, first: EntryId, second: EntryId) {
    first != second && !HasEntry(db, first) && !HasEntry(db, second)
  }

  lemma PairClashes(db: Database, entries: seq<Entry>)
    requires |entries| == 2
    ensures EntriesClash(db, entries) <==> !NewEntries(db, entries[0].id, entries[1].id)
  {
  }

  lemma BuiltIds(db: Database, c: Command, supply: Supply)
    requires CatalogInv(db) && !c.Reverse? && BuildPosting(db, c, supply).Ok?
    ensures var b := BuildPosting(db, c, supply).value;
            && b.db.transactions == db.transactions && b.db.details == db.details
            && |b.tx.entries| == 2 && b.tx.space == c.space
            && b.tx.entries[0].id == EntryId(supply.entry0, 0) && b.tx.entries[1].id == EntryId(supply.entry1, 0)
  {
    BuildFulfils(db, c, supply);
    hide ValidateSelections, EnsureEquity, CatalogInv, ActiveAccount, ActiveCategory;
  }

  lemma SameEntryIds(db: Database, db': Database, first: EntryId, second: EntryId)
    requires db'.transactions == db.transactions
    ensures NewEntries(db', first, second) == NewEntries(db, first, second)
  {
    assert forall t, i: nat, id :: EntryAt(db', t, i, id) == EntryAt(db, t, i, id);
  }

  lemma ExecutesIff(db: Database, c: Command, supply: Supply)
    requires CatalogInv(db) && RowsInv(db) && !c.Reverse?
    ensures ExecutePosting(db, c, supply).Ok?
       <==> DraftOf(db, c) && Acceptable(db, Asked(db, c), !c.PostDraft?)
            && NewEntries(db, EntryId(supply.entry0, 0), EntryId(supply.entry1, 0))
            && (c.PostDraft? || supply.tx !in db.transactions)
  {
    BuildsIff(db, c, supply);
    hide BuildPosting, Acceptable, EntriesClash, StoredOrder, NewEntries, Asked, CatalogInv;
    if BuildPosting(db, c, supply).Ok? {
      var b := BuildPosting(db, c, supply).value;
      BuiltIds(db, c, supply);
      PairClashes(b.db, b.tx.entries);
      SameEntryIds(db, b.db, EntryId(supply.entry0, 0), EntryId(supply.entry1, 0));
    }
  }

  lemma SameAcceptable(db: Database, db': Database, r: DraftRequest, direct: bool)
    requires db' == db.(keys := db'.keys)
    ensures Acceptable(db', r, direct) == Acceptable(db, r, direct)
  {
    assert HasAccountNamed(db', r.space, EQUITY_NAME) == HasAccountNamed(db, r.space, EQUITY_NAME);
  }

  lemma FirstAttempt(db: Database, call: Call)
    requires call.Slot() !in db.keys
    ensures Attempt(db, call).Ok? <==>
              call.key != "" && Execute(db.(keys := db.keys[call.Slot() := IdempotencyRecord(call.command, None)]),
                                        call.command, call.supply).Ok?
  {
    hide Execute;
  }

  /**
   In every reachable ledger, the first delivery of a posting command succeeds if and only if it has a key, its
   identifiers are new, its amount is positive, and the accounts and the category it names are open, of its space and
   different; a direct command's category must be of its kind, a draft must be there, and an opening needs its equity
   account.
   */
  lemma PostingSucceedsIff(steps: seq<Step>, call: Call)
    requires !call.command.Reverse? && call.Slot() !in Run(EMPTY, steps).keys
    ensures var (db, c, supply) := (Run(EMPTY, steps), call.command, call.supply);
            Attempt(db, call).Ok?
            <==> call.key != ""
                 && DraftOf(db, c) && Acceptable(db, Asked(db, c), !c.PostDraft?)
                 && NewEntries(db, EntryId(supply.entry0, 0), EntryId(supply.entry1, 0))
                 && (c.PostDraft? || supply.tx !in db.transactions)
  {
    hide Run, Inv, Execute, ExecutePosting, Acceptable, NewEntries, Asked, Attempt;
    var db, c := Run(EMPTY, steps), call.command;
    var reserved := db.(keys := db.keys[call.Slot() := IdempotencyRecord(call.command, None)]);
    Reachable(steps);
    LedgerOf(db);
    SameLedger(db, reserved);
    PartsOf(reserved);
    hide LedgerInv, CatalogInv, RowsInv, EntryIdsInv, LinksInv, MembershipsInv, StatesInv;
    FirstAttempt(db, call);
    ExecutesIff(reserved, c, call.supply);
    ExecuteIsPosting(reserved, c, call.supply);
    SameEntryIds(db, reserved, EntryId(call.supply.entry0, 0), EntryId(call.supply.entry1, 0));
    if DraftOf(db, c) {
      assert Asked(reserved, c) == Asked(db, c) by { SameAsk(db, reserved, c); }
      SameAcceptable(db, reserved, Asked(db, c), !c.PostDraft?);
    }
  }

  lemma SameAsk(db: Database, db': Database, c: Command)
    requires !c.Reverse? && DraftOf(db, c) && db' == db.(keys := db'.keys)
    ensures Asked(db', c) == Asked(db, c)
  {
  }

  lemma ExecuteIsPosting(db: Database, c: Command, supply: Supply)
    requires !c.Reverse?
    ensures Execute(db, c, supply) == ExecutePosting(db, c, supply)
  {
  }

  // Refusals

  predicate AccountFault(db: Database, space: SpaceId, account: AccountId, error: Error) {
    var ours := account in db.accounts && db.accounts[account].space == space;
    && (error == NotFound <==> !ours)
    && (error == Archived <==> ours && db.accounts[account].archived)
    && (error == InvalidLifecycle <==> ours && !db.accounts[account].archived && db.accounts[account].kind == Equity)
  }

  predicate CategoryFault(db: Database, space: SpaceId, category: CategoryId, error: Error) {
    var ours := category in db.categories && db.categories[category].space == space;
    && (error == NotFound <==> !ours)
    && (error == Archived <==> ours && db.categories[category].archived)
  }

  /** A direct command on an account or a category that is not open is refused for what is wrong with it. */
  lemma ClosedIsRefused(db: Database, c: Command, supply: Supply)
    requires !c.Reverse? && !c.PostDraft?
    ensures var (account, outcome) := (Asked(db, c).account, BuildPosting(db, c, supply));
            && (!Household(db, c.space, account) ==>
                  outcome.Err? && AccountFault(db, c.space, account.value, outcome.error))
            && (Household(db, c.space, account) && c.CreateTransfer? && !Household(db, c.space, Some(c.destination)) ==>
                  outcome.Err? && AccountFault(db, c.space, c.destination, outcome.error))
            && (Household(db, c.space, account) && (c.CreateIncome? || c.CreateExpense?)
                && !OpenCategory(db, c.space, Some(c.category)) ==>
                  outcome.Err? && CategoryFault(db, c.space, c.category, outcome.error))
  {
    hide MovementEntries, TransferEntries, OpeningEntries, PostedTransaction, EnsureEquity;
  }

  // The draft a command posts or the transaction it reverses is there.
  predicate SubjectOf(db: Database, c: Command) {
    && DraftOf(db, c)
    && (c.Reverse? ==> c.original in db.transactions && db.transactions[c.original].space == c.space)
  }

  /** What a command is refused for before anything it asks for is looked at. */
  lemma AttemptIsRefused(db: Database, call: Call)
    ensures var (c, first) := (call.command, call.key != "" && call.Slot() !in db.keys);
            && (call.key == "" ==> Attempt(db, call) == Err(InvalidKey))
            && (call.key != "" && !first && db.keys[call.Slot()].command != c ==> Attempt(db, call) == Err(KeyConflict))
            && (first && !SubjectOf(db, c) ==> Attempt(db, call) == Err(NotFound))
            && (first && SubjectOf(db, c) && c.Reverse? && !Reversible(db, c) ==>
                  Attempt(db, call) == Err(InvalidLifecycle))
  {
    hide ValidateSelections, BuildFromDraft, BuildOpening, BuildMovement, BuildTransfer, AddPosted, LinkReversal,
        PostExistingDraft, ReversalEntries, PostedTransaction;
  }

  // Drafts

  /** A draft is accepted exactly when its amount is positive, what it names is open and its id is new. */
  lemma DraftIsAcceptedIff(db: Database, id: TxId, r: DraftRequest)
    ensures CreateDraft(db, id, r).Ok?
       <==> r.amount > 0
            && Household(db, r.space, r.account)
            && (r.kind == Income || r.kind == Expense ==> OpenCategory(db, r.space, r.category))
            && (r.kind == Transfer ==> Household(db, r.space, r.destination))
            && id !in db.transactions && id !in db.details
  {
    SelectionsIff(db, r);
    hide ValidateSelections, Household, OpenCategory;
  }

  // Reversals

  predicate Reversible(db: Database, c: Command)
    requires c.Reverse?
  {
    && c.original in db.transactions && db.transactions[c.original].space == c.space
    && (db.transactions[c.original].state == Posted || db.transactions[c.original].state == Reconciled)
  }

  predicate ReplacementOk(db: Database, c: Command, supply: Supply)
    requires c.Reverse?
  {
    c.replacement.Some? ==>
      && c.replacement.value.space == c.space && c.replacement.value.amount > 0
      && supply.replacement !in db.transactions && supply.replacement != supply.tx
  }

  lemma ReversalBuildsIff(db: Database, c: Command, supply: Supply)
    requires c.Reverse? && c.original in db.transactions && RowOk(db, db.transactions[c.original])
    requires db.transactions[c.original].space == c.space
    ensures BuildReversal(db.transactions[c.original], c, supply).Ok? <==> Reversible(db, c)
    ensures Reversible(db, c) ==>
              var entries := BuildReversal(db.transactions[c.original], c, supply).value.entries;
              |entries| == 2 && entries[0].id == EntryId(supply.prefix, 1) && entries[1].id == EntryId(supply.prefix, 2)
  {
    var o := db.transactions[c.original];
    if Reversible(db, c) {
      var entries := ReversalEntries(supply.prefix, o.entries).value;
      Balanced(entries);
      assert forall e :: e in entries ==> e.space == c.space;
    }
  }

  lemma ReversesIff(db: Database, c: Command, supply: Supply)
    requires RowsInv(db) && LinksInv(db) && c.Reverse?
    ensures ExecuteReversal(db, c, supply).Ok?
       <==> Reversible(db, c) && supply.tx !in db.transactions && ReplacementOk(db, c, supply)
            && NewEntries(db, EntryId(supply.prefix, 1), EntryId(supply.prefix, 2))
  {
    hide BuildReversal, EntriesClash, StoredOrder, NewEntries, LinksInv, RowsInv;
    if c.original in db.transactions && db.transactions[c.original].space == c.space {
      RowAt(db, c.original);
      hide RowOk, Shape;
      ReversalBuildsIff(db, c, supply);
      if Reversible(db, c) {
        var x := BuildReversal(db.transactions[c.original], c, supply).value;
        PairClashes(db, x.entries);
        if AddPosted(db, supply.tx, x).Ok? {
          LinksIff(db, AddPosted(db, supply.tx, x).value, c, supply);
        }
      }
    }
  }

  lemma RowAt(db: Database, t: TxId)
    requires RowsInv(db) && t in db.transactions
    ensures RowOk(db, db.transactions[t])
  {
  }

  // In a consistent ledger neither the original nor the new reversal has a link yet.
  lemma LinksIff(db: Database, posted: Database, c: Command, supply: Supply)
    requires RowsInv(db) && LinksInv(db) && c.Reverse? && Reversible(db, c) && supply.tx !in db.transactions
    requires supply.tx in posted.transactions
    requires posted == db.(transactions := db.transactions[supply.tx := posted.transactions[supply.tx]])
    ensures LinkReversal(posted, c, supply.tx, supply.replacement).Ok? <==> ReplacementOk(db, c, supply)
  {
    Unlinked(db, c.original, supply.tx);
    DetailsAreDrafts(db);
    hide LinksInv, RowsInv;
  }

  lemma Unlinked(db: Database, o: TxId, r: TxId)
    requires LinksInv(db) && o in db.transactions && db.transactions[o].state != Voided && r !in db.transactions
    ensures o !in db.links && r !in db.links.Values && o != r
  {
    hide Acyclic, Mirrors;
    assert forall p :: p in db.links ==> LinkOk(db, p, db.links[p]);
  }

  lemma DetailsAreDrafts(db: Database)
    requires RowsInv(db)
    ensures forall t :: t in db.details ==> t in db.transactions
  {
  }

  /**
   In every reachable ledger, the first delivery of a reversal succeeds if and only if it has a key, its original is a
   POSTED or RECONCILED transaction of the space, the identifiers are new, and the replacement, if any, is of the same
   space with a positive amount. A reversal can itself be reversed.
   */
  lemma ReversalSucceedsIff(steps: seq<Step>, call: Call)
    requires call.command.Reverse? && call.Slot() !in Run(EMPTY, steps).keys
    ensures var (db, c, supply) := (Run(EMPTY, steps), call.command, call.supply);
            Attempt(db, call).Ok?
            <==> call.key != ""
                 && Reversible(db, c) && supply.tx !in db.transactions && ReplacementOk(db, c, supply)
                 && NewEntries(db, EntryId(supply.prefix, 1), EntryId(supply.prefix, 2))
  {
    hide Run, Inv, ExecuteReversal, NewEntries, Attempt;
    var db, c := Run(EMPTY, steps), call.command;
    var reserved := db.(keys := db.keys[call.Slot() := IdempotencyRecord(call.command, None)]);
    Reachable(steps);
    LedgerOf(db);
    SameLedger(db, reserved);
    PartsOf(reserved);
    hide LedgerInv, CatalogInv, RowsInv, EntryIdsInv, LinksInv, MembershipsInv, StatesInv;
    FirstAttempt(db, call);
    ReversesIff(reserved, c, call.supply);
    SameEntryIds(db, reserved, EntryId(call.supply.prefix, 1), EntryId(call.supply.prefix, 2));
  }
}
