/** What a posting or a reversal does to the books, stated in terms of what was asked for. */
module Effects {
  import opened Wrappers
  import opened Ledger
  import opened Database
  import opened Commands
  import opened Invariants
  import opened ReversalProofs
  import opened Machine
  import opened Reachability
  import opened Idempotency
  import opened Chains

  predicate OpensLiability(db: Database, r: DraftRequest) {
    r.account.Some? && r.account.value in db.accounts && db.accounts[r.account.value].kind == Liability
  }

  // How far the balance of an account moves, debits counting up.
  function Movement(db: Database, r: DraftRequest, account: AccountId): Cents {
    match r.kind
    case Opening =>
      var opening := if OpensLiability(db, r) then -r.amount else r.amount;
      if r.account == Some(account) then opening
      else if account == OpeningEquity(r.space) then -opening
      else 0
    case Income => if r.account == Some(account) then r.amount else 0
    case Expense => if r.account == Some(account) then -r.amount else 0
    case Transfer =>
      if r.destination == Some(account) then r.amount
      else if r.account == Some(account) then -r.amount
      else 0
    case Reversal => 0
  }

  // The targets debited and credited.

  function Debited(db: Database, r: DraftRequest): Option<Target> {
    match r.kind
    case Opening => if OpensLiability(db, r) then Some(ToAccount(OpeningEquity(r.space))) else AccountTarget(r.account)
    case Income => AccountTarget(r.account)
    case Expense => CategoryTarget(r.category)
    case Transfer => AccountTarget(r.destination)
    case Reversal => None
  }

  function Credited(db: Database, r: DraftRequest): Option<Target> {
    match r.kind
    case Opening => if OpensLiability(db, r) then AccountTarget(r.account) else Some(ToAccount(OpeningEquity(r.space)))
    case Income => CategoryTarget(r.category)
    case Expense => AccountTarget(r.account)
    case Transfer => AccountTarget(r.account)
    case Reversal => None
  }

  function AccountTarget(a: Option<AccountId>): Option<Target> {
    if a.Some? then Some(ToAccount(a.value)) else None
  }

  function CategoryTarget(c: Option<CategoryId>): Option<Target> {
    if c.Some? then Some(ToCategory(c.value)) else None
  }

  predicate Pays(db: Database, r: DraftRequest, d: Entry, c: Entry) {
    && d.side == Debit && c.side == Credit
    && d.amount == c.amount == r.amount > 0
    && d.space == c.space == r.space
    && Some(d.target) == Debited(db, r) && Some(c.target) == Credited(db, r)
    && d.target != c.target
  }

  // The transaction x is what the request asks for; its dates default as the commands promise.
  predicate Fulfils(db: Database, r: DraftRequest, x: Transaction) {
    && x.space == r.space && x.kind == r.kind && x.state == Posted
    && x.economicDate == r.economicDate && x.description == r.description
    && x.cashDate == (if r.kind == Opening then None else if r.cashDate.Some? then r.cashDate else Some(r.economicDate))
    && |x.entries| == 2
    && (Pays(db, r, x.entries[0], x.entries[1]) || Pays(db, r, x.entries[1], x.entries[0]))
    && (r.kind == Income || r.kind == Expense ==>
         && r.category.Some? && r.category.value in db.categories && db.categories[r.category.value].space == r.space)
  }

  // The accounts stay as they are, except that an opening may add the equity account of its space.
  predicate EquityOnly(db: Database, db': Database, r: DraftRequest) {
    || db'.accounts == db.accounts
    || (r.kind == Opening && OpeningEquity(r.space) !in db.accounts
        && db'.accounts
          == db.accounts[OpeningEquity(r.space) := Account(r.space, "Opening equity", Equity, false, false)])
  }

  lemma OpeningFulfils(db: Database, r: DraftRequest, supply: Supply)
    requires r.kind == Opening && r.account.Some? && CatalogInv(db)
    requires BuildOpening(db, r.space, r.account.value, r.amount, r.economicDate, r.description, supply).Ok?
    ensures var b := BuildOpening(db, r.space, r.account.value, r.amount, r.economicDate, r.description, supply).value;
            Fulfils(db, r, b.tx) && b.db == db.(accounts := b.db.accounts) && EquityOnly(db, b.db, r)
  {
  }

  lemma DraftFulfils(db: Database, r: DraftRequest, supply: Supply)
    requires CatalogInv(db) && ValidateSelections(db, r).Ok? && BuildFromDraft(db, r, supply).Ok?
    ensures var b := BuildFromDraft(db, r, supply).value;
            Fulfils(db, r, b.tx) && b.db == db.(accounts := b.db.accounts) && EquityOnly(db, b.db, r)
  {
    hide BuildOpening;
    assert r.account.Some?;
    if r.kind == Opening {
      OpeningFulfils(db, r, supply);
    }
  }

  lemma BuildFulfils(db: Database, c: Command, supply: Supply)
    requires CatalogInv(db) && !c.Reverse? && BuildPosting(db, c, supply).Ok?
    ensures c.PostDraft? ==> c.draft in db.transactions && c.draft in db.details
    ensures var b := BuildPosting(db, c, supply).value;
            Fulfils(db, Asked(db, c), b.tx) && b.db == db.(accounts := b.db.accounts)
            && EquityOnly(db, b.db, Asked(db, c))
  {
    hide BuildFromDraft, BuildOpening, CatalogInv;
    match c
    case CreateOpening(space, account, amount, economicDate, description) =>
      OpeningFulfils(db, Asked(db, c), supply);
    case CreateIncome(_, _, _, _, _, _, _) =>
    case CreateExpense(_, _, _, _, _, _, _) =>
    case CreateTransfer(_, _, _, _, _, _, _) =>
    case PostDraft(_, draft, cashDate) =>
      DraftFulfils(db, Asked(db, c), supply);
  }

  lemma StoredFulfils(db: Database, r: DraftRequest, x: Transaction)
    requires Fulfils(db, r, x)
    ensures Fulfils(db, r, x.(entries := StoredOrder(x.entries)))
  {
    assert x.entries == [x.entries[0], x.entries[1]];
    StoredPair(x.entries[0], x.entries[1]);
  }

  // One row, without entries before, becomes the transaction asked for; of the rest only accounts may be added.
  ghost predicate Posts(db: Database, db': Database, id: TxId, r: DraftRequest) {
    && id in db'.transactions && Fulfils(db, r, db'.transactions[id])
    && db'.transactions == db.transactions[id := db'.transactions[id]]
    && (id in db.transactions ==> db.transactions[id].entries == [])
    && db'.categories == db.categories && db'.links == db.links && EquityOnly(db, db', r)
  }

  lemma ExecutedPosts(db: Database, c: Command, supply: Supply)
    requires CatalogInv(db) && RowsInv(db) && !c.Reverse? && ExecutePosting(db, c, supply).Ok?
    ensures c.PostDraft? ==> c.draft in db.transactions && c.draft in db.details
    ensures var effect := ExecutePosting(db, c, supply).value; Posts(db, effect.db, effect.result.tx, Asked(db, c))
  {
    hide BuildPosting, StoredOrder, Fulfils, CatalogInv, Asked, EquityOnly;
    BuildFulfils(db, c, supply);
    var b := BuildPosting(db, c, supply).value;
    StoredFulfils(db, Asked(db, c), b.tx);
    if c.PostDraft? {
      assert RowOk(db, db.transactions[c.draft]);
    }
    SameAccounts(db, b.db, ExecutePosting(db, c, supply).value.db, Asked(db, c));
  }

  lemma SameAccounts(db: Database, mid: Database, db': Database, r: DraftRequest)
    requires EquityOnly(db, mid, r) && db'.accounts == mid.accounts
    ensures EquityOnly(db, db', r)
  {
  }

  lemma SameAsked(db: Database, db': Database, id: TxId, after: Database, c: Command)
    requires !c.Reverse? && db' == db.(keys := db'.keys)
    requires c.PostDraft? ==> c.draft in db'.transactions && c.draft in db'.details
    requires Posts(db', after, id, Asked(db', c))
    ensures c.PostDraft? ==> c.draft in db.transactions && c.draft in db.details
    ensures Posts(db, after, id, Asked(db, c))
  {
    assert Asked(db, c) == Asked(db', c);
    assert Fulfils(db, Asked(db, c), after.transactions[id]);
  }

  /**
   In every reachable ledger, a posting command that takes effect adds exactly one transaction, of the kind, dates,
   amount and targets asked for: which side of the entry pair goes where, and which dates default to which.
   */
  lemma PostingFulfilsTheRequest(steps: seq<Step>, call: Call)
    requires FirstSuccess(Run(EMPTY, steps), call, false) && !call.command.Reverse?
    ensures var db := Run(EMPTY, steps);
            && (call.command.PostDraft? ==> call.command.draft in db.transactions && call.command.draft in db.details)
            && Posts(db, Deliver(db, call, false, false), Attempt(db, call).value.result.tx, Asked(db, call.command))
  {
    hide LedgerInv, KeysInv, AuditInv, ExecutePosting, Posts, Asked, CatalogInv, RowsInv;
    var db := Run(EMPTY, steps);
    Reachable(steps);
    var reserved := Reserve(db, call).value.db;
    SameLedger(db, reserved);
    PartsOf(reserved);
    ExecutedPosts(reserved, call.command, call.supply);
    var effect := ExecutePosting(reserved, call.command, call.supply).value;
    SameAsked(db, reserved, effect.result.tx, effect.db, call.command);
    PostsStays(db, effect.db, Deliver(db, call, false, false), effect.result.tx, Asked(db, call.command));
  }

  lemma PostsStays(db: Database, mid: Database, db': Database, id: TxId, r: DraftRequest)
    requires Posts(db, mid, id, r) && db' == mid.(keys := db'.keys, audit := db'.audit)
    ensures Posts(db, db', id, r)
  {
  }

  /**
   A posted draft has the kind, economic date and description of its row and no cash date if it is an opening; otherwise
   its cash date is the one given when posting, or else the draft's own, or else the economic date.
   */
  lemma PostedDraftIsDated(steps: seq<Step>, call: Call)
    requires FirstSuccess(Run(EMPTY, steps), call, false) && call.command.PostDraft?
    ensures var (db, c) := (Run(EMPTY, steps), call.command);
            var db' := Deliver(db, call, false, false);
            && c.draft in db.transactions && c.draft in db.details && c.draft in db'.transactions
            && Attempt(db, call).value.result.tx == c.draft
            && var (draft, details, x) := (db.transactions[c.draft], db.details[c.draft], db'.transactions[c.draft]);
               && x.kind == draft.kind && x.economicDate == draft.economicDate && x.description == draft.description
               && x.cashDate == match draft.kind
                                case Opening => None
                                case _ => if c.cashDate.Some? then c.cashDate
                                          else if details.cashDate.Some? then details.cashDate
                                          else Some(draft.economicDate)
  {
    hide Attempt, Deliver;
    var db := Run(EMPTY, steps);
    PostingFulfilsTheRequest(steps, call);
    PostsItself(db, call);
  }

  lemma PostsItself(db: Database, call: Call)
    requires FirstSuccess(db, call, false) && call.command.PostDraft?
    ensures Attempt(db, call).value.result.tx == call.command.draft
  {
    hide BuildPosting, EntriesClash, StoredOrder;
  }

  // Balances

  lemma RowMoves(db: Database, r: DraftRequest, x: Transaction, space: SpaceId, account: AccountId)
    requires Fulfils(db, r, x)
    ensures RowTally(x, x.entries, AccountMeasure(space, account))
         == if space == r.space then Movement(db, r, account) else 0
  {
    RowTallyPair(x, AccountMeasure(space, account));
    if Pays(db, r, x.entries[0], x.entries[1]) {
      PairMoves(db, r, x, x.entries[0], x.entries[1], space, account);
    } else {
      PairMoves(db, r, x, x.entries[1], x.entries[0], space, account);
    }
  }

  lemma PairMoves(db: Database, r: DraftRequest, x: Transaction, d: Entry, c: Entry, space: SpaceId, account: AccountId)
    requires x.Visible() && Pays(db, r, d, c)
    ensures AccountMeasure(space, account)(x, d) + AccountMeasure(space, account)(x, c)
         == if space == r.space then Movement(db, r, account) else 0
  {
    assert d.Signed() == r.amount && c.Signed() == -r.amount;
    match r.kind
    case Opening =>
    case Income =>
    case Expense =>
    case Transfer =>
    case Reversal =>
  }

  lemma PostsMoves(db: Database, db': Database, id: TxId, r: DraftRequest, space: SpaceId, account: AccountId)
    requires Posts(db, db', id, r)
    ensures BalanceCents(db', space, account)
         == BalanceCents(db, space, account) + if space == r.space then Movement(db, r, account) else 0
  {
    TallyPut(db.transactions, id, db'.transactions[id], AccountMeasure(space, account));
    RowMoves(db, r, db'.transactions[id], space, account);
  }

  /**
   A posting that takes effect moves the balances of exactly the accounts it names, by its amount: income up, expense
   down, a transfer from one to the other, an opening up for an asset and down for a liability against opening equity.
   */
  lemma PostingMovesBalances(steps: seq<Step>, call: Call, space: SpaceId, account: AccountId)
    requires FirstSuccess(Run(EMPTY, steps), call, false) && !call.command.Reverse?
    ensures var (db, c) := (Run(EMPTY, steps), call.command);
            && (c.PostDraft? ==> c.draft in db.transactions && c.draft in db.details)
            && BalanceCents(Deliver(db, call, false, false), space, account)
               == BalanceCents(db, space, account) + if space == c.space then Movement(db, Asked(db, c), account) else 0
  {
    hide Attempt, Deliver, Posts, Movement, BalanceCents;
    var db := Run(EMPTY, steps);
    PostingFulfilsTheRequest(steps, call);
    PostsMoves(db, Deliver(db, call, false, false), Attempt(db, call).value.result.tx, Asked(db, call.command), space,
               account);
    AskedSpace(steps, call);
  }

  lemma AskedSpace(steps: seq<Step>, call: Call)
    requires FirstSuccess(Run(EMPTY, steps), call, false) && !call.command.Reverse?
    requires var (db, c) := (Run(EMPTY, steps), call.command);
             c.PostDraft? ==> c.draft in db.transactions && c.draft in db.details
    ensures Asked(Run(EMPTY, steps), call.command).space == call.command.space
  {
  }

  // Drafts and direct commands

  predicate KindMatches(db: Database, r: DraftRequest) {
    r.category.Some? && r.category.value in db.categories
    && db.categories[r.category.value].kind == if r.kind == Income then IncomeCategory else ExpenseCategory
  }

  /**
   Posting a draft builds the very transaction the direct command would, and is refused when that is, with one
   exception: the draft path accepts an income or expense whose category is of the other kind.
   */
  lemma DraftPathSkipsCategoryKind(db: Database, c: Command, supply: Supply)
    requires !c.Reverse? && !c.PostDraft?
    ensures var r := Asked(db, c);
            var throughDraft := ValidateSelections(db, r).Ok? && BuildFromDraft(db, r, supply).Ok?;
            var matches := r.kind == Income || r.kind == Expense ==> KindMatches(db, r);
            && (BuildPosting(db, c, supply).Ok? <==> throughDraft && matches)
            && (BuildPosting(db, c, supply).Ok? ==> BuildFromDraft(db, r, supply) == BuildPosting(db, c, supply))
  {
    hide BuildOpening, MovementEntries, TransferEntries, PostedTransaction;
    match c
    case CreateOpening(space, account, amount, economicDate, description) =>
      OpeningNeedsActive(db, Asked(db, c), supply);
    case CreateIncome(_, _, _, _, _, _, _) =>
    case CreateExpense(_, _, _, _, _, _, _) =>
    case CreateTransfer(_, _, _, _, _, _, _) =>
  }

  // An income on an expense category, or an expense on an income category.
  predicate Crosses(db: Database, x: Transaction) {
    && (x.kind == Income || x.kind == Expense)
    && exists i :: 0 <= i < |x.entries| && OnKind(db, x.entries[i], OtherKind(x.kind))
  }

  function OtherKind(kind: Kind): CategoryKind {
    if kind == Income then ExpenseCategory else IncomeCategory
  }

  predicate OnKind(db: Database, e: Entry, kind: CategoryKind) {
    e.target.ToCategory? && e.target.category in db.categories && db.categories[e.target.category].kind == kind
  }

  lemma FulfilledCrosses(db: Database, db': Database, r: DraftRequest, x: Transaction)
    requires Fulfils(db, r, x) && db'.categories == db.categories
    ensures Crosses(db', x) <==> (r.kind == Income || r.kind == Expense) && !KindMatches(db, r)
  {
    if r.kind == Income || r.kind == Expense {
      var other := OtherKind(r.kind);
      var k := if x.entries[0].target.ToCategory? then 0 else 1;
      assert x.entries[k].target == ToCategory(r.category.value);
      assert OnKind(db', x.entries[k], other) <==> db.categories[r.category.value].kind == other;
      match db.categories[r.category.value].kind {
        case IncomeCategory =>
        case ExpenseCategory =>
      }
    }
  }

  /**
   In every reachable ledger, a posting that takes effect leaves an income on an expense category, or the other way
   round, if and only if it posts a draft whose chosen category is of the other kind: a condition on the draft before
   the call.
   */
  lemma OnlyDraftsCrossKinds(steps: seq<Step>, call: Call)
    requires FirstSuccess(Run(EMPTY, steps), call, false) && !call.command.Reverse?
    ensures var (db, c) := (Run(EMPTY, steps), call.command);
            var (db', posted) := (Deliver(db, call, false, false), Attempt(db, call).value.result.tx);
            && (c.PostDraft? ==> c.draft in db.transactions && c.draft in db.details)
            && posted in db'.transactions
            && (Crosses(db', db'.transactions[posted])
                <==> c.PostDraft? && (Asked(db, c).kind == Income || Asked(db, c).kind == Expense)
                     && !KindMatches(db, Asked(db, c)))
  {
    hide Attempt, Deliver, Fulfils, Asked, KindMatches, Crosses;
    var db, c := Run(EMPTY, steps), call.command;
    PostingFulfilsTheRequest(steps, call);
    var posted := Attempt(db, call).value.result.tx;
    var db' := Deliver(db, call, false, false);
    FulfilledCrosses(db, db', Asked(db, c), db'.transactions[posted]);
    if !c.PostDraft? {
      DirectKindMatches(db, call);
    }
  }

  lemma DirectKindMatches(db: Database, call: Call)
    requires FirstSuccess(db, call, false) && !call.command.Reverse? && !call.command.PostDraft?
    ensures var r := Asked(db, call.command); r.kind == Income || r.kind == Expense ==> KindMatches(db, r)
  {
    hide EntriesClash, StoredOrder, PostedTransaction, BuildOpening, TransferEntries, MovementEntries;
  }

  lemma OpeningNeedsActive(db: Database, r: DraftRequest, supply: Supply)
    requires r.account.Some?
    ensures BuildOpening(db, r.space, r.account.value, r.amount, r.economicDate, r.description, supply).Ok? ==>
              ActiveAccount(db, r.space, r.account.value).Ok?
  {
  }

  /**
   Discarding a draft undoes creating it, and posting it asks for exactly what it was created with, except that a cash
   date given when it is posted takes the place of its own.
   */
  lemma DraftRoundTrip(db: Database, id: TxId, r: DraftRequest)
    requires CreateDraft(db, id, r).Ok?
    ensures var created := CreateDraft(db, id, r).value;
            && DiscardDraft(created, r.space, id) == Ok(db)
            && id in created.transactions && id in created.details
            && Asked(created, PostDraft(r.space, id, None)) == r
            && forall date :: Asked(created, PostDraft(r.space, id, Some(date))) == r.(cashDate := Some(date))
  {
    var created := CreateDraft(db, id, r).value;
    assert created.transactions - {id} == db.transactions && created.details - {id} == db.details;
  }

  /**
   Updating a draft leaves the ledger as discarding it and creating it anew would: nothing of the old draft remains, not
   even the transaction it was to replace. It is refused exactly when one of the two would be.
   */
  lemma UpdateIsDiscardAndCreate(db: Database, id: TxId, r: DraftRequest)
    requires RowsInv(db)
    ensures var discarded := DiscardDraft(db, r.space, id);
            && (UpdateDraft(db, id, r).Ok? <==> discarded.Ok? && CreateDraft(discarded.value, id, r).Ok?)
            && (UpdateDraft(db, id, r).Ok? ==> UpdateDraft(db, id, r) == CreateDraft(discarded.value, id, r))
  {
    hide RowOk;
    var discarded := DiscardDraft(db, r.space, id);
    if discarded.Ok? {
      assert ValidateSelections(discarded.value, r) == ValidateSelections(db, r);
      assert (db.transactions - {id})[id := DraftRow(r)] == db.transactions[id := DraftRow(r)];
      assert (db.details - {id})[id := DetailsOf(r, None)] == db.details[id := DetailsOf(r, None)];
    }
  }

  // Reversals

  // The reversal of a transaction: dated as asked or today, without a cash date exactly when the original has none.
  predicate Undoes(o: Transaction, c: Command, today: Date, x: Transaction)
    requires c.Reverse?
  {
    && Mirrors(o, x) && x.kind == Reversal && x.state == Posted
    && x.economicDate == DefaultDate(c.reversalDate, today)
    && x.cashDate == if o.cashDate.None? then None else Some(DefaultDate(c.cashDate, today))
  }

  lemma ReversalUndoes(db: Database, c: Command, supply: Supply)
    requires RowsInv(db) && c.Reverse? && ExecuteReversal(db, c, supply).Ok?
    ensures c.original in db.transactions
    ensures var db' := ExecuteReversal(db, c, supply).value.db;
            supply.tx in db'.transactions && Undoes(db.transactions[c.original], c, supply.today,
                                                    db'.transactions[supply.tx])
  {
    hide BuildReversal, EntriesClash, LinkReversal;
    var original := GetTransaction(db, c.space, c.original).value;
    assert RowOk(db, original);
    ReversalBuilds(db, original, c, supply);
    BuiltDates(original, c, supply);
    LinkedKeeps(AddPosted(db, supply.tx, BuildReversal(original, c, supply).value).value, c, supply);
  }

  lemma BuiltDates(original: Transaction, c: Command, supply: Supply)
    requires c.Reverse? && BuildReversal(original, c, supply).Ok?
    ensures var x := BuildReversal(original, c, supply).value;
            && x.economicDate == DefaultDate(c.reversalDate, supply.today)
            && x.cashDate == if original.cashDate.None? then None else Some(DefaultDate(c.cashDate, supply.today))
  {
  }

  // Linking leaves the row of the reversal alone: only the original and a new draft change.
  lemma LinkedKeeps(db: Database, c: Command, supply: Supply)
    requires c.Reverse? && supply.tx in db.transactions && LinkReversal(db, c, supply.tx, supply.replacement).Ok?
    ensures var db' := LinkReversal(db, c, supply.tx, supply.replacement).value;
            supply.tx in db'.transactions && db'.transactions[supply.tx] == db.transactions[supply.tx]
  {
  }

  lemma RowMovesBack(o: Transaction, x: Transaction, space: SpaceId, account: AccountId)
    requires |o.entries| == 2 && Mirrors(o, x) && o.Visible() && x.Visible()
    ensures RowTally(x, x.entries, AccountMeasure(space, account))
         == -RowTally(o, o.entries, AccountMeasure(space, account))
  {
    MirrorNegates(o, x, AccountMeasure(space, account), space, account);
  }

  lemma ReversesMovesBack(db: Database, db': Database, o: TxId, r: TxId, space: SpaceId, account: AccountId)
    requires RowsInv(db) && Reverses(db, db', o, r)
    ensures o in db.transactions
    ensures BalanceCents(db', space, account) ==
              BalanceCents(db, space, account)
                - RowTally(db.transactions[o], db.transactions[o].entries, AccountMeasure(space, account))
  {
    var g, x := AccountMeasure(space, account), db'.transactions[r];
    var posted := db.transactions[r := x];
    assert RowOk(db, db.transactions[o]);
    TallyPut(db.transactions, r, x, g);
    TallyPut(posted, o, db'.transactions[o], g);
    RowMovesBack(db.transactions[o], x, space, account);
    assert RowTally(db'.transactions[o], db'.transactions[o].entries, g)
      == RowTally(db.transactions[o], db.transactions[o].entries, g) by {
      RowTallyEqual(db'.transactions[o], db.transactions[o], db.transactions[o].entries, g, g);
    }
  }

  lemma DraftOnlyBalance(db: Database, db': Database, id: TxId, space: SpaceId, account: AccountId)
    requires RowsInv(db) && DraftOnly(db, db', id)
    ensures BalanceCents(db', space, account) == BalanceCents(db, space, account)
  {
    EmptyRowBalance(db, id, space, account) by {
      if id in db.transactions {
        assert RowOk(db, db.transactions[id]);
      }
    }
    EmptyRowBalance(db', id, space, account);
    assert Tally(db.transactions - {id}, AccountMeasure(space, account))
      == Tally(db'.transactions - {id}, AccountMeasure(space, account));
  }

  lemma EmptyRowBalance(db: Database, id: TxId, space: SpaceId, account: AccountId)
    requires id in db.transactions ==> db.transactions[id].entries == []
    ensures BalanceCents(db, space, account) == Tally(db.transactions - {id}, AccountMeasure(space, account))
  {
    if id in db.transactions {
      TallyRemove(db.transactions, id, AccountMeasure(space, account));
    } else {
      assert db.transactions - {id} == db.transactions;
    }
  }

  lemma ExecutedReversal(db: Database, c: Command, supply: Supply, space: SpaceId, account: AccountId)
    requires LedgerInv(db) && c.Reverse? && ExecuteReversal(db, c, supply).Ok?
    ensures c.original in db.transactions
    ensures var (db', o) := (ExecuteReversal(db, c, supply).value.db, db.transactions[c.original]);
            && supply.tx in db'.transactions
            && Undoes(o, c, supply.today, db'.transactions[supply.tx])
            && BalanceCents(db', space, account)
              == BalanceCents(db, space, account) - RowTally(o, o.entries, AccountMeasure(space, account))
  {
    hide LedgerInv, ExecuteReversal, BalanceCents, Undoes;
    PartsOf(db);
    var mid := ExecuteReversalReverses(db, c, supply);
    PartsOf(mid);
    ReversalUndoes(db, c, supply);
    ReversesMovesBack(db, mid, c.original, supply.tx, space, account);
    if ExecuteReversal(db, c, supply).value.db != mid {
      DraftOnlyBalance(mid, ExecuteReversal(db, c, supply).value.db, supply.replacement, space, account);
    }
  }

  /**
   A reversal that takes effect mirrors its original, is dated as asked or today, and takes back exactly what the
   original had moved, on every account.
   */
  lemma ReversingMovesBalancesBack(steps: seq<Step>, call: Call, space: SpaceId, account: AccountId)
    requires FirstSuccess(Run(EMPTY, steps), call, false) && call.command.Reverse?
    ensures var (db, c) := (Run(EMPTY, steps), call.command);
            var db' := Deliver(db, call, false, false);
            && c.original in db.transactions && call.supply.tx in db'.transactions
            && Undoes(db.transactions[c.original], c, call.supply.today, db'.transactions[call.supply.tx])
            && BalanceCents(db', space, account) == BalanceCents(db, space, account)
               - RowTally(db.transactions[c.original], db.transactions[c.original].entries,
                          AccountMeasure(space, account))
  {
    hide LedgerInv, KeysInv, AuditInv, ExecuteReversal, Undoes, AccountMeasure;
    var db := Run(EMPTY, steps);
    Reachable(steps);
    var reserved := Reserve(db, call).value.db;
    SameLedger(db, reserved);
    ExecutedReversal(reserved, call.command, call.supply, space, account);
  }

  // The replacement of a reversed transaction

  // What a reversal adds besides the reversal itself: a draft of the replacement that notes what it replaces, or
  // nothing.
  ghost predicate Drafts(db: Database, db': Database, c: Command, result: CommandResult)
    requires c.Reverse?
  {
    match c.replacement
    case None =>
      && result.replacement == None
      && db'.transactions.Keys == db.transactions.Keys + {result.tx}
      && db'.details == db.details
    case Some(r) =>
      && result.replacement.Some?
      && var id := result.replacement.value;
         && id !in db.transactions && id !in db.details && id != result.tx
         && db'.transactions.Keys == db.transactions.Keys + {result.tx, id}
         && db'.transactions[id] == Transaction(c.space, r.kind, Draft, r.economicDate, None, r.description, [])
         && db'.details
           == db.details[id := DraftDetails(r.amount, r.account, r.category, r.destination, r.cashDate,
                                            Some(c.original))]
         && r.space == c.space && r.amount > 0
  }

  lemma ReplacementDrafts(db: Database, c: Command, id: TxId)
    requires c.Reverse? && AddReplacement(db, c, id).Ok?
    ensures var db' := AddReplacement(db, c, id).value;
            match c.replacement
            case None => db' == db
            case Some(r) =>
              && id !in db.transactions && id !in db.details && r.space == c.space && r.amount > 0
              && db'.transactions
                == db.transactions[id := Transaction(c.space, r.kind, Draft, r.economicDate, None, r.description, [])]
              && db'.details
                == db.details[id := DraftDetails(r.amount, r.account, r.category, r.destination, r.cashDate,
                                                 Some(c.original))]
  {
  }

  lemma ExecutedDrafts(db: Database, c: Command, supply: Supply)
    requires LedgerInv(db) && c.Reverse? && ExecuteReversal(db, c, supply).Ok?
    ensures var effect := ExecuteReversal(db, c, supply).value; Drafts(db, effect.db, c, effect.result)
  {
    hide BuildReversal, AddReplacement, LedgerInv;
    PartsOf(db);
    hide CatalogInv, RowsInv, EntryIdsInv, LinksInv, MembershipsInv, StatesInv;
    var mid := BeforeReplacement(db, c, supply);
    ReversesKeys(db, mid, c.original, supply.tx);
    ReplacementDrafts(mid, c, supply.replacement);
    ExecuteReversalResult(db, c, supply);
  }

  lemma ReversesKeys(db: Database, mid: Database, o: TxId, r: TxId)
    requires Reverses(db, mid, o, r)
    ensures mid.transactions.Keys == db.transactions.Keys + {r} && mid.details == db.details
  {
    hide Mirrors;
  }

  /**
   A reversal with a replacement adds exactly one more transaction under a new id that its result names: a draft that
   replaces the original and, when posted, asks for what the replacement was given with. Without one it adds no draft.
   */
  lemma ReversalDraftsItsReplacement(steps: seq<Step>, call: Call)
    requires FirstSuccess(Run(EMPTY, steps), call, false) && call.command.Reverse?
    ensures var (db, c) := (Run(EMPTY, steps), call.command);
            var (db', result) := (Deliver(db, call, false, false), Attempt(db, call).value.result);
            && Drafts(db, db', c, result)
            && (c.replacement.Some? ==>
                 Asked(db', PostDraft(c.space, result.replacement.value, None)) == c.replacement.value)
  {
    hide LedgerInv, KeysInv, AuditInv, ExecuteReversal;
    var db := Run(EMPTY, steps);
    Reachable(steps);
    var reserved := Reserve(db, call).value.db;
    SameLedger(db, reserved);
    ExecutedDrafts(reserved, call.command, call.supply);
  }
}
