/** Reading a command's details back from the entries it posted. */
module TransactionDetails {
  import opened Wrappers
  import opened Ledger
  import opened Database
  import opened Commands
  import opened Invariants
  import opened Machine
  import opened Reachability
  import opened Idempotency

  datatype Details = Details(
    amount: Option<Cents>, account: Option<AccountId>, category: Option<CategoryId>, destination: Option<AccountId>)

  function FirstCategory(entries: seq<Entry>): Option<CategoryId> {
    if entries == [] then None
    else if entries[0].target.ToCategory? then Some(entries[0].target.category)
    else FirstCategory(entries[1..])
  }

  function AccountEntries(entries: seq<Entry>): (r: seq<Entry>)
    ensures forall e :: e in r ==> e.target.ToAccount?
  {
    if entries == [] then []
    else (if entries[0].target.ToAccount? then [entries[0]] else []) + AccountEntries(entries[1..])
  }

  // The account entries whose account is not a technical opening-equity account.
  function VisibleEntries(entries: seq<Entry>): (r: seq<Entry>)
    requires forall e :: e in entries ==> e.target.ToAccount?
    ensures forall e :: e in r ==> e.target.ToAccount?
  {
    if entries == [] then []
    else (if entries[0].target.account.Opaque? then [entries[0]] else []) + VisibleEntries(entries[1..])
  }

  function FirstOnSide(entries: seq<Entry>, side: Side): Option<AccountId>
    requires forall e :: e in entries ==> e.target.ToAccount?
  {
    if entries == [] then None
    else if entries[0].side == side then Some(entries[0].target.account)
    else FirstOnSide(entries[1..], side)
  }

  function ReadDetails(entries: seq<Entry>): Details {
    if entries == [] then Details(None, None, None, None)
    else
      var amount := Some(entries[0].amount);
      var accounts := AccountEntries(entries);
      var category := FirstCategory(entries);
      var visible := VisibleEntries(accounts);
      if |visible| == 1 && |accounts| > 1 then
        Details(amount, Some(visible[0].target.account), category, None)
      else if |accounts| > 1 && category.None? then
        Details(amount, FirstOnSide(accounts, Credit), None, FirstOnSide(accounts, Debit))
      else
        Details(amount, if accounts == [] then None else Some(accounts[0].target.account), category, None)
  }

  function EitherSide(a: Entry, b: Entry, side: Side): Option<AccountId>
    requires a.target.ToAccount? && b.target.ToAccount?
  {
    if a.side == side then Some(a.target.account) else if b.side == side then Some(b.target.account) else None
  }

  lemma ReadOne(e: Entry)
    ensures AccountEntries([e]) == if e.target.ToAccount? then [e] else []
    ensures FirstCategory([e]) == if e.target.ToCategory? then Some(e.target.category) else None
    ensures e.target.ToAccount? ==> VisibleEntries([e]) == if e.target.account.Opaque? then [e] else []
    ensures forall side | e.target.ToAccount? ::
              FirstOnSide([e], side) == if e.side == side then Some(e.target.account) else None
  {
    assert [e][1..] == [];
    assert FirstCategory([e][1..]) == None && AccountEntries([e][1..]) == [] && VisibleEntries([e][1..]) == [];
    forall side | e.target.ToAccount?
      ensures FirstOnSide([e], side) == if e.side == side then Some(e.target.account) else None
    {
      assert FirstOnSide([e][1..], side) == None;
    }
  }

  lemma ReadTwoAccounts(a: Entry, b: Entry)
    requires a.target.ToAccount? && b.target.ToAccount?
    ensures AccountEntries([a, b]) == [a, b] && FirstCategory([a, b]) == None
    ensures VisibleEntries([a, b])
         == (if a.target.account.Opaque? then [a] else []) + (if b.target.account.Opaque? then [b] else [])
    ensures forall side :: FirstOnSide([a, b], side) == EitherSide(a, b, side)
  {
    assert [a, b][1..] == [b];
    ReadOne(b);
    forall side ensures FirstOnSide([a, b], side) == EitherSide(a, b, side) {
      assert FirstOnSide([a, b][1..], side) == FirstOnSide([b], side);
    }
  }

  lemma ReadAccountAndCategory(a: Entry, b: Entry)
    requires a.target.ToAccount? && b.target.ToCategory? && a.amount == b.amount
    ensures ReadDetails([a, b]) == Details(Some(a.amount), Some(a.target.account), Some(b.target.category), None)
    ensures ReadDetails([b, a]) == Details(Some(a.amount), Some(a.target.account), Some(b.target.category), None)
  {
    assert [a, b][1..] == [b] && [b, a][1..] == [a];
    ReadOne(a);
    ReadOne(b);
    assert AccountEntries([a, b]) == [a] && AccountEntries([b, a]) == [a];
    assert FirstCategory([a, b]) == Some(b.target.category) && FirstCategory([b, a]) == Some(b.target.category);
  }

  function DetailsFor(kind: Kind, amount: Cents, account: Option<AccountId>, category: Option<CategoryId>,
                      destination: Option<AccountId>): Details
  {
    Details(Some(amount), account,
            if kind == Income || kind == Expense then category else None,
            if kind == Transfer then destination else None)
  }

  // The details of what a command asks for.
  function Requested(db: Database, c: Command): Details
    requires !c.Reverse?
    requires c.PostDraft? ==> c.draft in db.transactions && c.draft in db.details
  {
    var r := Asked(db, c);
    DetailsFor(r.kind, r.amount, r.account, r.category, r.destination)
  }

  lemma OpeningReads(space: SpaceId, account: AccountId, kind: AccountKind, amount: Cents, id0: EntryId, id1: EntryId)
    requires account.Opaque?
    requires OpeningEntries(space, account, kind, OpeningEquity(space), amount, id0, id1).Ok?
    ensures var entries := OpeningEntries(space, account, kind, OpeningEquity(space), amount, id0, id1).value;
            && |entries| == 2
            && ReadDetails(entries) == DetailsFor(Opening, amount, Some(account), None, None)
            && ReadDetails([entries[1], entries[0]]) == DetailsFor(Opening, amount, Some(account), None, None)
  {
    var entries := OpeningEntries(space, account, kind, OpeningEquity(space), amount, id0, id1).value;
    ReadTwoAccounts(entries[0], entries[1]);
    ReadTwoAccounts(entries[1], entries[0]);
    assert entries == [entries[0], entries[1]];
  }

  lemma MovementReads(kind: Kind, space: SpaceId, account: AccountId, category: CategoryId, amount: Cents,
                      supply: Supply)
    requires kind == Income || kind == Expense
    requires MovementEntries(kind, space, account, category, amount, supply).Ok?
    ensures var entries := MovementEntries(kind, space, account, category, amount, supply).value;
            && |entries| == 2
            && ReadDetails(entries) == DetailsFor(kind, amount, Some(account), Some(category), None)
            && ReadDetails([entries[1], entries[0]]) == DetailsFor(kind, amount, Some(account), Some(category), None)
  {
    var entries := MovementEntries(kind, space, account, category, amount, supply).value;
    if kind == Income {
      ReadAccountAndCategory(entries[0], entries[1]);
    } else {
      ReadAccountAndCategory(entries[1], entries[0]);
    }
    assert entries == [entries[0], entries[1]];
  }

  lemma TransferReads(space: SpaceId, source: AccountId, destination: AccountId, amount: Cents, id0: EntryId,
                      id1: EntryId)
    requires source.Opaque? && destination.Opaque?
    requires TransferEntries(space, source, destination, amount, id0, id1).Ok?
    ensures var entries := TransferEntries(space, source, destination, amount, id0, id1).value;
            && |entries| == 2
            && ReadDetails(entries) == DetailsFor(Transfer, amount, Some(source), None, Some(destination))
            && ReadDetails([entries[1], entries[0]])
              == DetailsFor(Transfer, amount, Some(source), None, Some(destination))
  {
    var entries := TransferEntries(space, source, destination, amount, id0, id1).value;
    ReadTwoAccounts(entries[0], entries[1]);
    ReadTwoAccounts(entries[1], entries[0]);
    assert entries == [entries[0], entries[1]];
  }

  lemma StoredEitherWay(entries: seq<Entry>, details: Details)
    requires |entries| == 2 && ReadDetails(entries) == details && ReadDetails([entries[1], entries[0]]) == details
    ensures ReadDetails(StoredOrder(entries)) == details
  {
    assert entries == [entries[0], entries[1]];
    StoredPair(entries[0], entries[1]);
  }

  lemma ActiveIsOpaque(db: Database, space: SpaceId, id: AccountId)
    requires CatalogInv(db) && ActiveAccount(db, space, id).Ok?
    ensures id.Opaque?
  {
  }

  lemma RequestReads(db: Database, r: DraftRequest, supply: Supply)
    requires CatalogInv(db) && ValidateSelections(db, r).Ok? && BuildFromDraft(db, r, supply).Ok?
    ensures var entries := BuildFromDraft(db, r, supply).value.tx.entries;
            ReadDetails(StoredOrder(entries)) == DetailsFor(r.kind, r.amount, r.account, r.category, r.destination)
  {
    var id0, id1 := EntryId(supply.entry0, 0), EntryId(supply.entry1, 0);
    var entries := BuildFromDraft(db, r, supply).value.tx.entries;
    var details := DetailsFor(r.kind, r.amount, r.account, r.category, r.destination);
    ActiveIsOpaque(db, r.space, r.account.value);
    if r.kind == Opening {
      OpeningReads(r.space, r.account.value, db.accounts[r.account.value].kind, r.amount, id0, id1);
    } else if r.kind == Income || r.kind == Expense {
      MovementReads(r.kind, r.space, r.account.value, r.category.value, r.amount, supply);
    } else {
      ActiveIsOpaque(db, r.space, r.destination.value);
      TransferReads(r.space, r.account.value, r.destination.value, r.amount, id0, id1);
    }
    StoredEitherWay(entries, details);
  }

  // A command that posts directly.
  lemma DirectReads(db: Database, c: Command, supply: Supply)
    requires CatalogInv(db) && !c.Reverse? && !c.PostDraft? && BuildPosting(db, c, supply).Ok?
    ensures ReadDetails(StoredOrder(BuildPosting(db, c, supply).value.tx.entries)) == Requested(db, c)
  {
    hide StoredOrder, ReadDetails, EnsureEquity, OpeningEntries, MovementEntries, TransferEntries, CatalogInv;
    var id0, id1 := EntryId(supply.entry0, 0), EntryId(supply.entry1, 0);
    var entries := BuildPosting(db, c, supply).value.tx.entries;
    if c.CreateOpening? {
      ActiveIsOpaque(db, c.space, c.account);
      OpeningReads(c.space, c.account, db.accounts[c.account].kind, c.amount, id0, id1);
    } else if c.CreateIncome? {
      MovementReads(Income, c.space, c.account, c.category, c.amount, supply);
    } else if c.CreateExpense? {
      MovementReads(Expense, c.space, c.account, c.category, c.amount, supply);
    } else {
      ActiveIsOpaque(db, c.space, c.account);
      ActiveIsOpaque(db, c.space, c.destination);
      TransferReads(c.space, c.account, c.destination, c.amount, id0, id1);
    }
    StoredEitherWay(entries, Requested(db, c));
  }

  lemma DraftReads(db: Database, c: Command, supply: Supply)
    requires CatalogInv(db) && c.PostDraft? && BuildPosting(db, c, supply).Ok?
    ensures c.draft in db.transactions && c.draft in db.details
    ensures ReadDetails(StoredOrder(BuildPosting(db, c, supply).value.tx.entries)) == Requested(db, c)
  {
    hide StoredOrder, ReadDetails, BuildFromDraft, ValidateSelections, CatalogInv;
    var r := RequestOf(db.transactions[c.draft], db.details[c.draft], c.cashDate);
    assert ValidateSelections(db, r).Ok? && BuildPosting(db, c, supply) == BuildFromDraft(db, r, supply);
    assert r.account.Some? by { SelectedAccount(db, r); }
    RequestReads(db, r, supply);
  }

  lemma SelectedAccount(db: Database, r: DraftRequest)
    requires ValidateSelections(db, r).Ok?
    ensures r.account.Some?
  {
  }

  lemma PostingReads(db: Database, c: Command, supply: Supply)
    requires CatalogInv(db) && !c.Reverse? && BuildPosting(db, c, supply).Ok?
    ensures c.PostDraft? ==> c.draft in db.transactions && c.draft in db.details
    ensures ReadDetails(StoredOrder(BuildPosting(db, c, supply).value.tx.entries)) == Requested(db, c)
  {
    hide StoredOrder, ReadDetails, BuildPosting, CatalogInv;
    if c.PostDraft? {
      DraftReads(db, c, supply);
    } else {
      DirectReads(db, c, supply);
    }
  }

  lemma ExecutedReads(db: Database, c: Command, supply: Supply)
    requires CatalogInv(db) && !c.Reverse? && ExecutePosting(db, c, supply).Ok?
    ensures var effect := ExecutePosting(db, c, supply).value;
            && (c.PostDraft? ==> c.draft in db.transactions && c.draft in db.details)
            && effect.result.tx in effect.db.transactions
            && ReadDetails(effect.db.transactions[effect.result.tx].entries) == Requested(db, c)
  {
    hide BuildPosting, StoredOrder, ReadDetails, Requested, CatalogInv;
    PostingReads(db, c, supply);
  }

  /**
   Reading details back inverts posting: in any reachable ledger, what is read from the entries of a transaction just
   posted is the amount, account, category and destination its command or its draft asked for.
   */
  lemma PostedDetailsReadBack(steps: seq<Step>, call: Call)
    requires FirstSuccess(Run(EMPTY, steps), call, false) && !call.command.Reverse?
    ensures var db := Run(EMPTY, steps);
            var db', posted := Deliver(db, call, false, false), Attempt(db, call).value.result.tx;
            && (call.command.PostDraft? ==> call.command.draft in db.transactions && call.command.draft in db.details)
            && posted in db'.transactions
            && ReadDetails(db'.transactions[posted].entries) == Requested(db, call.command)
  {
    hide LedgerInv, KeysInv, AuditInv, ExecutePosting, ReadDetails, Requested;
    var db := Run(EMPTY, steps);
    Reachable(steps);
    var reserved := Reserve(db, call).value.db;
    SameLedger(db, reserved);
    assert CatalogInv(reserved) by { PartsOf(reserved); }
    ExecutedReads(reserved, call.command, call.supply);
    SameRequest(db, reserved, call.command);
  }

  lemma SameRequest(db: Database, db': Database, c: Command)
    requires !c.Reverse? && db'.transactions == db.transactions && db'.details == db.details
    requires c.PostDraft? ==> c.draft in db.transactions && c.draft in db.details
    ensures Requested(db', c) == Requested(db, c)
  {
  }

  // A transfer read backwards.
  function Swapped(d: Details): Details {
    if d.destination.Some? then Details(d.amount, d.destination, d.category, d.account) else d
  }

  lemma ReadShaped(x: Transaction, a: Entry, b: Entry)
    requires x.entries == [a, b] && a.amount == b.amount && (Ordinary(a) || Ordinary(b))
    ensures ReadDetails(x.entries) ==
      if a.target.ToCategory? then Details(Some(a.amount), Some(b.target.account), Some(a.target.category), None)
      else if b.target.ToCategory? then Details(Some(a.amount), Some(a.target.account), Some(b.target.category), None)
      else if Technical(a) then Details(Some(a.amount), Some(b.target.account), None, None)
      else if Technical(b) then Details(Some(a.amount), Some(a.target.account), None, None)
      else Details(Some(a.amount), EitherSide(a, b, Credit), None, EitherSide(a, b, Debit))
  {
    if a.target.ToCategory? {
      ReadAccountAndCategory(b, a);
    } else if b.target.ToCategory? {
      ReadAccountAndCategory(a, b);
    } else {
      ReadTwoAccounts(a, b);
    }
  }

  lemma MirrorReads(db: Database, o: Transaction, r: Transaction)
    requires Shape(db, o) && Mirrors(o, r)
    ensures ReadDetails(r.entries) == Swapped(ReadDetails(o.entries))
  {
    assert o.entries == [o.entries[0], o.entries[1]] && r.entries == [r.entries[0], r.entries[1]];
    ReadShaped(o, o.entries[0], o.entries[1]);
    ReadShaped(r, r.entries[0], r.entries[1]);
  }

  /** The reversal of a transaction reads back like it, a transfer with its source and destination swapped. */
  lemma ReversalReadsSwapped(steps: seq<Step>, o: TxId)
    requires o in Run(EMPTY, steps).links
    ensures var db := Run(EMPTY, steps);
            && o in db.transactions && db.links[o] in db.transactions
            && ReadDetails(db.transactions[db.links[o]].entries) == Swapped(ReadDetails(db.transactions[o].entries))
  {
    hide EntryIdsInv, MembershipsInv, StatesInv, KeysInv, AuditInv, ReadDetails;
    Reachable(steps);
    var db := Run(EMPTY, steps);
    assert LinkOk(db, o, db.links[o]);
    assert RowOk(db, db.transactions[o]);
    MirrorReads(db, db.transactions[o], db.transactions[db.links[o]]);
  }
}
