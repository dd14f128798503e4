/** Posting a new transaction or an existing draft keeps the ledger invariants. */
module PostingProofs {
  import opened Wrappers
  import opened Ledger
  import opened Database
  import opened Commands
  import opened Invariants

  // Accounts and categories are only added; those already there keep their space, kind and reconcilable flag.
  ghost predicate CatalogExtends(db: Database, db': Database) {
    && (forall a :: a in db.accounts ==>
         && a in db'.accounts
         && db'.accounts[a].space == db.accounts[a].space
         && db'.accounts[a].kind == db.accounts[a].kind
         && db'.accounts[a].reconcilable == db.accounts[a].reconcilable)
    && (forall c :: c in db.categories ==>
         && c in db'.categories
         && db'.categories[c].space == db.categories[c].space
         && db'.categories[c].kind == db.categories[c].kind)
  }

  ghost predicate CatalogOnly(db: Database, db': Database) {
    db' == db.(accounts := db'.accounts, categories := db'.categories)
  }

  lemma ShapeExtends(db: Database, db': Database, x: Transaction)
    requires CatalogExtends(db, db') && Shape(db, x)
    ensures Shape(db', x)
  {
  }

  lemma RowsExtend(db: Database, db': Database)
    requires RowsInv(db) && CatalogExtends(db, db')
    ensures forall t :: t in db.transactions ==> RowOk(db', db.transactions[t])
  {
    forall t | t in db.transactions ensures RowOk(db', db.transactions[t]) {
      assert RowOk(db, db.transactions[t]);
    }
  }

  lemma SameCountable(db: Database, db': Database, x: Transaction)
    requires RowOk(db, x) && CatalogExtends(db, db')
    ensures forall e :: e in x.entries ==> (Countable(db, e) <==> Countable(db', e))
  {
  }

  lemma StateExtends(db: Database, db': Database, x: Transaction)
    requires RowOk(db, x) && StateOk(db, x)
    requires CatalogExtends(db, db') && db.memberships == db'.memberships
    ensures StateOk(db', x)
  {
    SameCountable(db, db', x);
    if x.state == Reconciled {
      var e :| e in x.entries && Countable(db, e) && e.id in CompletedIds(db);
      assert Countable(db', e);
    }
  }

  lemma CatalogKeeps(db: Database, db': Database)
    requires LedgerInv(db) && CatalogExtends(db, db') && CatalogOnly(db, db') && CatalogInv(db')
    ensures LedgerInv(db')
  {
    RowsExtend(db, db');
    assert RowsInv(db');
    assert EntryIdsInv(db') by {
      assert forall t, i, id :: EntryAt(db', t, i, id) ==> EntryAt(db, t, i, id);
    }
    assert LinksInv(db');
    MembershipsExtend(db, db');
    forall t | t in db'.transactions ensures StateOk(db', db'.transactions[t]) {
      StateExtends(db, db', db.transactions[t]);
    }
  }

  lemma MembershipsExtend(db: Database, db': Database)
    requires MembershipsInv(db) && CatalogExtends(db, db')
    requires db'.memberships == db.memberships && db'.reconciliations == db.reconciliations
    requires forall t :: t in db.transactions && db.transactions[t].Visible() ==>
               t in db'.transactions && db'.transactions[t] == db.transactions[t]
    ensures MembershipsInv(db')
  {
    forall m | m in db'.memberships ensures exists t, i :: Located(db', m, t, i) {
      var t, i :| Located(db, m, t, i);
      assert Located(db', m, t, i);
    }
  }

  // What writing one posted transaction does to the database, keys and audit aside.
  ghost predicate PutsPosted(db: Database, db': Database, id: TxId, x: Transaction) {
    && CatalogExtends(db, db') && CatalogInv(db')
    && db' == db.(accounts := db'.accounts, categories := db'.categories,
                  transactions := db.transactions[id := x], details := db.details - {id})
    && (id in db.transactions ==> db.transactions[id].state == Draft)
    && x.state == Posted
    && Shape(db', x)
    && (forall i :: 0 <= i < |x.entries| ==> !HasEntry(db, x.entries[i].id))
  }

  lemma PutKeepsRows(db: Database, db': Database, id: TxId, x: Transaction)
    requires RowsInv(db) && PutsPosted(db, db', id, x)
    ensures RowsInv(db')
  {
    RowsExtend(db, db');
  }

  lemma PutKeepsEntryIds(db: Database, db': Database, id: TxId, x: Transaction)
    requires RowsInv(db) && EntryIdsInv(db) && PutsPosted(db, db', id, x)
    ensures EntryIdsInv(db')
  {
    forall t, i: nat, u, j: nat, e | EntryAt(db', t, i, e) && EntryAt(db', u, j, e) ensures t == u && i == j {
      if t != id { assert EntryAt(db, t, i, e) && HasEntry(db, e); }
      if u != id { assert EntryAt(db, u, j, e) && HasEntry(db, e); }
    }
  }

  lemma PutKeepsLinks(db: Database, db': Database, id: TxId, x: Transaction)
    requires LinksInv(db) && PutsPosted(db, db', id, x) && x.kind != Reversal
    ensures LinksInv(db')
  {
    assert id !in db.links && id !in db.links.Values;
  }

  // The entries of the new transaction belong to no reconciliation yet.
  lemma PutUncompleted(db: Database, db': Database, id: TxId, x: Transaction)
    requires MembershipsInv(db) && PutsPosted(db, db', id, x)
    ensures forall e :: e in x.entries ==> e.id !in CompletedIds(db)
  {
    forall m, e | m in db.memberships && e in x.entries ensures m.entry != e.id {
      var t, i :| Located(db, m, t, i);
      assert EntryAt(db, t, i, m.entry);
      assert HasEntry(db, m.entry);
    }
  }

  lemma PutKeepsStates(db: Database, db': Database, id: TxId, x: Transaction)
    requires RowsInv(db) && MembershipsInv(db) && StatesInv(db) && PutsPosted(db, db', id, x)
    ensures StatesInv(db')
  {
    PutUncompleted(db, db', id, x);
    forall t | t in db'.transactions ensures StateOk(db', db'.transactions[t]) {
      if t != id {
        assert db'.transactions[t] == db.transactions[t];
        StateExtends(db, db', db.transactions[t]);
      }
    }
  }

  lemma PutKeeps(db: Database, db': Database, id: TxId, x: Transaction)
    requires LedgerInv(db) && PutsPosted(db, db', id, x) && x.kind != Reversal
    ensures LedgerInv(db')
  {
    hide CatalogInv, RowsInv, EntryIdsInv, LinksInv, MembershipsInv, StatesInv, Shape;
    PutKeepsRows(db, db', id, x);
    PutKeepsEntryIds(db, db', id, x);
    PutKeepsLinks(db, db', id, x);
    MembershipsExtend(db, db');
    PutKeepsStates(db, db', id, x);
  }

  // What the recipes build

  lemma EquityEnsured(db: Database, space: SpaceId)
    requires CatalogInv(db) && EnsureEquity(db, space).Ok?
    ensures var db' := EnsureEquity(db, space).value;
            && CatalogInv(db') && CatalogExtends(db, db') && CatalogOnly(db, db')
            && OpeningEquity(space) in db'.accounts && db'.accounts[OpeningEquity(space)].space == space
  {
    hide AccountNameTaken;
  }

  // A pair of entries as a recipe writes it, before it is stored in id order.
  ghost predicate PairOf(db: Database, x: Transaction, a: Entry, b: Entry) {
    && x.entries == [a, b]
    && a.space == b.space == x.space
    && a.amount == b.amount > 0
    && a.side != b.side
    && a.target != b.target
    && TargetExists(db, a) && TargetExists(db, b)
    && (Ordinary(a) || Ordinary(b))
    && (x.cashDate.None? <==> Technical(a) || Technical(b))
    && (x.kind == Opening ==> x.cashDate.None?)
    && (x.cashDate.None? ==> x.kind == Opening || x.kind == Reversal)
  }

  lemma StoredShape(db: Database, x: Transaction, a: Entry, b: Entry)
    requires PairOf(db, x, a, b) && a.id != b.id
    ensures Shape(db, x.(entries := StoredOrder(x.entries)))
    ensures forall e :: e in StoredOrder(x.entries) ==> e == a || e == b
  {
    StoredPair(a, b);
  }

  ghost predicate Builds(db: Database, build: Build) {
    && CatalogInv(build.db) && CatalogExtends(db, build.db) && CatalogOnly(db, build.db)
    && build.tx.state == Posted && build.tx.kind != Reversal
    && |build.tx.entries| == 2
    && PairOf(build.db, build.tx, build.tx.entries[0], build.tx.entries[1])
  }

  lemma OpeningBuilds(db: Database, space: SpaceId, id: AccountId, amount: Cents, economicDate: Date,
                      description: string, supply: Supply)
    requires CatalogInv(db)
    ensures var r := BuildOpening(db, space, id, amount, economicDate, description, supply);
            r.Ok? ==> Builds(db, r.value) && r.value.tx.space == space
  {
    if ActiveAccount(db, space, id).Ok? && EnsureEquity(db, space).Ok? {
      EquityEnsured(db, space);
    }
  }

  lemma MovementBuilds(db: Database, kind: Kind, space: SpaceId, account: AccountId, category: CategoryId,
                       amount: Cents, economicDate: Date, cashDate: Date, description: string, supply: Supply)
    requires CatalogInv(db) && (kind == Income || kind == Expense)
    requires ActiveAccount(db, space, account).Ok? && ActiveCategory(db, space, category).Ok?
    requires MovementEntries(kind, space, account, category, amount, supply).Ok?
    ensures var entries := MovementEntries(kind, space, account, category, amount, supply).value;
            var r := PostedTransaction(space, kind, economicDate, Some(cashDate), description, entries);
            r.Ok? ==> Builds(db, Build(db, r.value)) && r.value.space == space
  {
  }

  lemma TransferBuilds(db: Database, space: SpaceId, source: AccountId, destination: AccountId, amount: Cents,
                       economicDate: Date, cashDate: Date, description: string, id0: EntryId, id1: EntryId)
    requires CatalogInv(db)
    requires ActiveAccount(db, space, source).Ok? && ActiveAccount(db, space, destination).Ok?
    requires TransferEntries(space, source, destination, amount, id0, id1).Ok?
    ensures var entries := TransferEntries(space, source, destination, amount, id0, id1).value;
            var r := PostedTransaction(space, Transfer, economicDate, Some(cashDate), description, entries);
            r.Ok? ==> Builds(db, Build(db, r.value)) && r.value.space == space
  {
  }

  lemma DraftBuilds(db: Database, space: SpaceId, id: TxId, cashDate: Option<Date>, supply: Supply)
    requires CatalogInv(db)
    ensures var r := BuildDraft(db, space, id, cashDate, supply);
            r.Ok? ==> Builds(db, r.value) && r.value.tx.space == space
  {
    if GetTransaction(db, space, id).Ok? && GetDetails(db, space, id).Ok? {
      var r := RequestOf(db.transactions[id], db.details[id], cashDate);
      if ValidateSelections(db, r).Ok? && r.account.Some? {
        var cash := DefaultDate(r.cashDate, r.economicDate);
        match r.kind
        case Opening =>
          OpeningBuilds(db, r.space, r.account.value, r.amount, r.economicDate, r.description, supply);
        case Income =>
          if MovementEntries(r.kind, r.space, r.account.value, r.category.value, r.amount, supply).Ok? {
            MovementBuilds(db, r.kind, r.space, r.account.value, r.category.value, r.amount, r.economicDate, cash,
                           r.description, supply);
          }
        case Expense =>
          if MovementEntries(r.kind, r.space, r.account.value, r.category.value, r.amount, supply).Ok? {
            MovementBuilds(db, r.kind, r.space, r.account.value, r.category.value, r.amount, r.economicDate, cash,
                           r.description, supply);
          }
        case Transfer =>
          var id0, id1 := EntryId(supply.entry0, 0), EntryId(supply.entry1, 0);
          if TransferEntries(r.space, r.account.value, r.destination.value, r.amount, id0, id1).Ok? {
            TransferBuilds(db, r.space, r.account.value, r.destination.value, r.amount, r.economicDate, cash,
                           r.description, id0, id1);
          }
        case Reversal =>
      }
    }
  }

  lemma PostingBuilds(db: Database, c: Command, supply: Supply)
    requires CatalogInv(db) && !c.Reverse?
    ensures var r := BuildPosting(db, c, supply); r.Ok? ==> Builds(db, r.value) && r.value.tx.space == c.space
  {
    match c
    case CreateOpening(space, account, amount, economicDate, description) =>
      OpeningBuilds(db, space, account, amount, economicDate, description, supply);
    case CreateIncome(space, account, category, amount, economicDate, cashDate, description) =>
      if BuildPosting(db, c, supply).Ok? {
        MovementBuilds(db, Income, space, account, category, amount, economicDate,
                       DefaultDate(cashDate, economicDate), description, supply);
      }
    case CreateExpense(space, account, category, amount, economicDate, cashDate, description) =>
      if BuildPosting(db, c, supply).Ok? {
        MovementBuilds(db, Expense, space, account, category, amount, economicDate,
                       DefaultDate(cashDate, economicDate), description, supply);
      }
    case CreateTransfer(space, source, destination, amount, economicDate, cashDate, description) =>
      if BuildPosting(db, c, supply).Ok? {
        TransferBuilds(db, space, source, destination, amount, economicDate, DefaultDate(cashDate, economicDate),
                       description, EntryId(supply.entry0, 0), EntryId(supply.entry1, 0));
      }
    case PostDraft(space, draft, cashDate) =>
      DraftBuilds(db, space, draft, cashDate, supply);
  }

  lemma WritePuts(db: Database, build: Build, db': Database, id: TxId)
    requires Builds(db, build) && !EntriesClash(build.db, build.tx.entries)
    requires id in db.transactions ==> db.transactions[id].state == Draft
    requires var stored := build.tx.(entries := StoredOrder(build.tx.entries));
             db' == build.db.(transactions := db.transactions[id := stored], details := db.details - {id})
    ensures PutsPosted(db, db', id, db'.transactions[id])
  {
    var x := build.tx;
    StoredShape(build.db, x, x.entries[0], x.entries[1]);
    ShapeExtends(build.db, db', db'.transactions[id]);
    var stored := db'.transactions[id].entries;
    forall i | 0 <= i < |stored| ensures !HasEntry(db, stored[i].id) {
      assert stored[i] in StoredOrder(x.entries);
      var j := if stored[i] == x.entries[0] then 0 else 1;
      assert stored[i] == x.entries[j] && !HasEntry(build.db, x.entries[j].id);
      assert forall t, k: nat :: EntryAt(db, t, k, stored[i].id) ==> EntryAt(build.db, t, k, stored[i].id);
    }
  }

  /** Executing a posting command writes one posted transaction of the command's space. */
  lemma ExecutePostingPuts(db: Database, c: Command, supply: Supply)
    requires CatalogInv(db) && RowsInv(db) && !c.Reverse? && ExecutePosting(db, c, supply).Ok?
    ensures var effect := ExecutePosting(db, c, supply).value;
            var id := effect.result.tx;
            && id in effect.db.transactions
            && PutsPosted(db, effect.db, id, effect.db.transactions[id])
            && effect.db.transactions[id].kind != Reversal
            && effect.db.transactions[id].space == c.space
            && effect.result == CommandResult(id, Posted, false, None)
  {
    var build := BuildPosting(db, c, supply).value;
    PostingBuilds(db, c, supply);
    var effect := ExecutePosting(db, c, supply).value;
    var id := effect.result.tx;
    if !c.PostDraft? {
      assert db.details - {id} == db.details;
    }
    WritePuts(db, build, effect.db, id);
  }
}
