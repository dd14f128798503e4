/** Catalog names over whole runs, and the one place where a name stands in the way of a posting. */
module CatalogNames {
  import opened Wrappers
  import opened Ledger
  import opened Database
  import opened Commands
  import opened Invariants
  import opened Machine
  import opened Reachability
  import R = Reconciliation

  // Every name is admissible, and no two accounts and no two categories of a space share one.
  ghost predicate AccountNames(db: Database) {
    forall a :: a in db.accounts ==>
      IsName(db.accounts[a].name) && !AccountNameTaken(db, db.accounts[a].space, db.accounts[a].name, a)
  }

  ghost predicate CategoryNames(db: Database) {
    forall c :: c in db.categories ==>
      IsName(db.categories[c].name) && !CategoryNameTaken(db, db.categories[c].space, db.categories[c].name, c)
  }

  ghost predicate NamesOk(db: Database) {
    AccountNames(db) && CategoryNames(db)
  }

  lemma PutAccountNames(db: Database, id: AccountId, account: Account)
    requires NamesOk(db) && IsName(account.name)
    ensures NamesOk(Committed(db, PutAccount(db, id, account)))
  {
    hide IsName;
    var db' := Committed(db, PutAccount(db, id, account));
    assert CategoryNames(db') by {
      assert forall space, name, c :: CategoryNameTaken(db', space, name, c) == CategoryNameTaken(db, space, name, c);
    }
    if db' != db {
      forall a | a in db'.accounts
        ensures IsName(db'.accounts[a].name) && !AccountNameTaken(db', db'.accounts[a].space, db'.accounts[a].name, a)
      {
      }
    }
  }

  lemma PutCategoryNames(db: Database, id: CategoryId, category: Category)
    requires NamesOk(db) && IsName(category.name)
    ensures NamesOk(Committed(db, PutCategory(db, id, category)))
  {
    hide IsName;
    var db' := Committed(db, PutCategory(db, id, category));
    assert AccountNames(db') by {
      assert forall space, name, a :: AccountNameTaken(db', space, name, a) == AccountNameTaken(db, space, name, a);
    }
    if db' != db {
      forall c | c in db'.categories
        ensures IsName(db'.categories[c].name)
        ensures !CategoryNameTaken(db', db'.categories[c].space, db'.categories[c].name, c)
      {
      }
    }
  }

  lemma FixedNames()
    ensures IsName(EQUITY_NAME) && forall i, e :: IsName(Starters(i, e)[0].name) && IsName(Starters(i, e)[1].name)
  {
  }

  lemma {:induction false} StarterNames(db: Database, space: SpaceId, starters: seq<Starter>)
    requires NamesOk(db) && forall s :: s in starters ==> IsName(s.name)
    ensures NamesOk(Committed(db, EnsureStarters(db, space, starters)))
    decreases |starters|
  {
    hide NamesOk, PutCategory, IsName;
    if starters != [] {
      var n := |starters| - 1;
      StarterNames(db, space, starters[..n]);
      var before := EnsureStarters(db, space, starters[..n]);
      if before.Ok? {
        PutCategoryNames(before.value, starters[n].id, Category(space, starters[n].name, starters[n].kind, false));
      }
    }
  }

  lemma CatalogKeepsNames(db: Database, use: CatalogUse)
    requires NamesOk(db)
    ensures NamesOk(Committed(db, UseCatalog(db, use)))
  {
    hide PutAccount, PutCategory, EnsureStarters, ValidatedName, IsName, NamesOk;
    match use
    case AccountCreation(n, space, name, kind, reconcilable) =>
      if ValidatedName(name).Ok? {
        PutAccountNames(db, Opaque(n), Account(space, ValidatedName(name).value, kind, false, reconcilable));
      }
    case CategoryCreation(id, space, name, kind) =>
      if ValidatedName(name).Ok? {
        PutCategoryNames(db, id, Category(space, ValidatedName(name).value, kind, false));
      }
    case AccountRenaming(space, id, name) =>
      if GetAccount(db, space, id).Ok? && ValidatedName(name).Ok? {
        PutAccountNames(db, id, db.accounts[id].(name := ValidatedName(name).value));
      }
    case CategoryRenaming(space, id, name) =>
      if GetCategory(db, space, id).Ok? && ValidatedName(name).Ok? {
        PutCategoryNames(db, id, db.categories[id].(name := ValidatedName(name).value));
      }
    case AccountArchiving(space, id, archived) =>
      if GetAccount(db, space, id).Ok? {
        NameAt(db);
        PutAccountNames(db, id, db.accounts[id].(archived := archived));
      }
    case CategoryArchiving(space, id, archived) =>
      if GetCategory(db, space, id).Ok? {
        NameAt(db);
        PutCategoryNames(db, id, db.categories[id].(archived := archived));
      }
    case StarterCategories(space, income, expense) =>
      FixedNames();
      StarterNames(db, space, Starters(income, expense));
  }

  lemma NameAt(db: Database)
    requires NamesOk(db)
    ensures forall a :: a in db.accounts ==> IsName(db.accounts[a].name)
    ensures forall c :: c in db.categories ==> IsName(db.categories[c].name)
  {
  }

  // Postings add at most the equity account to the catalog.

  lemma BuildKeepsNames(db: Database, c: Command, supply: Supply)
    requires NamesOk(db) && !c.Reverse? && BuildPosting(db, c, supply).Ok?
    ensures NamesOk(BuildPosting(db, c, supply).value.db)
  {
    hide PostedTransaction, MovementEntries, TransferEntries, OpeningEntries, ValidateSelections, PutAccount, NamesOk,
        IsName;
    FixedNames();
    var space := if c.PostDraft? && c.draft in db.transactions then db.transactions[c.draft].space else c.space;
    PutAccountNames(db, OpeningEquity(space), Account(space, EQUITY_NAME, Equity, false, false));
  }

  lemma SameNames(db: Database, db': Database)
    requires NamesOk(db) && db'.accounts == db.accounts && db'.categories == db.categories
    ensures NamesOk(db')
  {
    hide IsName;
    assert forall space, name, a :: AccountNameTaken(db', space, name, a) == AccountNameTaken(db, space, name, a);
    assert forall space, name, c :: CategoryNameTaken(db', space, name, c) == CategoryNameTaken(db, space, name, c);
  }

  lemma ExecuteKeepsNames(db: Database, c: Command, supply: Supply)
    requires NamesOk(db) && Execute(db, c, supply).Ok?
    ensures NamesOk(Execute(db, c, supply).value.db)
  {
    hide BuildPosting, BuildReversal, EntriesClash, StoredOrder, NamesOk;
    var db' := Execute(db, c, supply).value.db;
    if c.Reverse? {
      SameNames(db, db');
    } else {
      BuildKeepsNames(db, c, supply);
      SameNames(BuildPosting(db, c, supply).value.db, db');
    }
  }

  lemma DeliverKeepsNames(db: Database, call: Call, injected: bool, lost: bool)
    requires LedgerInv(db) && NamesOk(db)
    ensures NamesOk(Deliver(db, call, injected, lost))
  {
    hide LedgerInv, Execute, Deliver, NamesOk;
    var db' := Deliver(db, call, injected, lost);
    var reserved := DeliverSummary(db, call, injected, lost);
    SameNames(db, reserved);
    if db' == db.(keys := db'.keys, audit := db'.audit) {
      SameNames(db, db');
    } else {
      ExecuteKeepsNames(reserved, call.command, call.supply);
      SameNames(Execute(reserved, call.command, call.supply).value.db, db');
    }
  }

  lemma StepKeepsNames(db: Database, s: Step)
    requires LedgerInv(db) && NamesOk(db)
    ensures NamesOk(Apply(db, s))
  {
    hide LedgerInv, Deliver, UseCatalog, NamesOk, R.Check, R.ProjectAffected, ValidateSelections;
    if s.Delivery? {
      DeliverKeepsNames(db, s.call, s.injected, s.lost);
    } else if s.Cataloguing? {
      CatalogKeepsNames(db, s.use);
    } else {
      OthersKeepCatalog(db, s);
      SameNames(db, Apply(db, s));
    }
  }

  lemma CompletingKeepsCatalog(db: Database, c: R.Completion, injected: bool, lost: bool)
    ensures var db' := R.Complete(db, c, injected, lost); db'.accounts == db.accounts && db'.categories == db.categories
  {
    hide R.Check;
  }

  lemma OthersKeepCatalog(db: Database, s: Step)
    requires !s.Delivery? && !s.Cataloguing?
    ensures Apply(db, s).accounts == db.accounts && Apply(db, s).categories == db.categories
  {
    hide R.Complete, ValidateSelections;
    if s.Completing? {
      CompletingKeepsCatalog(db, s.completion, s.injected, s.lost);
    }
  }

  lemma {:induction false} RunKeepsNames(db: Database, steps: seq<Step>)
    requires Inv(db) && NamesOk(db)
    ensures NamesOk(Run(db, steps))
    decreases |steps|
  {
    hide KeysInv, AuditInv, LedgerInv, NamesOk, Apply;
    if steps != [] {
      StepKeepsNames(db, steps[0]);
      ApplyKeeps(db, steps[0]);
      RunKeepsNames(Apply(db, steps[0]), steps[1..]);
    }
  }

  /** In every run, names are admissible and unique among the accounts, and among the categories, of a space. */
  lemma NamesStayUnique(steps: seq<Step>)
    ensures NamesOk(Run(EMPTY, steps))
  {
    EmptyHolds();
    RunKeepsNames(EMPTY, steps);
  }

  /** So archiving and unarchiving an account of the space is never refused. */
  lemma ArchivingSucceeds(steps: seq<Step>, space: SpaceId, id: AccountId, archived: bool)
    ensures SetAccountArchived(Run(EMPTY, steps), space, id, archived).Ok?
       <==> GetAccount(Run(EMPTY, steps), space, id).Ok?
  {
    hide Run;
    NamesStayUnique(steps);
  }

  // What each use of the catalog needs and does

  function Stripped(name: string): string {
    Text.Trimmed(name, IsBlank)
  }

  // The name is admissible and no other account of the space has it.
  predicate FreeAccountName(db: Database, space: SpaceId, name: string, id: AccountId) {
    && 1 <= |name| <= 120
    && forall a :: a in db.accounts && a != id ==> !(db.accounts[a].space == space && db.accounts[a].name == name)
  }

  predicate FreeCategoryName(db: Database, space: SpaceId, name: string, id: CategoryId) {
    && 1 <= |name| <= 120
    && forall c :: c in db.categories && c != id ==> !(db.categories[c].space == space && db.categories[c].name == name)
  }

  // Whether a use of the catalog is accepted.
  predicate Allowed(db: Database, use: CatalogUse) {
    match use
    case AccountCreation(n, space, name, kind, _) =>
      kind != Equity && Opaque(n) !in db.accounts && FreeAccountName(db, space, Stripped(name), Opaque(n))
    case CategoryCreation(id, space, name, _) => id !in db.categories && FreeCategoryName(db, space, Stripped(name), id)
    case AccountRenaming(space, id, name) =>
      id in db.accounts && db.accounts[id].space == space && FreeAccountName(db, space, Stripped(name), id)
    case CategoryRenaming(space, id, name) =>
      id in db.categories && db.categories[id].space == space && FreeCategoryName(db, space, Stripped(name), id)
    case AccountArchiving(space, id, _) => id in db.accounts && db.accounts[id].space == space
    case CategoryArchiving(space, id, _) => id in db.categories && db.categories[id].space == space
    case StarterCategories(space, income, expense) =>
      && (Named(db, space, "Other income") || income !in db.categories)
      && (Named(db, space, "Other expense")
          || (expense !in db.categories && (expense != income || Named(db, space, "Other income"))))
  }

  predicate Named(db: Database, space: SpaceId, name: string) {
    exists c :: c in db.categories && db.categories[c].space == space && db.categories[c].name == name
  }

  // The rows an accepted use leaves.
  function Outcome(db: Database, use: CatalogUse): Database
    requires Allowed(db, use)
  {
    match use
    case AccountCreation(n, space, name, kind, reconcilable) =>
      db.(accounts := db.accounts[Opaque(n) := Account(space, Stripped(name), kind, false, reconcilable)])
    case CategoryCreation(id, space, name, kind) =>
      db.(categories := db.categories[id := Category(space, Stripped(name), kind, false)])
    case AccountRenaming(_, id, name) =>
      var a := db.accounts[id];
      db.(accounts := db.accounts[id := Account(a.space, Stripped(name), a.kind, a.archived, a.reconcilable)])
    case CategoryRenaming(_, id, name) =>
      var c := db.categories[id];
      db.(categories := db.categories[id := Category(c.space, Stripped(name), c.kind, c.archived)])
    case AccountArchiving(_, id, archived) =>
      var a := db.accounts[id];
      db.(accounts := db.accounts[id := Account(a.space, a.name, a.kind, archived, a.reconcilable)])
    case CategoryArchiving(_, id, archived) =>
      var c := db.categories[id];
      db.(categories := db.categories[id := Category(c.space, c.name, c.kind, archived)])
    case StarterCategories(space, income, expense) =>
      var first := if Named(db, space, "Other income") then db.categories
                   else db.categories[income := Category(space, "Other income", IncomeCategory, false)];
      var both := if Named(db, space, "Other expense") then first
                  else first[expense := Category(space, "Other expense", ExpenseCategory, false)];
      db.(categories := both)
  }

  lemma NameIff(name: string)
    ensures ValidatedName(name).Ok? <==> 1 <= |Stripped(name)| <= 120
    ensures ValidatedName(name).Ok? ==> ValidatedName(name).value == Stripped(name)
  {
  }

  lemma StartersAre(db: Database, space: SpaceId, income: CategoryId, expense: CategoryId)
    ensures var use := StarterCategories(space, income, expense);
            && (UseCatalog(db, use).Ok? <==> Allowed(db, use))
            && (Allowed(db, use) ==> UseCatalog(db, use).value == Outcome(db, use))
  {
    var first := EnsureCategory(db, space, "Other income", IncomeCategory, income);
    var starters := Starters(income, expense);
    assert starters[..1][..0] == [];
    assert EnsureStarters(db, space, starters[..1]) == first by {
      assert EnsureStarters(db, space, starters[..1][..0]) == Ok(db);
    }
    assert EnsureStarters(db, space, starters) ==
           if first.Ok? then EnsureCategory(first.value, space, "Other expense", ExpenseCategory, expense) else first;
    StarterIff(db, space, "Other income", IncomeCategory, income);
    if first.Ok? {
      StarterIff(first.value, space, "Other expense", ExpenseCategory, expense);
      NamedStays(db, space, income);
    }
  }

  lemma StarterIff(db: Database, space: SpaceId, name: string, kind: CategoryKind, id: CategoryId)
    ensures EnsureCategory(db, space, name, kind, id).Ok? <==> Named(db, space, name) || id !in db.categories
    ensures Named(db, space, name) ==> EnsureCategory(db, space, name, kind, id) == Ok(db)
    ensures !Named(db, space, name) && id !in db.categories ==>
              EnsureCategory(db, space, name, kind, id)
                == Ok(db.(categories := db.categories[id := Category(space, name, kind, false)]))
  {
    assert HasCategoryNamed(db, space, name) == Named(db, space, name);
    assert CategoryNameTaken(db, space, name, id) ==> Named(db, space, name);
  }

  // Adding one starter does not name the other.
  lemma NamedStays(db: Database, space: SpaceId, income: CategoryId)
    requires Named(db, space, "Other income") || income !in db.categories
    ensures var first := EnsureCategory(db, space, "Other income", IncomeCategory, income).value;
            Named(first, space, "Other expense") == Named(db, space, "Other expense")
  {
    StarterIff(db, space, "Other income", IncomeCategory, income);
    hide EnsureCategory;
    var first := EnsureCategory(db, space, "Other income", IncomeCategory, income).value;
    assert "Other income" != "Other expense" by { assert "Other income"[6] != "Other expense"[6]; }
    if Named(db, space, "Other expense") {
      var c :| c in db.categories && db.categories[c].space == space && db.categories[c].name == "Other expense";
      assert c in first.categories && first.categories[c] == db.categories[c];
    }
  }

  lemma FreeNames(db: Database, space: SpaceId, name: string, a: AccountId, c: CategoryId)
    ensures 1 <= |name| <= 120 ==> (FreeAccountName(db, space, name, a) <==> !AccountNameTaken(db, space, name, a))
    ensures 1 <= |name| <= 120 ==> (FreeCategoryName(db, space, name, c) <==> !CategoryNameTaken(db, space, name, c))
  {
  }

  /**
   In every reachable ledger, a use of the catalog is accepted exactly when its name is admissible and free and its row
   is new, or there, as it must be; and it changes just the name or the flag of that row, or adds the row.
   */
  lemma CatalogUseMeans(steps: seq<Step>, use: CatalogUse)
    ensures var db := Run(EMPTY, steps);
            && (UseCatalog(db, use).Ok? <==> Allowed(db, use))
            && (Allowed(db, use) ==> UseCatalog(db, use).value == Outcome(db, use))
  {
    hide Run, NamesOk;
    var db := Run(EMPTY, steps);
    NamesStayUnique(steps);
    match use
    case AccountCreation(n, space, name, kind, reconcilable) =>
      NameIff(name);
      FreeNames(db, space, Stripped(name), Opaque(n), 0);
      hide ValidatedName, FreeAccountName, AccountNameTaken, Stripped;
    case CategoryCreation(id, space, name, kind) =>
      NameIff(name);
      FreeNames(db, space, Stripped(name), Opaque(0), id);
      hide ValidatedName, FreeCategoryName, CategoryNameTaken, Stripped;
    case AccountRenaming(space, id, name) =>
      NameIff(name);
      FreeNames(db, space, Stripped(name), id, 0);
      hide ValidatedName, FreeAccountName, AccountNameTaken, Stripped;
    case CategoryRenaming(space, id, name) =>
      NameIff(name);
      FreeNames(db, space, Stripped(name), Opaque(0), id);
      hide ValidatedName, FreeCategoryName, CategoryNameTaken, Stripped;
    case AccountArchiving(space, id, archived) => NotTaken(db); hide AccountNameTaken;
    case CategoryArchiving(space, id, archived) => NotTaken(db); hide CategoryNameTaken;
    case StarterCategories(space, income, expense) => StartersAre(db, space, income, expense);
  }

  lemma NotTaken(db: Database)
    requires NamesOk(db)
    ensures forall a :: a in db.accounts ==> !AccountNameTaken(db, db.accounts[a].space, db.accounts[a].name, a)
    ensures forall c :: c in db.categories ==> !CategoryNameTaken(db, db.categories[c].space, db.categories[c].name, c)
  {
  }

  /** Asking for the starter categories again, under any ids, changes nothing. */
  lemma StartersOnce(steps: seq<Step>, space: SpaceId, income: CategoryId, expense: CategoryId, i: CategoryId,
                     e: CategoryId)
    requires UseCatalog(Run(EMPTY, steps), StarterCategories(space, income, expense)).Ok?
    ensures var db' := UseCatalog(Run(EMPTY, steps), StarterCategories(space, income, expense)).value;
            UseCatalog(db', StarterCategories(space, i, e)) == Ok(db')
  {
    hide Run, UseCatalog;
    var db := Run(EMPTY, steps);
    StartersAre(db, space, income, expense);
    var db' := Outcome(db, StarterCategories(space, income, expense));
    BothNamed(db, space, income, expense);
    StartersAre(db', space, i, e);
  }

  lemma BothNamed(db: Database, space: SpaceId, income: CategoryId, expense: CategoryId)
    requires Allowed(db, StarterCategories(space, income, expense))
    ensures var db' := Outcome(db, StarterCategories(space, income, expense));
            Named(db', space, "Other income") && Named(db', space, "Other expense")
  {
    var db' := Outcome(db, StarterCategories(space, income, expense));
    NamedIn(db, db', space, "Other income", income);
    NamedIn(db, db', space, "Other expense", expense);
  }

  lemma NamedIn(db: Database, db': Database, space: SpaceId, name: string, id: CategoryId)
    requires Named(db, space, name) || (id in db'.categories && db'.categories[id].space == space
                                        && db'.categories[id].name == name)
    requires forall c :: c in db.categories ==> c in db'.categories && db'.categories[c] == db.categories[c]
    ensures Named(db', space, name)
  {
    if Named(db, space, name) {
      var c :| c in db.categories && db.categories[c].space == space && db.categories[c].name == name;
      assert c in db'.categories && db'.categories[c].name == name;
    }
  }

  // Openings

  predicate HasAccountNamed(db: Database, space: SpaceId, name: string) {
    exists a :: a in db.accounts && db.accounts[a].space == space && db.accounts[a].name == name
  }

  // No household account stands in the way of the equity account.
  predicate EquityFree(db: Database, space: SpaceId) {
    OpeningEquity(space) in db.accounts || !HasAccountNamed(db, space, EQUITY_NAME)
  }

  /**
   In every reachable ledger an opening can be posted if and only if its account is active, its amount is positive and
   the space has its equity account already or no account that took its name.
   */
  lemma OpeningNeedsItsName(steps: seq<Step>, c: Command, supply: Supply)
    requires c.CreateOpening?
    ensures var db := Run(EMPTY, steps);
            BuildPosting(db, c, supply).Ok?
            <==> ActiveAccount(db, c.space, c.account).Ok? && c.amount > 0 && EquityFree(db, c.space)
  {
    hide Run;
    Reachable(steps);
    PartsOf(Run(EMPTY, steps));
    hide LedgerInv, KeysInv, AuditInv, RowsInv, EntryIdsInv, LinksInv, MembershipsInv, StatesInv;
    OpeningBuilds(Run(EMPTY, steps), c, supply);
  }

  lemma OpeningBuilds(db: Database, c: Command, supply: Supply)
    requires CatalogInv(db) && c.CreateOpening?
    ensures BuildPosting(db, c, supply).Ok?
       <==> ActiveAccount(db, c.space, c.account).Ok? && c.amount > 0 && EquityFree(db, c.space)
  {
    EquityEnsuredIff(db, c.space);
    hide EnsureEquity, EquityFree;
    if ActiveAccount(db, c.space, c.account).Ok? {
      var kind := db.accounts[c.account].kind;
      match kind
      case Asset => PairPosts(db, c, supply, kind);
      case Liability => PairPosts(db, c, supply, kind);
      case Equity =>
    }
  }

  lemma EquityEnsuredIff(db: Database, space: SpaceId)
    requires CatalogInv(db)
    ensures EnsureEquity(db, space).Ok? <==> EquityFree(db, space)
  {
    if OpeningEquity(space) !in db.accounts {
      assert AccountNameTaken(db, space, EQUITY_NAME, OpeningEquity(space)) == HasAccountNamed(db, space, EQUITY_NAME);
    }
  }

  lemma PairPosts(db: Database, c: Command, supply: Supply, kind: AccountKind)
    requires c.CreateOpening? && kind != Equity
    ensures var r := OpeningEntries(c.space, c.account, kind, OpeningEquity(c.space), c.amount,
                                    EntryId(supply.entry0, 0), EntryId(supply.entry1, 0));
            && (r.Ok? <==> c.amount > 0)
            && (r.Ok? ==> PostedTransaction(c.space, Opening, c.economicDate, None, c.description, r.value).Ok?)
  {
    var r := OpeningEntries(c.space, c.account, kind, OpeningEquity(c.space), c.amount,
                            EntryId(supply.entry0, 0), EntryId(supply.entry1, 0));
    if r.Ok? {
      assert r.value[1..][1..] == [];
      assert SignedTotal(r.value[1..]) == r.value[1].Signed() + SignedTotal(r.value[1..][1..]);
    }
  }

  // A run that blocks every opening of a space: one household account is called like the equity account.
  const BLOCKING := [Cataloguing(AccountCreation(0, 0, EQUITY_NAME, Asset, true))]

  /** One account with the reserved name, and no opening of its space can be posted, on any account. */
  lemma ReservedNameBlocksOpenings(c: Command, supply: Supply)
    requires c.CreateOpening? && c.space == 0
    ensures BuildPosting(Run(EMPTY, BLOCKING), c, supply).Err?
    ensures ActiveAccount(Run(EMPTY, BLOCKING), 0, Opaque(0)).Ok?
  {
    Blocked();
    OpeningNeedsItsName(BLOCKING, c, supply);
  }

  lemma Blocked()
    ensures Run(EMPTY, BLOCKING) == EMPTY.(accounts := map[Opaque(0) := Account(0, EQUITY_NAME, Asset, false, true)])
    ensures !EquityFree(Run(EMPTY, BLOCKING), 0)
  {
    assert ValidatedName(EQUITY_NAME) == Ok(EQUITY_NAME);
    hide ValidatedName;
    var db := EMPTY.(accounts := map[Opaque(0) := Account(0, EQUITY_NAME, Asset, false, true)]);
    assert Apply(EMPTY, BLOCKING[0]) == db;
    assert BLOCKING[1..] == [];
    assert Run(db, BLOCKING[1..]) == db;
    assert Opaque(0) in db.accounts && db.accounts[Opaque(0)].name == EQUITY_NAME;
  }
}
