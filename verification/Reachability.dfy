/** Every reachable database satisfies the invariants. */
module Reachability {
  import opened Wrappers
  import opened Ledger
  import opened Database
  import opened Commands
  import opened Invariants
  import opened PostingProofs
  import opened ReversalProofs
  import opened CompletionProofs
  import opened Machine
  import R = Reconciliation

  // Exactly one transaction, of the given space, becomes visible.
  ghost predicate NewlyShown(db: Database, db': Database, id: TxId, space: SpaceId) {
    && !Shown(db, id) && Shown(db', id) && db'.transactions[id].space == space
    && (forall t :: t != id ==> (Shown(db, t) <==> Shown(db', t)))
    && (forall t :: Shown(db, t) ==> db'.transactions[t].space == db.transactions[t].space)
  }

  lemma ReversalShows(db: Database, db': Database, o: TxId, r: TxId)
    requires Reverses(db, db', o, r)
    ensures NewlyShown(db, db', r, db.transactions[o].space)
  {
    assert Mirrors(db.transactions[o], db'.transactions[r]);
  }

  lemma PostingShows(db: Database, db': Database, id: TxId)
    requires id in db'.transactions && PutsPosted(db, db', id, db'.transactions[id])
    ensures NewlyShown(db, db', id, db'.transactions[id].space)
  {
  }

  lemma DraftShows(db: Database, db': Database, id: TxId)
    requires DraftOnly(db, db', id)
    ensures forall t :: Shown(db, t) <==> Shown(db', t)
    ensures forall t :: Shown(db, t) && Shown(db', t) ==> db'.transactions[t] == db.transactions[t]
  {
    DraftInvisible(db, db', id);
  }

  lemma ThenDraft(db: Database, mid: Database, db': Database, r: TxId, space: SpaceId, id: TxId)
    requires NewlyShown(db, mid, r, space) && DraftOnly(mid, db', id)
    ensures NewlyShown(db, db', r, space)
  {
    DraftShows(mid, db', id);
  }

  lemma ExecuteReversalKeeps(db: Database, c: Command, supply: Supply)
    requires LedgerInv(db) && c.Reverse? && ExecuteReversal(db, c, supply).Ok?
    ensures var db' := ExecuteReversal(db, c, supply).value.db;
            && LedgerInv(db')
            && NewlyShown(db, db', supply.tx, c.space)
            && db'.keys == db.keys && db'.audit == db.audit
  {
    var db' := ExecuteReversal(db, c, supply).value.db;
    var mid := ExecuteReversalReverses(db, c, supply);
    ReversalShows(db, mid, c.original, supply.tx);
    if db' != mid {
      DraftKeeps(mid, db', supply.replacement);
      ThenDraft(db, mid, db', supply.tx, c.space, supply.replacement);
    }
  }

  lemma ExecuteKeeps(db: Database, c: Command, supply: Supply)
    requires LedgerInv(db) && Execute(db, c, supply).Ok?
    ensures var effect := Execute(db, c, supply).value;
            && LedgerInv(effect.db)
            && NewlyShown(db, effect.db, effect.result.tx, c.space)
            && effect.db.keys == db.keys && effect.db.audit == db.audit
            && effect.result.state == Posted && !effect.result.replayed
  {
    var effect := Execute(db, c, supply).value;
    if c.Reverse? {
      ExecuteReversalKeeps(db, c, supply);
      ExecuteReversalResult(db, c, supply);
    } else {
      ExecutePostingPuts(db, c, supply);
      PutKeeps(db, effect.db, effect.result.tx, effect.db.transactions[effect.result.tx]);
      PostingShows(db, effect.db, effect.result.tx);
    }
  }

  lemma SameLedger(db: Database, db': Database)
    requires LedgerInv(db) && db' == db.(keys := db'.keys, audit := db'.audit)
    ensures LedgerInv(db')
  {
    assert CatalogExtends(db, db');
    RowsExtend(db, db');
    assert forall t, i: nat, e :: EntryAt(db', t, i, e) ==> EntryAt(db, t, i, e);
    SameLinks(db, db');
    MembershipsExtend(db, db');
    forall t | t in db'.transactions ensures StateOk(db', db'.transactions[t]) {
      StateExtends(db, db', db.transactions[t]);
    }
  }

  lemma SameLinks(db: Database, db': Database)
    requires LinksInv(db) && db' == db.(keys := db'.keys, audit := db'.audit)
    ensures LinksInv(db')
  {
    forall o | o in db'.links ensures LinkOk(db', o, db'.links[o]) {
      assert LinkOk(db, o, db.links[o]);
    }
    forall t | IsReversal(db', t) ensures t in db'.links.Values {
      assert IsReversal(db, t);
    }
  }

  lemma CompleteKeyKeeps(db: Database, mid: Database, call: Call, result: CommandResult)
    requires KeysInv(db) && call.Slot() !in db.keys
    requires NewlyShown(db, mid, result.tx, call.command.space) && result.state == Posted && !result.replayed
    requires mid.keys == db.keys[call.Slot() := IdempotencyRecord(call.command, None)]
    ensures KeysInv(CompleteKey(mid, call, result))
  {
    var db' := CompleteKey(mid, call, result);
    assert forall t :: Shown(mid, t) <==> Shown(db', t);
    forall k | k in db'.keys ensures KeyOk(db', k, db'.keys[k]) {
      if k != call.Slot() {
        assert KeyOk(db, k, db.keys[k]);
      }
    }
    forall k, t | KeyOf(db', k, t) ensures if t == result.tx then k == call.Slot() else KeyOf(db, k, t) {
      if k != call.Slot() {
        assert KeyOk(db, k, db.keys[k]);
      }
    }
    forall t | Shown(db', t) ensures exists k :: KeyOf(db', k, t) {
      if t == result.tx {
        assert KeyOf(db', call.Slot(), t);
      } else {
        assert Shown(db, t);
        var k :| KeyOf(db, k, t);
        assert KeyOf(db', k, t);
      }
    }
  }

  lemma SuccessEventKeeps(db: Database, db': Database, k: (SpaceId, Key), event: AuditEvent)
    requires AuditInv(db) && k !in db.keys
    requires IsPosting(event) && (event.space, event.correlation) == k
    requires k in db'.keys && db'.keys == db.keys[k := db'.keys[k]] && db'.audit == db.audit + [event]
    requires db'.keys[k].result.Some? && event.subject == Some(db'.keys[k].result.value.tx)
    requires event.action == db'.keys[k].command.Action()
    ensures AuditInv(db')
  {
    var last := |db.audit|;
    assert db'.audit[last] == event && SuccessAt(db', last, k);
    assert forall i: nat, l :: i < last ==> (SuccessAt(db', i, l) <==> SuccessAt(db, i, l));
    assert forall i: nat :: !SuccessAt(db, i, k);
    forall l | l in db'.keys ensures exists i :: SuccessAt(db', i, l) {
      if l != k {
        var i :| SuccessAt(db, i, l);
        assert SuccessAt(db', i, l);
      }
    }
  }

  lemma OtherEventKeeps(db: Database, db': Database, event: AuditEvent)
    requires AuditInv(db) && !IsPosting(event) && db'.keys == db.keys && db'.audit == db.audit + [event]
    ensures AuditInv(db')
  {
    assert forall i: nat, k :: SuccessAt(db', i, k) <==> SuccessAt(db, i, k);
    forall k | k in db'.keys ensures exists i :: SuccessAt(db', i, k) {
      var i :| SuccessAt(db, i, k);
      assert SuccessAt(db', i, k);
    }
  }

  lemma SameEvents(db: Database, db': Database)
    requires AuditInv(db) && db'.keys == db.keys && db'.audit == db.audit
    ensures AuditInv(db')
  {
    assert forall i: nat, k :: SuccessAt(db', i, k) <==> SuccessAt(db, i, k);
    forall k | k in db'.keys ensures exists i :: SuccessAt(db', i, k) {
      var i :| SuccessAt(db, i, k);
      assert SuccessAt(db', i, k);
    }
  }

  lemma SameKeys(db: Database, db': Database)
    requires KeysInv(db) && db'.keys == db.keys
    requires forall t :: Shown(db, t) <==> Shown(db', t)
    requires forall t :: Shown(db, t) && Shown(db', t) ==> db'.transactions[t].space == db.transactions[t].space
    ensures KeysInv(db')
  {
    forall k | k in db'.keys ensures KeyOk(db', k, db'.keys[k]) {
      assert KeyOk(db, k, db.keys[k]);
    }
    assert forall k, t :: KeyOf(db', k, t) <==> KeyOf(db, k, t);
    forall t | Shown(db', t) ensures exists k :: KeyOf(db', k, t) {
      var k :| KeyOf(db, k, t);
      assert KeyOf(db', k, t);
    }
  }

  /** The first delivery of a key shows one more transaction, which its record and its audit event name. */
  lemma FirstDelivery(db: Database, call: Call) returns (mid: Database, result: CommandResult)
    requires LedgerInv(db) && call.Slot() !in db.keys && Attempt(db, call).Ok?
    ensures Attempt(db, call).value
         == Effect(Record(CompleteKey(mid, call, result), SuccessEvent(call, result)), result)
    ensures LedgerInv(mid) && NewlyShown(db, mid, result.tx, call.command.space)
    ensures result.state == Posted && !result.replayed
    ensures mid.keys == db.keys[call.Slot() := IdempotencyRecord(call.command, None)] && mid.audit == db.audit
  {
    var reserved := Reserve(db, call).value.db;
    SameLedger(db, reserved);
    ExecuteKeeps(reserved, call.command, call.supply);
    var effect := Execute(reserved, call.command, call.supply).value;
    mid, result := effect.db, effect.result;
    assert forall t :: Shown(db, t) <==> Shown(reserved, t);
  }

  lemma RecordedKeyKeeps(db: Database, mid: Database, call: Call, result: CommandResult)
    requires KeysInv(db) && call.Slot() !in db.keys
    requires NewlyShown(db, mid, result.tx, call.command.space) && result.state == Posted && !result.replayed
    requires mid.keys == db.keys[call.Slot() := IdempotencyRecord(call.command, None)]
    ensures KeysInv(Record(CompleteKey(mid, call, result), SuccessEvent(call, result)))
  {
    var keyed := CompleteKey(mid, call, result);
    var db' := Record(keyed, SuccessEvent(call, result));
    CompleteKeyKeeps(db, mid, call, result);
    assert forall t :: Shown(keyed, t) <==> Shown(db', t);
    SameKeys(keyed, db');
  }

  lemma ReplayedUnchanged(db: Database, call: Call)
    requires call.Slot() in db.keys && Attempt(db, call).Ok?
    ensures Attempt(db, call).value.db == db
  {
  }

  lemma AttemptKeeps(db: Database, call: Call)
    requires Inv(db) && Attempt(db, call).Ok?
    ensures Inv(Attempt(db, call).value.db)
  {
    hide LedgerInv, CatalogInv, RowsInv, EntryIdsInv, LinksInv, MembershipsInv, StatesInv, KeysInv, AuditInv, Attempt;
    if call.Slot() in db.keys {
      ReplayedUnchanged(db, call);
    } else {
      var mid, result := FirstDelivery(db, call);
      var db' := Record(CompleteKey(mid, call, result), SuccessEvent(call, result));
      assert KeysInv(db') by { RecordedKeyKeeps(db, mid, call, result); }
      assert AuditInv(db') by { SuccessEventKeeps(db, db', call.Slot(), SuccessEvent(call, result)); }
      assert LedgerInv(db') by { SameLedger(mid, db'); }
    }
  }

  /**
   A delivery leaves everything but keys and audit as it was, or is the first success of its key: the execution of its
   command over the database with the key reserved.
   */
  lemma DeliverSummary(db: Database, call: Call, injected: bool, lost: bool) returns (reserved: Database)
    requires LedgerInv(db)
    ensures LedgerInv(reserved) && reserved == db.(keys := reserved.keys)
    ensures var db' := Deliver(db, call, injected, lost);
            || db' == db.(keys := db'.keys, audit := db'.audit)
            || (Execute(reserved, call.command, call.supply).Ok?
                && var mid := Execute(reserved, call.command, call.supply).value.db;
                   db' == mid.(keys := db'.keys, audit := db'.audit))
  {
    hide CatalogInv, RowsInv, EntryIdsInv, LinksInv, MembershipsInv, StatesInv, Execute;
    reserved := db;
    if !injected && Attempt(db, call).Ok? && call.Slot() !in db.keys {
      reserved := Reserve(db, call).value.db;
      SameLedger(db, reserved);
    }
  }

  lemma DeliverKeeps(db: Database, call: Call, injected: bool, lost: bool)
    requires Inv(db)
    ensures Inv(Deliver(db, call, injected, lost))
  {
    if injected || Attempt(db, call).Err? {
      if !lost {
        var db' := Record(db, FailureEvent(call));
        SameLedger(db, db');
        OtherEventKeeps(db, db', FailureEvent(call));
        assert forall t :: Shown(db, t) <==> Shown(db', t);
        SameKeys(db, db');
      }
    } else {
      AttemptKeeps(db, call);
    }
  }

  lemma CompleteKeeps(db: Database, c: R.Completion, injected: bool, lost: bool)
    requires Inv(db)
    ensures Inv(R.Complete(db, c, injected, lost))
  {
    var db' := R.Complete(db, c, injected, lost);
    if injected || R.AttemptCompletion(db, c).Err? {
      if !lost {
        SameLedger(db, db');
        OtherEventKeeps(db, db', R.CompletionEvent(c, false));
      }
      assert forall t :: Shown(db, t) <==> Shown(db', t);
    } else {
      CompletionKeeps(db, c);
      var mid := Completed(db, c);
      assert db' == mid.(audit := mid.audit + [R.CompletionEvent(c, true)]);
      SameLedger(mid, db');
      OtherEventKeeps(db, db', R.CompletionEvent(c, true));
      assert forall t :: Shown(db, t) <==> Shown(db', t);
    }
    SameKeys(db, db');
  }

  lemma CatalogStepKeeps(db: Database, db': Database)
    requires Inv(db) && CatalogExtends(db, db') && CatalogOnly(db, db') && CatalogInv(db')
    ensures Inv(db')
  {
    CatalogKeeps(db, db');
    assert forall t :: Shown(db, t) <==> Shown(db', t);
    SameKeys(db, db');
    SameEvents(db, db');
  }

  lemma DraftStepKeeps(db: Database, db': Database, id: TxId)
    requires Inv(db) && DraftOnly(db, db', id)
    ensures Inv(db')
  {
    DraftKeeps(db, db', id);
    DraftInvisible(db, db', id);
    assert forall t :: Shown(db, t) <==> Shown(db', t);
    SameKeys(db, db');
    SameEvents(db, db');
  }

  lemma CreateDraftIsDraft(db: Database, id: TxId, request: DraftRequest)
    requires RowsInv(db) && CreateDraft(db, id, request).Ok?
    ensures DraftOnly(db, CreateDraft(db, id, request).value, id)
  {
  }

  lemma UpdateDraftIsDraft(db: Database, id: TxId, request: DraftRequest)
    requires RowsInv(db) && UpdateDraft(db, id, request).Ok?
    ensures DraftOnly(db, UpdateDraft(db, id, request).value, id)
  {
    var db' := UpdateDraft(db, id, request).value;
    assert db'.transactions - {id} == db.transactions - {id};
    assert db'.details - {id} == db.details - {id};
  }

  lemma DiscardDraftIsDraft(db: Database, space: SpaceId, id: TxId)
    requires RowsInv(db) && DiscardDraft(db, space, id).Ok?
    ensures DraftOnly(db, DiscardDraft(db, space, id).value, id)
  {
  }

  ghost predicate CatalogGrows(db: Database, db': Database) {
    CatalogExtends(db, db') && CatalogOnly(db, db') && CatalogInv(db')
  }

  lemma PutAccountGrows(db: Database, id: AccountId, account: Account)
    requires CatalogInv(db) && id.Opaque? && account.kind != Equity
    requires id in db.accounts ==>
               db.accounts[id] == account.(name := db.accounts[id].name, archived := db.accounts[id].archived)
    ensures CatalogGrows(db, Committed(db, PutAccount(db, id, account)))
  {
    hide AccountNameTaken;
  }

  lemma PutEquityGrows(db: Database, id: AccountId, account: Account)
    requires CatalogInv(db) && id.OpeningEquity? && id in db.accounts
    requires db.accounts[id] == account.(name := db.accounts[id].name, archived := db.accounts[id].archived)
    ensures CatalogGrows(db, Committed(db, PutAccount(db, id, account)))
  {
    hide AccountNameTaken;
  }

  lemma PutCategoryGrows(db: Database, id: CategoryId, category: Category)
    requires CatalogInv(db)
    requires id in db.categories ==>
               db.categories[id] == category.(name := db.categories[id].name, archived := db.categories[id].archived)
    ensures CatalogGrows(db, Committed(db, PutCategory(db, id, category)))
  {
    hide CategoryNameTaken;
  }

  lemma UpdateAccountGrows(db: Database, space: SpaceId, id: AccountId, account: Account)
    requires CatalogInv(db) && GetAccount(db, space, id).Ok?
    requires account == db.accounts[id].(name := account.name, archived := account.archived)
    ensures CatalogGrows(db, Committed(db, PutAccount(db, id, account)))
  {
    hide PutAccount, CatalogGrows;
    if id.Opaque? {
      PutAccountGrows(db, id, account);
    } else {
      PutEquityGrows(db, id, account);
    }
  }

  lemma CatalogGrowsTwice(db: Database, mid: Database, db': Database)
    requires CatalogGrows(db, mid) && CatalogGrows(mid, db')
    ensures CatalogGrows(db, db')
  {
  }

  lemma SameCatalogGrows(db: Database)
    requires CatalogInv(db)
    ensures CatalogGrows(db, db)
  {
  }

  lemma EnsureCategoryGrows(db: Database, space: SpaceId, name: string, kind: CategoryKind, id: CategoryId)
    requires CatalogInv(db)
    ensures CatalogGrows(db, Committed(db, EnsureCategory(db, space, name, kind, id)))
  {
    hide PutCategory, CatalogGrows, HasCategoryNamed;
    SameCatalogGrows(db);
    if id !in db.categories {
      PutCategoryGrows(db, id, Category(space, name, kind, false));
    }
  }

  /** No use of the catalog touches more than the catalog, whose rows keep their space, kind and reconcilable flag. */
  lemma CatalogStep(db: Database, use: CatalogUse)
    requires CatalogInv(db)
    ensures CatalogGrows(db, Committed(db, UseCatalog(db, use)))
  {
    hide PutAccount, PutCategory, CatalogGrows, CatalogInv, EnsureStarters;
    SameCatalogGrows(db);
    match use
    case AccountCreation(n, space, name, kind, reconcilable) =>
      if kind != Equity && ValidatedName(name).Ok? && Opaque(n) !in db.accounts {
        PutAccountGrows(db, Opaque(n), Account(space, ValidatedName(name).value, kind, false, reconcilable));
      }
    case CategoryCreation(id, space, name, kind) =>
      if ValidatedName(name).Ok? && id !in db.categories {
        PutCategoryGrows(db, id, Category(space, ValidatedName(name).value, kind, false));
      }
    case AccountRenaming(space, id, name) =>
      if GetAccount(db, space, id).Ok? && ValidatedName(name).Ok? {
        UpdateAccountGrows(db, space, id, db.accounts[id].(name := ValidatedName(name).value));
      }
    case CategoryRenaming(space, id, name) =>
      if GetCategory(db, space, id).Ok? && ValidatedName(name).Ok? {
        PutCategoryGrows(db, id, db.categories[id].(name := ValidatedName(name).value));
      }
    case AccountArchiving(space, id, archived) =>
      if GetAccount(db, space, id).Ok? {
        UpdateAccountGrows(db, space, id, db.accounts[id].(archived := archived));
      }
    case CategoryArchiving(space, id, archived) =>
      if GetCategory(db, space, id).Ok? {
        PutCategoryGrows(db, id, db.categories[id].(archived := archived));
      }
    case StarterCategories(space, income, expense) =>
      StartersGrow(db, space, Starters(income, expense));
  }

  lemma {:induction false} StartersGrow(db: Database, space: SpaceId, starters: seq<Starter>)
    requires CatalogInv(db)
    ensures CatalogGrows(db, Committed(db, EnsureStarters(db, space, starters)))
    decreases |starters|
  {
    hide EnsureCategory;
    SameCatalogGrows(db);
    if starters != [] {
      var n := |starters| - 1;
      StartersGrow(db, space, starters[..n]);
      var before := EnsureStarters(db, space, starters[..n]);
      if before.Ok? {
        EnsureCategoryGrows(before.value, space, starters[n].name, starters[n].kind, starters[n].id);
        CatalogGrowsTwice(db, before.value, Committed(before.value,
                          EnsureCategory(before.value, space, starters[n].name, starters[n].kind, starters[n].id)));
      }
    }
  }

  // The draft a step is about, when it is not refused.
  lemma DraftStep(db: Database, s: Step)
    requires RowsInv(db) && (s.DraftCreation? || s.DraftUpdate? || s.DraftDiscarding?)
    ensures DraftOnly(db, Apply(db, s), s.draft) || Apply(db, s) == db
  {
    if s.DraftCreation? && CreateDraft(db, s.draft, s.request).Ok? {
      CreateDraftIsDraft(db, s.draft, s.request);
    }
    if s.DraftUpdate? && UpdateDraft(db, s.draft, s.request).Ok? {
      UpdateDraftIsDraft(db, s.draft, s.request);
    }
    if s.DraftDiscarding? && DiscardDraft(db, s.space, s.draft).Ok? {
      DiscardDraftIsDraft(db, s.space, s.draft);
    }
  }

  /** Every step keeps every invariant, whether it succeeds, is refused or fails midway. */
  lemma ApplyKeeps(db: Database, s: Step)
    requires Inv(db)
    ensures Inv(Apply(db, s))
  {
    if s.Delivery? {
      DeliverKeeps(db, s.call, s.injected, s.lost);
    } else if s.Completing? {
      CompleteKeeps(db, s.completion, s.injected, s.lost);
    } else if s.DraftCreation? || s.DraftUpdate? || s.DraftDiscarding? {
      DraftStep(db, s);
      if Apply(db, s) != db {
        DraftStepKeeps(db, Apply(db, s), s.draft);
      }
    } else {
      CatalogStep(db, s.use);
      CatalogStepKeeps(db, Apply(db, s));
    }
  }

  lemma {:induction false} RunKeeps(db: Database, steps: seq<Step>)
    requires Inv(db)
    ensures Inv(Run(db, steps))
    decreases |steps|
  {
    if steps != [] {
      ApplyKeeps(db, steps[0]);
      RunKeeps(Apply(db, steps[0]), steps[1..]);
    }
  }

  /** The invariants hold in every database any run reaches from the empty one. */
  lemma Reachable(steps: seq<Step>)
    ensures Inv(Run(EMPTY, steps))
  {
    EmptyHolds();
    RunKeeps(EMPTY, steps);
  }
}
