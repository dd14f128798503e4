/** Exactly-once effect of commands that may be delivered, duplicated and interrupted any number of times. */
module Idempotency {
  import opened Wrappers
  import opened Ledger
  import opened Database
  import opened Commands
  import opened Invariants
  import opened Machine
  import opened Reachability
  import R = Reconciliation

  // Databases that differ in their idempotency records and audit log only.
  ghost predicate SameBooks(a: Database, b: Database) {
    b == a.(keys := b.keys, audit := b.audit)
  }

  lemma SameEntries(a: Database, b: Database, entries: seq<Entry>)
    requires SameBooks(a, b)
    ensures EntriesClash(a, entries) == EntriesClash(b, entries)
  {
    assert forall t, i: nat, id :: EntryAt(a, t, i, id) == EntryAt(b, t, i, id);
    assert forall id :: HasEntry(a, id) == HasEntry(b, id);
  }

  // Commands neither read nor write idempotency records and audit events.
  ghost predicate Rebased(a: Database, b: Database, a': Database, b': Database) {
    a' == b'.(keys := a.keys, audit := a.audit) && b' == a'.(keys := b.keys, audit := b.audit)
  }

  ghost predicate SameBuild(a: Database, b: Database, ra: Result<Build>, rb: Result<Build>) {
    if ra.Ok? then rb.Ok? && ra.value.tx == rb.value.tx && Rebased(a, b, ra.value.db, rb.value.db)
    else rb.Err? && ra.error == rb.error
  }

  lemma OpeningRebased(a: Database, b: Database, space: SpaceId, id: AccountId, amount: Cents, economicDate: Date,
                       description: string, supply: Supply)
    requires SameBooks(a, b)
    ensures SameBuild(a, b, BuildOpening(a, space, id, amount, economicDate, description, supply),
                      BuildOpening(b, space, id, amount, economicDate, description, supply))
  {
    hide PostedTransaction, OpeningEntries;
  }

  lemma MovementRebased(a: Database, b: Database, kind: Kind, space: SpaceId, account: AccountId, category: CategoryId,
                        amount: Cents, economicDate: Date, cashDate: Option<Date>, description: string, supply: Supply)
    requires SameBooks(a, b) && (kind == Income || kind == Expense)
    ensures SameBuild(a, b,
              BuildMovement(a, kind, space, account, category, amount, economicDate, cashDate, description, supply),
              BuildMovement(b, kind, space, account, category, amount, economicDate, cashDate, description, supply))
  {
    hide PostedTransaction, MovementEntries;
  }

  lemma TransferRebased(a: Database, b: Database, space: SpaceId, source: AccountId, destination: AccountId,
                        amount: Cents, economicDate: Date, cashDate: Option<Date>, description: string, supply: Supply)
    requires SameBooks(a, b)
    ensures SameBuild(a, b, BuildTransfer(a, space, source, destination, amount, economicDate, cashDate, description,
                                          supply),
                      BuildTransfer(b, space, source, destination, amount, economicDate, cashDate, description, supply))
  {
    hide PostedTransaction, TransferEntries;
  }

  lemma RequestRebased(a: Database, b: Database, r: DraftRequest, supply: Supply)
    requires SameBooks(a, b)
    ensures ValidateSelections(a, r) == ValidateSelections(b, r)
    ensures SameBuild(a, b, BuildFromDraft(a, r, supply), BuildFromDraft(b, r, supply))
  {
    hide PostedTransaction, MovementEntries, TransferEntries, BuildOpening;
    assert ValidateSelections(a, r) == ValidateSelections(b, r);
    hide ValidateSelections;
    if r.account.Some? {
      OpeningRebased(a, b, r.space, r.account.value, r.amount, r.economicDate, r.description, supply);
    }
  }

  lemma PostingRebased(a: Database, b: Database, c: Command, supply: Supply)
    requires SameBooks(a, b) && !c.Reverse?
    ensures SameBuild(a, b, BuildPosting(a, c, supply), BuildPosting(b, c, supply))
  {
    hide BuildOpening, BuildMovement, BuildTransfer, BuildFromDraft, ValidateSelections;
    match c
    case CreateOpening(space, account, amount, economicDate, description) =>
      OpeningRebased(a, b, space, account, amount, economicDate, description, supply);
    case CreateIncome(space, account, category, amount, economicDate, cashDate, description) =>
      MovementRebased(a, b, Income, space, account, category, amount, economicDate, cashDate, description, supply);
    case CreateExpense(space, account, category, amount, economicDate, cashDate, description) =>
      MovementRebased(a, b, Expense, space, account, category, amount, economicDate, cashDate, description, supply);
    case CreateTransfer(space, source, destination, amount, economicDate, cashDate, description) =>
      TransferRebased(a, b, space, source, destination, amount, economicDate, cashDate, description, supply);
    case PostDraft(space, draft, cashDate) =>
      if GetTransaction(a, space, draft).Ok? && GetDetails(a, space, draft).Ok? {
        RequestRebased(a, b, RequestOf(a.transactions[draft], a.details[draft], cashDate), supply);
      }
  }

  ghost predicate SameEffect(a: Database, b: Database, ra: Result<Effect>, rb: Result<Effect>) {
    if ra.Ok? then rb.Ok? && ra.value.result == rb.value.result && Rebased(a, b, ra.value.db, rb.value.db)
    else rb.Err? && ra.error == rb.error
  }

  lemma ExecutePostingRebased(a: Database, b: Database, c: Command, supply: Supply)
    requires SameBooks(a, b) && !c.Reverse?
    ensures SameEffect(a, b, ExecutePosting(a, c, supply), ExecutePosting(b, c, supply))
  {
    hide BuildPosting;
    PostingRebased(a, b, c, supply);
    if BuildPosting(a, c, supply).Ok? {
      var da, db := BuildPosting(a, c, supply).value.db, BuildPosting(b, c, supply).value.db;
      SameEntries(da, db, BuildPosting(a, c, supply).value.tx.entries);
    }
  }

  ghost predicate SameWrite(a: Database, b: Database, ra: Result<Database>, rb: Result<Database>) {
    if ra.Ok? then rb.Ok? && Rebased(a, b, ra.value, rb.value) else rb.Err? && ra.error == rb.error
  }

  lemma AddPostedRebased(a: Database, b: Database, id: TxId, x: Transaction)
    requires SameBooks(a, b)
    ensures SameWrite(a, b, AddPosted(a, id, x), AddPosted(b, id, x))
  {
    SameEntries(a, b, x.entries);
  }

  lemma MarkVoidedRebased(a: Database, b: Database, space: SpaceId, id: TxId)
    requires SameBooks(a, b)
    ensures SameWrite(a, b, MarkVoided(a, space, id), MarkVoided(b, space, id))
  {
  }

  lemma AddLinkRebased(a: Database, b: Database, original: TxId, reversal: TxId)
    requires SameBooks(a, b)
    ensures SameWrite(a, b, AddLink(a, original, reversal), AddLink(b, original, reversal))
  {
  }

  lemma AddReplacementRebased(a: Database, b: Database, c: Command, id: TxId)
    requires SameBooks(a, b) && c.Reverse?
    ensures SameWrite(a, b, AddReplacement(a, c, id), AddReplacement(b, c, id))
  {
  }

  lemma LinkReversalRebased(a: Database, b: Database, c: Command, r: TxId, replacement: TxId)
    requires SameBooks(a, b) && c.Reverse?
    ensures SameWrite(a, b, LinkReversal(a, c, r, replacement), LinkReversal(b, c, r, replacement))
  {
    hide MarkVoided, AddLink, AddReplacement;
    MarkVoidedRebased(a, b, c.space, c.original);
    if MarkVoided(a, c.space, c.original).Ok? {
      var va, vb := MarkVoided(a, c.space, c.original).value, MarkVoided(b, c.space, c.original).value;
      AddLinkRebased(va, vb, c.original, r);
      if AddLink(va, c.original, r).Ok? {
        AddReplacementRebased(AddLink(va, c.original, r).value, AddLink(vb, c.original, r).value, c, replacement);
      }
    }
  }

  lemma ExecuteReversalRebased(a: Database, b: Database, c: Command, supply: Supply)
    requires SameBooks(a, b) && c.Reverse?
    ensures SameEffect(a, b, ExecuteReversal(a, c, supply), ExecuteReversal(b, c, supply))
  {
    hide BuildReversal, EntriesClash, AddPosted, LinkReversal;
    assert GetTransaction(a, c.space, c.original) == GetTransaction(b, c.space, c.original);
    if GetTransaction(a, c.space, c.original).Ok? {
      var r := BuildReversal(a.transactions[c.original], c, supply);
      if r.Ok? {
        AddPostedRebased(a, b, supply.tx, r.value);
        if AddPosted(a, supply.tx, r.value).Ok? {
          LinkReversalRebased(AddPosted(a, supply.tx, r.value).value, AddPosted(b, supply.tx, r.value).value, c,
                              supply.tx, supply.replacement);
        }
      }
    }
  }

  lemma ExecuteRebased(a: Database, b: Database, c: Command, supply: Supply)
    requires SameBooks(a, b)
    ensures SameEffect(a, b, Execute(a, c, supply), Execute(b, c, supply))
  {
    if c.Reverse? {
      ExecuteReversalRebased(a, b, c, supply);
    } else {
      ExecutePostingRebased(a, b, c, supply);
    }
  }

  // Databases that differ in their audit log only.
  ghost predicate SameState(a: Database, b: Database) {
    b == a.(audit := b.audit)
  }

  lemma DeliverSameState(a: Database, b: Database, call: Call, injected: bool, lost: bool)
    requires SameState(a, b)
    ensures SameState(Deliver(a, call, injected, lost), Deliver(b, call, injected, lost))
    ensures Attempt(a, call).Ok? == Attempt(b, call).Ok?
  {
    hide Attempt;
    AttemptSameState(a, b, call);
  }

  lemma AttemptSameState(a: Database, b: Database, call: Call)
    requires SameState(a, b)
    ensures Attempt(a, call).Ok? == Attempt(b, call).Ok?
    ensures Attempt(a, call).Ok? ==> SameState(Attempt(a, call).value.db, Attempt(b, call).value.db)
  {
    hide Execute;
    if Reserve(a, call).Ok? && call.Slot() !in a.keys {
      ExecuteRebased(Reserve(a, call).value.db, Reserve(b, call).value.db, call.command, call.supply);
    }
  }

  lemma CheckSameState(a: Database, b: Database, c: R.Completion)
    requires SameState(a, b)
    ensures R.Check(a, c) == R.Check(b, c)
  {
    assert R.CandidateIds(a, c.space, c.account, c.cutoff) == R.CandidateIds(b, c.space, c.account, c.cutoff);
    assert forall id :: R.MembershipsOf(a, c.space, id) == R.MembershipsOf(b, c.space, id);
    TallyEqual(a.transactions, b.transactions, R.PriorMeasure(a, c.space, c.account, c.cutoff),
               R.PriorMeasure(b, c.space, c.account, c.cutoff));
  }

  lemma ProjectSameState(a: Database, b: Database, space: SpaceId, selected: set<EntryId>)
    requires SameState(a, b)
    ensures SameState(R.ProjectAffected(a, space, selected), R.ProjectAffected(b, space, selected))
  {
    assert forall x :: R.Reprojected(a, x) == R.Reprojected(b, x);
    assert R.ProjectAffected(a, space, selected).transactions == R.ProjectAffected(b, space, selected).transactions;
  }

  lemma AttemptCompletionSameState(a: Database, b: Database, c: R.Completion)
    requires SameState(a, b)
    ensures var ra, rb := R.AttemptCompletion(a, c), R.AttemptCompletion(b, c);
            if ra.Ok? then rb.Ok? && SameState(ra.value, rb.value) else rb.Err?
  {
    hide R.Check, R.ProjectAffected;
    CheckSameState(a, b, c);
    if R.AddCompleted(a, c).Ok? {
      ProjectSameState(R.AddCompleted(a, c).value, R.AddCompleted(b, c).value, c.space, R.Ids(c.selected));
    }
  }

  lemma CompleteSameState(a: Database, b: Database, c: R.Completion, injected: bool, lost: bool)
    requires SameState(a, b)
    ensures SameState(R.Complete(a, c, injected, lost), R.Complete(b, c, injected, lost))
  {
    hide R.AttemptCompletion;
    AttemptCompletionSameState(a, b, c);
  }

  // Two outcomes that are refused alike or leave the same state.
  ghost predicate SameWrites(ra: Result<Database>, rb: Result<Database>) {
    (ra.Ok? <==> rb.Ok?) && (ra.Ok? ==> SameState(ra.value, rb.value))
  }

  lemma CommittedSame(a: Database, b: Database, ra: Result<Database>, rb: Result<Database>)
    requires SameState(a, b) && SameWrites(ra, rb)
    ensures SameState(Committed(a, ra), Committed(b, rb))
  {
  }

  lemma CreateDraftSameState(a: Database, b: Database, id: TxId, request: DraftRequest)
    requires SameState(a, b)
    ensures SameWrites(CreateDraft(a, id, request), CreateDraft(b, id, request))
  {
    assert ValidateSelections(a, request) == ValidateSelections(b, request);
    hide ValidateSelections;
  }

  lemma UpdateDraftSameState(a: Database, b: Database, id: TxId, request: DraftRequest)
    requires SameState(a, b)
    ensures SameWrites(UpdateDraft(a, id, request), UpdateDraft(b, id, request))
  {
    assert ValidateSelections(a, request) == ValidateSelections(b, request);
    hide ValidateSelections;
  }

  lemma DiscardDraftSameState(a: Database, b: Database, space: SpaceId, id: TxId)
    requires SameState(a, b)
    ensures SameWrites(DiscardDraft(a, space, id), DiscardDraft(b, space, id))
  {
  }

  lemma PutAccountSameState(a: Database, b: Database, id: AccountId, account: Account)
    requires SameState(a, b)
    ensures SameWrites(PutAccount(a, id, account), PutAccount(b, id, account))
  {
    assert AccountNameTaken(a, account.space, account.name, id) == AccountNameTaken(b, account.space, account.name, id);
  }

  lemma PutCategorySameState(a: Database, b: Database, id: CategoryId, category: Category)
    requires SameState(a, b)
    ensures SameWrites(PutCategory(a, id, category), PutCategory(b, id, category))
  {
    assert CategoryNameTaken(a, category.space, category.name, id)
      == CategoryNameTaken(b, category.space, category.name, id);
  }

  lemma {:induction false} StartersSameState(a: Database, b: Database, space: SpaceId, starters: seq<Starter>)
    requires SameState(a, b)
    ensures SameWrites(EnsureStarters(a, space, starters), EnsureStarters(b, space, starters))
    decreases |starters|
  {
    if starters != [] {
      hide PutCategory;
      var n := |starters| - 1;
      StartersSameState(a, b, space, starters[..n]);
      var ra, rb := EnsureStarters(a, space, starters[..n]), EnsureStarters(b, space, starters[..n]);
      if ra.Ok? {
        assert HasCategoryNamed(ra.value, space, starters[n].name)
          == HasCategoryNamed(rb.value, space, starters[n].name);
        PutCategorySameState(ra.value, rb.value, starters[n].id,
                             Category(space, starters[n].name, starters[n].kind, false));
      }
    }
  }

  lemma CatalogSameState(a: Database, b: Database, use: CatalogUse)
    requires SameState(a, b)
    ensures SameWrites(UseCatalog(a, use), UseCatalog(b, use))
  {
    hide PutAccount, PutCategory, EnsureStarters, ValidatedName;
    match use
    case AccountCreation(n, space, name, kind, reconcilable) =>
      if ValidatedName(name).Ok? {
        PutAccountSameState(a, b, Opaque(n), Account(space, ValidatedName(name).value, kind, false, reconcilable));
      }
    case CategoryCreation(id, space, name, kind) =>
      if ValidatedName(name).Ok? {
        PutCategorySameState(a, b, id, Category(space, ValidatedName(name).value, kind, false));
      }
    case AccountRenaming(space, id, name) =>
      if GetAccount(a, space, id).Ok? && ValidatedName(name).Ok? {
        PutAccountSameState(a, b, id, a.accounts[id].(name := ValidatedName(name).value));
      }
    case CategoryRenaming(space, id, name) =>
      if GetCategory(a, space, id).Ok? && ValidatedName(name).Ok? {
        PutCategorySameState(a, b, id, a.categories[id].(name := ValidatedName(name).value));
      }
    case AccountArchiving(space, id, archived) =>
      if GetAccount(a, space, id).Ok? {
        PutAccountSameState(a, b, id, a.accounts[id].(archived := archived));
      }
    case CategoryArchiving(space, id, archived) =>
      if GetCategory(a, space, id).Ok? {
        PutCategorySameState(a, b, id, a.categories[id].(archived := archived));
      }
    case StarterCategories(space, income, expense) =>
      StartersSameState(a, b, space, Starters(income, expense));
  }

  /** No use case depends on the audit log. */
  lemma ApplySameState(a: Database, b: Database, s: Step)
    requires SameState(a, b)
    ensures SameState(Apply(a, s), Apply(b, s))
  {
    hide Deliver, R.Complete, UseCatalog, CreateDraft, UpdateDraft, DiscardDraft, SameWrites;
    match s
    case Delivery(call, injected, lost) => DeliverSameState(a, b, call, injected, lost);
    case Completing(completion, injected, lost) => CompleteSameState(a, b, completion, injected, lost);
    case Cataloguing(use) =>
      CatalogSameState(a, b, use);
      CommittedSame(a, b, UseCatalog(a, use), UseCatalog(b, use));
    case DraftCreation(id, request) =>
      CreateDraftSameState(a, b, id, request);
      CommittedSame(a, b, CreateDraft(a, id, request), CreateDraft(b, id, request));
    case DraftUpdate(id, request) =>
      UpdateDraftSameState(a, b, id, request);
      CommittedSame(a, b, UpdateDraft(a, id, request), UpdateDraft(b, id, request));
    case DraftDiscarding(space, id) =>
      DiscardDraftSameState(a, b, space, id);
      CommittedSame(a, b, DiscardDraft(a, space, id), DiscardDraft(b, space, id));
  }

  // The first delivery of its key that succeeds.
  ghost predicate FirstSuccess(db: Database, call: Call, injected: bool) {
    !injected && call.Slot() !in db.keys && Attempt(db, call).Ok?
  }

  // What the recorder calls each command.
  predicate Announces(a: Action, c: Command) {
    && (a == OpeningCreated <==> c.CreateOpening?)
    && (a == IncomeCreated <==> c.CreateIncome?)
    && (a == ExpenseCreated <==> c.CreateExpense?)
    && (a == TransferCreated <==> c.CreateTransfer?)
    && (a == DraftPosted <==> c.PostDraft?)
    && (a == TransactionReversed <==> c.Reverse?)
  }

  // Event e reports that a call failed, and names no transaction.
  predicate ReportsFailure(e: AuditEvent, call: Call) {
    && Announces(e.action, call.command) && !e.success
    && e.space == call.command.space && e.subject == None && e.correlation == call.key
  }

  /** Every other delivery, repeated, conflicting, refused or interrupted, changes nothing but the audit log. */
  lemma OtherDeliveriesOnlyAudit(db: Database, call: Call, injected: bool, lost: bool)
    requires !FirstSuccess(db, call, injected)
    ensures SameState(db, Deliver(db, call, injected, lost))
    ensures var audit := Deliver(db, call, injected, lost).audit;
            if (injected || Attempt(db, call).Err?) && !lost then
              exists e :: audit == db.audit + [e] && ReportsFailure(e, call)
            else audit == db.audit
  {
    hide Execute;
    assert ReportsFailure(FailureEvent(call), call);
  }

  // A schedule without the deliveries that have no effect.
  ghost function Thinned(db: Database, steps: seq<Step>): seq<Step>
    decreases |steps|
  {
    if steps == [] then []
    else
      var rest := Thinned(Apply(db, steps[0]), steps[1..]);
      if steps[0].Delivery? && !FirstSuccess(db, steps[0].call, steps[0].injected) then rest
      else [steps[0]] + rest
  }

  lemma {:induction false} RunSameState(a: Database, b: Database, steps: seq<Step>)
    requires SameState(a, b)
    ensures SameState(Run(a, steps), Run(b, steps))
    decreases |steps|
  {
    if steps != [] {
      ApplySameState(a, b, steps[0]);
      RunSameState(Apply(a, steps[0]), Apply(b, steps[0]), steps[1..]);
    }
  }

  lemma AlwaysSame(db: Database)
    ensures SameState(db, db)
  {
  }

  lemma {:induction false} ThinnedRun(db: Database, steps: seq<Step>)
    ensures SameState(Run(db, steps), Run(db, Thinned(db, steps)))
    decreases |steps|
  {
    hide FirstSuccess, SameState, Apply;
    if steps == [] {
      AlwaysSame(db);
    } else {
      var s, next := steps[0], Apply(db, steps[0]);
      var rest := Thinned(next, steps[1..]);
      ThinnedRun(next, steps[1..]);
      if s.Delivery? && !FirstSuccess(db, s.call, s.injected) {
        AlwaysSame(db);
        DroppedSameState(db, db, s);
        RunSameState(next, db, rest);
        SameTwice(Run(next, steps[1..]), Run(next, rest), Run(db, rest));
      } else {
        assert ([s] + rest)[1..] == rest;
        assert Run(db, [s] + rest) == Run(next, rest);
      }
    }
  }

  lemma SameTwice(a: Database, b: Database, c: Database)
    requires SameState(a, b) && SameState(b, c)
    ensures SameState(a, c)
  {
  }

  // Idempotency records are never changed or removed.
  ghost predicate KeysPersist(db: Database, db': Database) {
    forall k :: k in db.keys ==> k in db'.keys && db'.keys[k] == db.keys[k]
  }

  lemma DeliverKeysPersist(db: Database, call: Call, injected: bool, lost: bool)
    requires LedgerInv(db)
    ensures KeysPersist(db, Deliver(db, call, injected, lost))
    ensures FirstSuccess(db, call, injected) ==> call.Slot() in Deliver(db, call, injected, lost).keys
  {
    hide LedgerInv, Execute;
    if FirstSuccess(db, call, injected) {
      var mid, result := FirstDelivery(db, call);
    } else {
      OtherDeliveriesOnlyAudit(db, call, injected, lost);
    }
  }

  lemma StepKeysPersist(db: Database, s: Step)
    requires LedgerInv(db)
    ensures KeysPersist(db, Apply(db, s))
    ensures s.Delivery? && FirstSuccess(db, s.call, s.injected) ==> s.call.Slot() in Apply(db, s).keys
  {
    hide LedgerInv, Deliver, FirstSuccess, UseCatalog;
    if s.Delivery? {
      DeliverKeysPersist(db, s.call, s.injected, s.lost);
    }
    if s.Cataloguing? {
      PartsOf(db);
      CatalogStep(db, s.use);
    }
  }

  // No key is delivered twice.
  predicate OneEach(steps: seq<Step>) {
    forall i, j | 0 <= i < j < |steps| && steps[i].Delivery? && steps[j].Delivery? ::
      steps[i].call.Slot() != steps[j].call.Slot()
  }

  lemma {:induction false} ThinnedAfterKeys(db: Database, steps: seq<Step>)
    requires Inv(db)
    ensures forall i :: 0 <= i < |Thinned(db, steps)| && Thinned(db, steps)[i].Delivery? ==>
              !Thinned(db, steps)[i].injected && Thinned(db, steps)[i].call.Slot() !in db.keys
    ensures OneEach(Thinned(db, steps))
    decreases |steps|
  {
    hide LedgerInv, KeysInv, AuditInv, Attempt, Apply;
    if steps != [] {
      var next := Apply(db, steps[0]);
      ApplyKeeps(db, steps[0]);
      StepKeysPersist(db, steps[0]);
      ThinnedAfterKeys(next, steps[1..]);
    }
  }

  // Every delivery of a schedule is the first of its key to succeed when its turn comes.
  ghost predicate AllSucceed(db: Database, steps: seq<Step>) {
    forall i :: 0 <= i < |steps| && steps[i].Delivery? ==>
      FirstSuccess(Run(db, steps[..i]), steps[i].call, steps[i].injected)
  }

  lemma SucceedsAlike(a: Database, b: Database, call: Call, injected: bool)
    requires SameState(a, b)
    ensures FirstSuccess(a, call, injected) == FirstSuccess(b, call, injected)
  {
    hide Attempt;
    AttemptSameState(a, b, call);
  }

  lemma AllSucceedCons(db: Database, s: Step, rest: seq<Step>)
    requires s.Delivery? ==> FirstSuccess(db, s.call, s.injected)
    requires AllSucceed(Apply(db, s), rest)
    ensures AllSucceed(db, [s] + rest)
  {
    hide FirstSuccess, Apply;
    var steps := [s] + rest;
    forall i | 0 <= i < |steps| && steps[i].Delivery?
      ensures FirstSuccess(Run(db, steps[..i]), steps[i].call, steps[i].injected)
    {
      if i == 0 {
        assert steps[..0] == [];
      } else {
        assert steps[..i][0] == s && steps[..i][1..] == rest[..i - 1];
        assert Run(db, steps[..i]) == Run(Apply(db, s), rest[..i - 1]);
      }
    }
  }

  /** What is left of a schedule also succeeds, delivery by delivery, when it is run on its own. */
  lemma {:induction false} ThinnedSucceeds(db: Database, own: Database, steps: seq<Step>)
    requires SameState(db, own)
    ensures AllSucceed(own, Thinned(db, steps))
    decreases |steps|
  {
    hide FirstSuccess, Apply, SameState, AllSucceed;
    if steps == [] {
      NoneSucceed(own);
    } else {
      var s, next := steps[0], Apply(db, steps[0]);
      if s.Delivery? && !FirstSuccess(db, s.call, s.injected) {
        DroppedSameState(db, own, s);
        ThinnedSucceeds(next, own, steps[1..]);
      } else {
        ApplySameState(db, own, s);
        if s.Delivery? {
          SucceedsAlike(db, own, s.call, s.injected);
        }
        ThinnedSucceeds(next, Apply(own, s), steps[1..]);
        AllSucceedCons(own, s, Thinned(next, steps[1..]));
      }
    }
  }

  lemma NoneSucceed(db: Database)
    ensures AllSucceed(db, [])
  {
  }

  lemma DroppedSameState(db: Database, own: Database, s: Step)
    requires SameState(db, own) && s.Delivery? && !FirstSuccess(db, s.call, s.injected)
    ensures SameState(Apply(db, s), own)
  {
    hide Deliver, FirstSuccess;
    OtherDeliveriesOnlyAudit(db, s.call, s.injected, s.lost);
  }

  /**
   Exactly once: whatever is delivered, duplicated, interrupted or refused, the final state, audit log aside, is that of
   the schedule with only the first successful delivery of each key left in it, and run on its own each of those
   succeeds.
   */
  lemma ExactlyOnce(steps: seq<Step>)
    ensures var thinned := Thinned(EMPTY, steps);
            && SameState(Run(EMPTY, steps), Run(EMPTY, thinned))
            && OneEach(thinned)
            && AllSucceed(EMPTY, thinned)
  {
    hide AllSucceed;
    EmptyHolds();
    ThinnedSucceeds(EMPTY, EMPTY, steps);
    ThinnedRun(EMPTY, steps);
    ThinnedAfterKeys(EMPTY, steps);
  }

  lemma {:induction false} RunKeysPersist(db: Database, steps: seq<Step>)
    requires Inv(db)
    ensures KeysPersist(db, Run(db, steps))
    decreases |steps|
  {
    hide LedgerInv, KeysInv, AuditInv;
    if steps != [] {
      ApplyKeeps(db, steps[0]);
      StepKeysPersist(db, steps[0]);
      RunKeysPersist(Apply(db, steps[0]), steps[1..]);
    }
  }

  lemma FirstSuccessStored(db: Database, call: Call)
    requires LedgerInv(db) && FirstSuccess(db, call, false)
    ensures var db' := Deliver(db, call, false, false);
            call.Slot() in db'.keys
            && db'.keys[call.Slot()] == IdempotencyRecord(call.command, Some(Attempt(db, call).value.result))
  {
    hide LedgerInv, Execute;
    var mid, result := FirstDelivery(db, call);
  }

  /**
   A repeat of a successful delivery, any number of steps later and with whatever fresh identifiers, returns the first
   result and changes nothing; the same key with another command is refused as a conflict.
   */
  lemma RepeatsReturnTheFirstResult(first: seq<Step>, call: Call, rest: seq<Step>, again: Call)
    requires FirstSuccess(Run(EMPTY, first), call, false) && again.Slot() == call.Slot()
    ensures var db := Run(EMPTY, first);
            var later := Run(Deliver(db, call, false, false), rest);
            var result := Attempt(db, call).value.result;
            if again.command == call.command then
              && Attempt(later, again) == Ok(Effect(later, result.(replayed := true)))
              && Deliver(later, again, false, false) == later
            else Attempt(later, again) == Err(KeyConflict)
  {
    hide LedgerInv, KeysInv, AuditInv, Execute;
    var db := Run(EMPTY, first);
    Reachable(first);
    FirstSuccessStored(db, call);
    DeliverKeeps(db, call, false, false);
    RunKeysPersist(Deliver(db, call, false, false), rest);
    assert call.key != "";
  }

  /** A stored key always has its result: no delivery ever finds its command in progress. */
  lemma NeverInProgress(steps: seq<Step>, call: Call)
    ensures Reserve(Run(EMPTY, steps), call) != Err(KeyInProgress)
  {
    hide LedgerInv, AuditInv, Run;
    Reachable(steps);
    var db := Run(EMPTY, steps);
    if call.Slot() in db.keys {
      assert KeyOk(db, call.Slot(), db.keys[call.Slot()]);
    }
  }

  /**
   Posted transactions, idempotency records and success events are in bijection: each posted transaction is named by
   exactly one record, and each record by exactly one success event, which names the same transaction and the kind of
   command.
   */
  lemma TransactionsKeysEvents(steps: seq<Step>)
    ensures var db := Run(EMPTY, steps);
            && (forall t :: Shown(db, t) ==> exists k :: KeyOf(db, k, t) && forall l :: KeyOf(db, l, t) ==> l == k)
            && (forall k :: k in db.keys ==> exists t :: KeyOf(db, k, t) && Shown(db, t))
            && (forall k :: k in db.keys ==> exists i ::
                  SuccessAt(db, i, k) && forall j: nat :: SuccessAt(db, j, k) ==> j == i)
            && (forall i: nat, k :: SuccessAt(db, i, k) ==> exists t: TxId ::
                  && KeyOf(db, k, t) && db.audit[i].subject == Some(t)
                  && Announces(db.audit[i].action, db.keys[k].command))
  {
    hide LedgerInv;
    Reachable(steps);
    var db := Run(EMPTY, steps);
    forall t | Shown(db, t) ensures exists k :: KeyOf(db, k, t) && forall l :: KeyOf(db, l, t) ==> l == k {
      var k :| KeyOf(db, k, t);
    }
    forall k | k in db.keys ensures exists t :: KeyOf(db, k, t) && Shown(db, t) {
      assert KeyOk(db, k, db.keys[k]) && KeyOf(db, k, db.keys[k].result.value.tx);
    }
    forall k | k in db.keys
      ensures exists i :: SuccessAt(db, i, k) && forall j: nat :: SuccessAt(db, j, k) ==> j == i
    {
      var i :| SuccessAt(db, i, k);
    }
    forall i: nat, k | SuccessAt(db, i, k)
      ensures exists t: TxId ::
                KeyOf(db, k, t) && db.audit[i].subject == Some(t) && Announces(db.audit[i].action, db.keys[k].command)
    {
      assert KeyOf(db, k, db.keys[k].result.value.tx);
    }
  }
}
