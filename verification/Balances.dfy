/** What reconciled balances are made of: partition of an account's effects, and completed balances as running sums. */
module Balances {
  import opened Wrappers
  import opened Ledger
  import opened Database
  import opened Commands
  import opened Invariants
  import opened ReversalProofs
  import opened CompletionProofs
  import opened Machine
  import opened Reachability
  import opened Lifecycle
  import opened Reconciliation

  // The date that decides whether a posted transaction is eligible: an income, expense or transfer counts by its cash
  // date.
  predicate DatedUpTo(x: Transaction, cutoff: Date) {
    match x.kind
    case Opening => x.economicDate <= cutoff
    case Income => x.cashDate.Some? && x.cashDate.value <= cutoff
    case Expense => x.cashDate.Some? && x.cashDate.value <= cutoff
    case Transfer => x.cashDate.Some? && x.cashDate.value <= cutoff
    case Reversal => (if x.cashDate.Some? then x.cashDate.value else x.economicDate) <= cutoff
  }

  // The posted effects of an account up to a cutoff, completed or not.
  predicate Eligible(space: SpaceId, account: AccountId, cutoff: Date, x: Transaction, e: Entry) {
    && x.space == space && e.space == space
    && (x.state == Posted || x.state == Reconciled || x.state == Voided)
    && e.target == ToAccount(account)
    && DatedUpTo(x, cutoff)
  }

  function EligibleMeasure(space: SpaceId, account: AccountId, cutoff: Date): Measure {
    (x: Transaction, e: Entry) => if Eligible(space, account, cutoff, x, e) then e.Signed() else 0
  }

  lemma EligibleIsOnAccount(db: Database, space: SpaceId, account: AccountId, cutoff: Date, x: Transaction, e: Entry)
    requires RowOk(db, x) && e in x.entries
    ensures Eligible(space, account, cutoff, x, e) <==> OnAccount(space, account, cutoff, x, e)
  {
  }

  /**
   In every reachable ledger, the entries a reconciliation may select are exactly those not completed yet that are
   posted on the account by the cutoff: by the economic date for an opening and for a reversal of one, by the cash date
   for all others.
   */
  lemma CandidatesByDate(steps: seq<Step>, space: SpaceId, account: AccountId, cutoff: Date, t: TxId, i: nat)
    requires t in Run(EMPTY, steps).transactions && i < |Run(EMPTY, steps).transactions[t].entries|
    ensures var db := Run(EMPTY, steps);
            var (x, e) := (db.transactions[t], db.transactions[t].entries[i]);
            e.id in CandidateIds(db, space, account, cutoff)
            <==> e.id !in CompletedIds(db) && Eligible(space, account, cutoff, x, e)
  {
    hide Run, Inv, Shape, OnAccount, Eligible;
    var db := Run(EMPTY, steps);
    Reachable(steps);
    PartsOf(db) by { LedgerOf(db); }
    CandidateAtRow(db, space, account, cutoff, t, i);
  }

  lemma CandidateAtRow(db: Database, space: SpaceId, account: AccountId, cutoff: Date, t: TxId, i: nat)
    requires RowsInv(db) && EntryIdsInv(db) && t in db.transactions && i < |db.transactions[t].entries|
    ensures var (x, e) := (db.transactions[t], db.transactions[t].entries[i]);
            e.id in CandidateIds(db, space, account, cutoff)
            <==> e.id !in CompletedIds(db) && Eligible(space, account, cutoff, x, e)
  {
    hide OnAccount, Eligible, CompletedIds;
    var x, e := db.transactions[t], db.transactions[t].entries[i];
    assert RowOk(db, x) && x.Visible();
    EligibleIsOnAccount(db, space, account, cutoff, x, e);
    if e.id in CandidateIds(db, space, account, cutoff) {
      var u, j :| u in db.transactions && 0 <= j < |db.transactions[u].entries|
                  && IsCandidate(CompletedIds(db), space, account, cutoff, db.transactions[u],
                                 db.transactions[u].entries[j])
                  && db.transactions[u].entries[j].id == e.id;
      assert EntryAt(db, u, j, e.id) && EntryAt(db, t, i, e.id);
    }
  }

  ghost function EligibleCents(db: Database, space: SpaceId, account: AccountId, cutoff: Date): Cents {
    Tally(db.transactions, EligibleMeasure(space, account, cutoff))
  }

  // The completed ones among them, each counted once.
  function CompletedMeasure(completed: set<EntryId>, space: SpaceId, account: AccountId, cutoff: Date): Measure {
    (x: Transaction, e: Entry) => if OnAccount(space, account, cutoff, x, e) && e.id in completed then e.Signed() else 0
  }

  /** An entry of a posted transaction has one membership if it is completed and none otherwise. */
  lemma MembershipCount(db: Database, t: TxId, i: nat)
    requires EntryIdsInv(db) && MembershipsInv(db) && RowsInv(db)
    requires t in db.transactions && i < |db.transactions[t].entries|
    ensures var e := db.transactions[t].entries[i];
            |MembershipsOf(db, db.transactions[t].space, e.id)| == if e.id in CompletedIds(db) then 1 else 0
  {
    var x, e := db.transactions[t], db.transactions[t].entries[i];
    var ms := MembershipsOf(db, x.space, e.id);
    if e.id in CompletedIds(db) {
      var m :| m in db.memberships && m.entry == e.id;
      var u, j :| Located(db, m, u, j);
      assert EntryAt(db, u, j, e.id) && EntryAt(db, t, i, e.id);
      assert ms == {m};
    } else {
      assert ms == {};
    }
  }

  lemma PriorCounted(db: Database, space: SpaceId, account: AccountId, cutoff: Date)
    requires EntryIdsInv(db) && MembershipsInv(db) && RowsInv(db)
    ensures PriorCents(db, space, account, cutoff)
         == Tally(db.transactions, CompletedMeasure(CompletedIds(db), space, account, cutoff))
  {
    var f, g := PriorMeasure(db, space, account, cutoff), CompletedMeasure(CompletedIds(db), space, account, cutoff);
    forall t, e | t in db.transactions && e in db.transactions[t].entries
      ensures f(db.transactions[t], e) == g(db.transactions[t], e)
    {
      CountedOnce(db, space, account, cutoff, t, e);
    }
    hide EntryIdsInv, MembershipsInv, RowsInv, PriorMeasure, CompletedMeasure;
    TallyEqual(db.transactions, db.transactions, f, g);
  }

  lemma CountedOnce(db: Database, space: SpaceId, account: AccountId, cutoff: Date, t: TxId, e: Entry)
    requires EntryIdsInv(db) && MembershipsInv(db) && RowsInv(db)
    requires t in db.transactions && e in db.transactions[t].entries
    ensures PriorMeasure(db, space, account, cutoff)(db.transactions[t], e)
         == CompletedMeasure(CompletedIds(db), space, account, cutoff)(db.transactions[t], e)
  {
    var i :| 0 <= i < |db.transactions[t].entries| && db.transactions[t].entries[i] == e;
    MembershipCount(db, t, i);
    hide OnAccount, EntryIdsInv, MembershipsInv, RowsInv, CompletedIds, MembershipsOf;
  }

  /**
   In every reachable ledger, for every account and cutoff: what can still be selected and what earlier completions hold
   add up to all the account's effects up to the cutoff, and no entry is held by two completions.
   */
  lemma CandidatesAndPriorPartition(steps: seq<Step>, space: SpaceId, account: AccountId, cutoff: Date)
    ensures var db := Run(EMPTY, steps);
            && CandidateCents(db, space, account, cutoff) + PriorCents(db, space, account, cutoff)
               == EligibleCents(db, space, account, cutoff)
            && CandidateIds(db, space, account, cutoff) !! CompletedIds(db)
            && forall m, n :: m in db.memberships && n in db.memberships && m.entry == n.entry ==> m == n
  {
    hide CatalogInv, LinksInv, StatesInv, KeysInv, AuditInv, Shape, CandidateMeasure, CompletedMeasure, EligibleMeasure;
    Reachable(steps);
    var db := Run(EMPTY, steps);
    PriorCounted(db, space, account, cutoff);
    var f, g, h := CandidateMeasure(CompletedIds(db), space, account, cutoff),
                   CompletedMeasure(CompletedIds(db), space, account, cutoff), EligibleMeasure(space, account, cutoff);
    forall t, e | t in db.transactions && e in db.transactions[t].entries
      ensures h(db.transactions[t], e) == f(db.transactions[t], e) + g(db.transactions[t], e)
    {
      EntryPartition(db, space, account, cutoff, t, e);
    }
    TallyAdd(db.transactions, f, g, h);
  }

  // An eligible entry is either a candidate or completed.
  lemma EntryPartition(db: Database, space: SpaceId, account: AccountId, cutoff: Date, t: TxId, e: Entry)
    requires RowsInv(db) && t in db.transactions && e in db.transactions[t].entries
    ensures var x, completed := db.transactions[t], CompletedIds(db);
            EligibleMeasure(space, account, cutoff)(x, e) ==
            CandidateMeasure(completed, space, account, cutoff)(x, e)
            + CompletedMeasure(completed, space, account, cutoff)(x, e)
  {
    hide OnAccount, Eligible, Shape;
    assert RowOk(db, db.transactions[t]);
    EligibleIsOnAccount(db, space, account, cutoff, db.transactions[t], e);
  }

  // Completion and the completed balance

  lemma SameAfterAdvance(db: Database, db': Database, completed: set<EntryId>, space: SpaceId, account: AccountId,
                         cutoff: Date)
    requires AllAdvanced(db, db')
    ensures Tally(db'.transactions, CompletedMeasure(completed, space, account, cutoff))
         == Tally(db.transactions, CompletedMeasure(completed, space, account, cutoff))
  {
    var h := CompletedMeasure(completed, space, account, cutoff);
    forall t | t in db.transactions
      ensures db.transactions[t].entries == db'.transactions[t].entries
      ensures forall e :: h(db.transactions[t], e) == h(db'.transactions[t], e)
    {
      assert Advances(db.transactions[t], db'.transactions[t]);
    }
    TallyEqual(db.transactions, db'.transactions, h, h);
  }

  // A completion that is neither refused nor interrupted.
  ghost predicate Succeeds(db: Database, c: Completion, injected: bool) {
    !injected && AttemptCompletion(db, c).Ok?
  }

  lemma SucceedsAdmitted(db: Database, c: Completion, injected: bool, lost: bool)
    requires Succeeds(db, c, injected)
    ensures Admitted(db, c)
    ensures Complete(db, c, injected, lost) == Completed(db, c).(audit := db.audit + [CompletionEvent(c, true)])
    ensures c.observed == PriorCents(db, c.space, c.account, c.cutoff) + SelectedCents(db, c)
  {
  }

  lemma SamePrior(db: Database, db': Database, space: SpaceId, account: AccountId, cutoff: Date)
    requires db' == db.(audit := db'.audit)
    ensures PriorCents(db, space, account, cutoff) == PriorCents(db', space, account, cutoff)
  {
    assert forall id :: MembershipsOf(db, space, id) == MembershipsOf(db', space, id);
    TallyEqual(db.transactions, db'.transactions, PriorMeasure(db, space, account, cutoff),
               PriorMeasure(db', space, account, cutoff));
  }

  // The completed balance over whole runs

  // What is completed on an account up to a date.
  ghost function HeldCents(db: Database, space: SpaceId, account: AccountId, limit: Date): Cents {
    Tally(db.transactions, CompletedMeasure(CompletedIds(db), space, account, limit))
  }

  lemma UncompletedRow(x: Transaction, entries: seq<Entry>, g: Measure, completed: set<EntryId>, space: SpaceId,
                       account: AccountId, limit: Date)
    requires g == CompletedMeasure(completed, space, account, limit)
    requires forall e :: e in entries ==> e.id !in completed
    ensures RowTally(x, entries, g) == 0
  {
    if entries != [] {
      UncompletedRow(x, entries[1..], g, completed, space, account, limit);
    }
  }

  // The transactions that are not posted hold nothing.
  lemma HiddenRow(db: Database, t: TxId, g: Measure)
    requires RowsInv(db) && t in db.transactions && !Shown(db, t)
    ensures RowTally(db.transactions[t], db.transactions[t].entries, g) == 0
  {
    assert RowOk(db, db.transactions[t]);
  }

  /** As long as no membership is added, what is completed on an account stays the same. */
  lemma HeldStays(db: Database, db': Database, space: SpaceId, account: AccountId, limit: Date)
    requires RowsInv(db) && MembershipsInv(db) && RowsInv(db') && EntryIdsInv(db') && HistoryKept(db, db')
    requires db'.memberships == db.memberships
    ensures HeldCents(db', space, account, limit) == HeldCents(db, space, account, limit)
  {
    hide RowsInv, MembershipsInv, EntryIdsInv, Transaction.EligibilityDate;
    var g := CompletedMeasure(CompletedIds(db), space, account, limit);
    assert CompletedIds(db') == CompletedIds(db);
    var shared := set t | t in db.transactions && Shown(db, t);
    forall t | t in shared
      ensures t in db'.transactions
      ensures RowTally(db.transactions[t], db.transactions[t].entries, g)
           == RowTally(db'.transactions[t], db'.transactions[t].entries, g)
    {
      assert Kept(db, db', t);
      SameEligibility(db.transactions[t], db'.transactions[t]);
      RowTallyEqual(db.transactions[t], db'.transactions[t], db.transactions[t].entries, g, g);
    }
    hide HistoryKept, CompletedMeasure;
    forall t | t in db.transactions && t !in shared
      ensures RowTally(db.transactions[t], db.transactions[t].entries, g) == 0
    {
      HiddenRow(db, t, g);
    }
    forall t | t in db'.transactions && t !in shared
      ensures RowTally(db'.transactions[t], db'.transactions[t].entries, g) == 0
    {
      NewRow(db, db', t);
      UncompletedRow(db'.transactions[t], db'.transactions[t].entries, g, CompletedIds(db), space, account, limit);
    }
    TallyMatch(db.transactions, db'.transactions, g, g, shared);
  }

  lemma SameEligibility(x: Transaction, y: Transaction)
    requires y == x.(state := y.state)
    ensures y.EligibilityDate() == x.EligibilityDate()
  {
  }

  lemma NewRow(db: Database, db': Database, t: TxId)
    requires MembershipsInv(db) && EntryIdsInv(db') && HistoryKept(db, db') && t in db'.transactions && !Shown(db, t)
    ensures forall e :: e in db'.transactions[t].entries ==> e.id !in CompletedIds(db)
  {
    forall j: nat, m | j < |db'.transactions[t].entries| && m in db.memberships
      ensures m.entry != db'.transactions[t].entries[j].id
    {
      var u, i :| Located(db, m, u, i);
      assert Kept(db, db', u) && EntryAt(db', u, i, m.entry);
      assert EntryAt(db', t, j, db'.transactions[t].entries[j].id);
    }
  }

  predicate IsFor(c: Completion, space: SpaceId, account: AccountId) {
    c.space == space && c.account == account
  }

  // The selected effects of a completion whose eligibility date is not after a limit.
  function SelectedUpToMeasure(completed: set<EntryId>, c: Completion, limit: Date): Measure {
    (x: Transaction, e: Entry) => if SelectsUpTo(completed, c, limit, x, e) then e.Signed() else 0
  }

  predicate SelectsUpTo(completed: set<EntryId>, c: Completion, limit: Date, x: Transaction, e: Entry) {
    && Eligible(c.space, c.account, c.cutoff, x, e)
    && e.id !in completed
    && e.id in c.selected
    && DatedUpTo(x, limit)
  }

  ghost function SelectedUpTo(db: Database, c: Completion, limit: Date): Cents {
    Tally(db.transactions, SelectedUpToMeasure(CompletedIds(db), c, limit))
  }

  lemma SelectsIff(db: Database, c: Completion, limit: Date, t: TxId, e: Entry)
    requires RowsInv(db) && t in db.transactions && e in db.transactions[t].entries
    ensures SelectsUpTo(CompletedIds(db), c, limit, db.transactions[t], e)
       <==> IsCandidate(CompletedIds(db), c.space, c.account, c.cutoff, db.transactions[t], e)
            && e.id in c.selected && db.transactions[t].EligibilityDate() <= limit
  {
    hide CompletedIds;
    assert RowOk(db, db.transactions[t]);
  }

  lemma UpToLaterIsAll(db: Database, c: Completion, limit: Date)
    requires RowsInv(db) && c.cutoff <= limit
    ensures SelectedUpTo(db, c, limit) == SelectedCents(db, c)
  {
    hide RowsInv, SelectsUpTo, CompletedIds;
    forall t, e | t in db.transactions && e in db.transactions[t].entries
      ensures SelectedUpToMeasure(CompletedIds(db), c, limit)(db.transactions[t], e)
           == SelectedMeasure(CompletedIds(db), c.space, c.account, c.cutoff, Ids(c.selected))(db.transactions[t], e)
    {
      SelectsIff(db, c, limit, t, e);
    }
    TallyEqual(db.transactions, db.transactions, SelectedUpToMeasure(CompletedIds(db), c, limit),
               SelectedMeasure(CompletedIds(db), c.space, c.account, c.cutoff, Ids(c.selected)));
  }

  lemma HeldAddsEntry(db: Database, c: Completion, space: SpaceId, account: AccountId, limit: Date, t: TxId, e: Entry)
    requires RowsInv(db) && EntryIdsInv(db) && Admitted(db, c) && t in db.transactions
    requires e in db.transactions[t].entries
    ensures CompletedMeasure(CompletedIds(Added(db, c)), space, account, limit)(db.transactions[t], e)
         == CompletedMeasure(CompletedIds(db), space, account, limit)(db.transactions[t], e)
          + (if IsFor(c, space, account)
             then SelectedUpToMeasure(CompletedIds(db), c, limit)(db.transactions[t], e) else 0)
  {
    hide Check, RowsInv, CompletedIds, Transaction.EligibilityDate, SelectsUpTo;
    AddedIds(db, c);
    SelectsIff(db, c, limit, t, e);
    if e.id in c.selected {
      var i :| 0 <= i < |db.transactions[t].entries| && db.transactions[t].entries[i] == e;
      var u, j := SelectedAt(db, c, e.id);
      assert EntryAt(db, t, i, e.id);
    }
  }

  /** A completion adds its selected effects to what its own account holds, and nothing to any other account. */
  lemma HeldAdds(db: Database, c: Completion, space: SpaceId, account: AccountId, limit: Date)
    requires RowsInv(db) && EntryIdsInv(db) && Admitted(db, c) && AllAdvanced(db, Completed(db, c))
    ensures HeldCents(Completed(db, c), space, account, limit)
         == HeldCents(db, space, account, limit) + (if IsFor(c, space, account) then SelectedUpTo(db, c, limit) else 0)
  {
    hide AllAdvanced, Admitted, IsCandidate, RowsInv, EntryIdsInv, RowTally;
    var f := CompletedMeasure(CompletedIds(db), space, account, limit);
    var g := if IsFor(c, space, account) then SelectedUpToMeasure(CompletedIds(db), c, limit) else NoMeasure();
    var h := CompletedMeasure(CompletedIds(Added(db, c)), space, account, limit);
    forall t, e | t in db.transactions && e in db.transactions[t].entries
      ensures h(db.transactions[t], e) == f(db.transactions[t], e) + g(db.transactions[t], e)
    {
      HeldAddsEntry(db, c, space, account, limit, t, e);
    }
    TallyAdd(db.transactions, f, g, h);
    SameAfterAdvance(db, Completed(db, c), CompletedIds(Added(db, c)), space, account, limit);
    NoMeasureIsZero(db.transactions);
  }

  function NoMeasure(): Measure {
    (x: Transaction, e: Entry) => 0
  }

  lemma NoMeasureIsZero(txs: map<TxId, Transaction>)
    ensures Tally(txs, NoMeasure()) == 0
  {
    forall t | t in txs ensures RowTally(txs[t], txs[t].entries, NoMeasure()) == 0 {
      NoRow(txs[t], txs[t].entries);
    }
    TallyZero(txs, NoMeasure());
  }

  lemma NoRow(x: Transaction, entries: seq<Entry>)
    ensures RowTally(x, entries, NoMeasure()) == 0
  {
  }

  /**
   Right after a successful completion, in any reachable ledger, the completed balance of the account at the
   completion's cutoff is the balance that was observed.
   */
  lemma CompletedBalanceIsObserved(steps: seq<Step>, c: Completion)
    requires Succeeds(Run(EMPTY, steps), c, false)
    ensures PriorCents(Complete(Run(EMPTY, steps), c, false, false), c.space, c.account, c.cutoff) == c.observed
  {
    hide LinksInv, CatalogInv, StatesInv, KeysInv, AuditInv, AttemptCompletion;
    Reachable(steps);
    var db := Run(EMPTY, steps);
    SucceedsAdmitted(db, c, false, false);
    CompletionKeeps(db, c);
    PriorCounted(db, c.space, c.account, c.cutoff);
    PriorCounted(Completed(db, c), c.space, c.account, c.cutoff);
    HeldAdds(db, c, c.space, c.account, c.cutoff);
    UpToLaterIsAll(db, c, c.cutoff);
    SamePrior(Completed(db, c), Complete(db, c, false, false), c.space, c.account, c.cutoff);
  }

  // The statements of an account: its successful completions, each with the ledger it was checked against.

  datatype Statement = Statement(before: Database, completion: Completion)

  ghost predicate States(db: Database, s: Step, space: SpaceId, account: AccountId) {
    s.Completing? && Succeeds(db, s.completion, s.injected) && IsFor(s.completion, space, account)
  }

  ghost function Statements(db: Database, steps: seq<Step>, space: SpaceId, account: AccountId): seq<Statement>
    decreases |steps|
  {
    if steps == [] then []
    else
      var rest := Statements(Apply(db, steps[0]), steps[1..], space, account);
      if States(db, steps[0], space, account) then [Statement(db, steps[0].completion)] + rest else rest
  }

  // The effects selected in the statements whose eligibility date is not after a limit.
  ghost function EffectsUpTo(statements: seq<Statement>, limit: Date): Cents {
    if statements == [] then 0
    else SelectedUpTo(statements[0].before, statements[0].completion, limit) + EffectsUpTo(statements[1..], limit)
  }

  // All the effects selected in the statements.
  ghost function Effects(statements: seq<Statement>): Cents {
    if statements == [] then 0
    else SelectedCents(statements[0].before, statements[0].completion) + Effects(statements[1..])
  }

  predicate Ordered(statements: seq<Statement>) {
    forall i, j :: 0 <= i < j < |statements| ==> statements[i].completion.cutoff <= statements[j].completion.cutoff
  }

  ghost predicate SameMemberships(db: Database, db': Database) {
    db'.memberships == db.memberships && db'.reconciliations == db.reconciliations
  }

  lemma DeliverKeepsMemberships(db: Database, call: Call, injected: bool, lost: bool)
    requires LedgerInv(db)
    ensures SameMemberships(db, Deliver(db, call, injected, lost))
  {
    hide LedgerInv, Deliver, Execute;
    var reserved := DeliverSummary(db, call, injected, lost);
    if Execute(reserved, call.command, call.supply).Ok? {
      var mid := ExecuteSummary(reserved, call.command, call.supply);
    }
  }

  lemma StepKeepsMemberships(db: Database, s: Step)
    requires LedgerInv(db) && !(s.Completing? && Succeeds(db, s.completion, s.injected))
    ensures SameMemberships(db, Apply(db, s))
  {
    hide LedgerInv, Deliver, AttemptCompletion, CreateDraft, UpdateDraft, DiscardDraft, UseCatalog;
    if s.Delivery? {
      DeliverKeepsMemberships(db, s.call, s.injected, s.lost);
    } else if s.DraftCreation? || s.DraftUpdate? || s.DraftDiscarding? {
      assert RowsInv(db) by { PartsOf(db); }
      DraftStep(db, s);
    } else if !s.Completing? {
      assert CatalogInv(db) by { PartsOf(db); }
      CatalogStep(db, s.use);
    }
  }

  /** What one step does to the balance an account holds completed up to a date. */
  lemma StepHeld(db: Database, s: Step, space: SpaceId, account: AccountId, limit: Date)
    requires Inv(db) && Inv(Apply(db, s)) && HistoryKept(db, Apply(db, s))
    ensures HeldCents(Apply(db, s), space, account, limit)
         == HeldCents(db, space, account, limit)
          + (if States(db, s, space, account) then SelectedUpTo(db, s.completion, limit) else 0)
  {
    hide CatalogInv, RowsInv, EntryIdsInv, LinksInv, MembershipsInv, StatesInv, KeysInv, AuditInv,
         HistoryKept, AttemptCompletion, Deliver, Admitted, AllAdvanced;
    if s.Completing? && Succeeds(db, s.completion, s.injected) {
      SucceedsAdmitted(db, s.completion, s.injected, s.lost);
      CompletionKeeps(db, s.completion);
      HeldAdds(db, s.completion, space, account, limit);
    } else {
      StepKeepsMemberships(db, s);
      HeldStays(db, Apply(db, s), space, account, limit);
    }
  }

  lemma {:induction false} ObservedFrom(db: Database, steps: seq<Step>, space: SpaceId, account: AccountId, n: nat)
    requires Inv(db) && n < |Statements(db, steps, space, account)|
    ensures var (statements, completion) :=
              (Statements(db, steps, space, account), Statements(db, steps, space, account)[n].completion);
            completion.observed == HeldCents(db, space, account, completion.cutoff)
                                 + EffectsUpTo(statements[..n + 1], completion.cutoff)
    decreases |steps|
  {
    hide LedgerInv, KeysInv, AuditInv, HeldCents, Apply, HistoryKept, Succeeds, SelectedUpTo;
    var s, next := steps[0], Apply(db, steps[0]);
    var all, rest := Statements(db, steps, space, account), Statements(next, steps[1..], space, account);
    var limit := all[n].completion.cutoff;
    ApplyKeeps(db, s);
    StepKeepsHistory(db, s);
    StepHeld(db, s, space, account, limit);
    if States(db, s, space, account) {
      assert rest == all[1..];
      assert all[..n + 1] == [all[0]] + rest[..n];
      if n > 0 {
        ObservedFrom(next, steps[1..], space, account, n - 1);
      } else {
        FirstObserved(db, s.completion, s.injected, space, account);
        assert EffectsUpTo(rest[..0], limit) == 0;
      }
    } else {
      ObservedFrom(next, steps[1..], space, account, n);
    }
  }

  lemma FirstObserved(db: Database, c: Completion, injected: bool, space: SpaceId, account: AccountId)
    requires LedgerInv(db) && Succeeds(db, c, injected) && IsFor(c, space, account)
    ensures c.observed == HeldCents(db, space, account, c.cutoff) + SelectedUpTo(db, c, c.cutoff)
  {
    hide AttemptCompletion;
    SucceedsAdmitted(db, c, injected, false);
    PriorCounted(db, space, account, c.cutoff);
    UpToLaterIsAll(db, c, c.cutoff);
  }

  /**
   Over every run, whatever else happens between the completions of an account and in whatever order their cutoffs come,
   the n-th observed balance is the sum of the effects selected in the first n that are eligible at the n-th cutoff.
   */
  lemma ObservedIsSumUpToCutoff(steps: seq<Step>, space: SpaceId, account: AccountId, n: nat)
    requires n < |Statements(EMPTY, steps, space, account)|
    ensures var statements := Statements(EMPTY, steps, space, account);
            statements[n].completion.observed == EffectsUpTo(statements[..n + 1], statements[n].completion.cutoff)
  {
    EmptyHolds();
    ObservedFrom(EMPTY, steps, space, account, n);
    assert forall limit :: HeldCents(EMPTY, space, account, limit) == 0 by {
      forall limit ensures HeldCents(EMPTY, space, account, limit) == 0 {
        TallyZero(EMPTY.transactions, CompletedMeasure(CompletedIds(EMPTY), space, account, limit));
      }
    }
  }

  lemma {:induction false} StatementsHold(db: Database, steps: seq<Step>, space: SpaceId, account: AccountId)
    requires Inv(db)
    ensures forall x :: x in Statements(db, steps, space, account) ==> RowsInv(x.before)
    decreases |steps|
  {
    hide Inv, Apply, States, RowsInv;
    if steps != [] {
      PartsOf(db) by { LedgerOf(db); }
      ApplyKeeps(db, steps[0]);
      StatementsHold(Apply(db, steps[0]), steps[1..], space, account);
    }
  }

  lemma {:induction false} LateLimitIsAll(statements: seq<Statement>, limit: Date)
    requires forall i :: 0 <= i < |statements| ==> statements[i].completion.cutoff <= limit
    requires forall x :: x in statements ==> RowsInv(x.before)
    ensures EffectsUpTo(statements, limit) == Effects(statements)
  {
    hide RowsInv;
    if statements != [] {
      assert statements[0] in statements;
      assert forall x :: x in statements[1..] ==> x in statements;
      UpToLaterIsAll(statements[0].before, statements[0].completion, limit);
      LateLimitIsAll(statements[1..], limit);
    }
  }

  /** With non-decreasing cutoffs the n-th observed balance is the running sum of all effects selected so far. */
  lemma ObservedIsRunningSum(steps: seq<Step>, space: SpaceId, account: AccountId, n: nat)
    requires n < |Statements(EMPTY, steps, space, account)| && Ordered(Statements(EMPTY, steps, space, account))
    ensures var statements := Statements(EMPTY, steps, space, account);
            statements[n].completion.observed == Effects(statements[..n + 1])
  {
    var statements := Statements(EMPTY, steps, space, account);
    hide RowsInv;
    ObservedIsSumUpToCutoff(steps, space, account, n);
    EmptyHolds();
    StatementsHold(EMPTY, steps, space, account);
    assert forall x :: x in statements[..n + 1] ==> x in statements;
    LateLimitIsAll(statements[..n + 1], statements[n].completion.cutoff);
  }

  // What a completion needs and what it leaves

  predicate OpenAccount(db: Database, space: SpaceId, account: AccountId) {
    && account in db.accounts
    && db.accounts[account].space == space
    && !db.accounts[account].archived
    && db.accounts[account].reconcilable
    && db.accounts[account].kind != Equity
  }

  // An entry posted on the account by the cutoff that no reconciliation has completed.
  predicate Pending(db: Database, c: Completion, id: EntryId, t: TxId, i: nat) {
    && EntryAt(db, t, i, id)
    && id !in CompletedIds(db)
    && Eligible(c.space, c.account, c.cutoff, db.transactions[t], db.transactions[t].entries[i])
  }

  ghost predicate SelectionOk(db: Database, c: Completion) {
    && c.selected != []
    && (forall i, j :: 0 <= i < j < |c.selected| ==> c.selected[i] != c.selected[j])
    && (forall id :: id in c.selected ==> exists t, i :: Pending(db, c, id, t, i))
  }

  // The effects on the account up to the cutoff that are completed or selected now.
  function CheckedMeasure(completed: set<EntryId>, c: Completion): Measure {
    (x: Transaction, e: Entry) =>
      if Eligible(c.space, c.account, c.cutoff, x, e) && (e.id in completed || e.id in c.selected)
      then e.Signed() else 0
  }

  ghost function CheckedCents(db: Database, c: Completion): Cents {
    Tally(db.transactions, CheckedMeasure(CompletedIds(db), c))
  }

  lemma CheckedIsSum(db: Database, c: Completion)
    requires RowsInv(db) && EntryIdsInv(db) && MembershipsInv(db)
    ensures CheckedCents(db, c) == PriorCents(db, c.space, c.account, c.cutoff) + SelectedCents(db, c)
  {
    hide MembershipsInv, EntryIdsInv;
    var f := CompletedMeasure(CompletedIds(db), c.space, c.account, c.cutoff);
    var g := SelectedMeasure(CompletedIds(db), c.space, c.account, c.cutoff, Ids(c.selected));
    forall t, e | t in db.transactions && e in db.transactions[t].entries
      ensures CheckedMeasure(CompletedIds(db), c)(db.transactions[t], e)
           == f(db.transactions[t], e) + g(db.transactions[t], e)
    {
      CheckedEntry(db, c, t, e);
    }
    hide RowsInv, CheckedMeasure, CompletedMeasure, SelectedMeasure;
    TallyAdd(db.transactions, f, g, CheckedMeasure(CompletedIds(db), c));
    PriorCounted(db, c.space, c.account, c.cutoff);
  }

  lemma CheckedEntry(db: Database, c: Completion, t: TxId, e: Entry)
    requires RowsInv(db) && t in db.transactions && e in db.transactions[t].entries
    ensures var (x, completed) := (db.transactions[t], CompletedIds(db));
            CheckedMeasure(completed, c)(x, e) ==
            CompletedMeasure(completed, c.space, c.account, c.cutoff)(x, e)
            + SelectedMeasure(completed, c.space, c.account, c.cutoff, Ids(c.selected))(x, e)
  {
    hide OnAccount, Eligible, Shape, CompletedIds;
    assert RowOk(db, db.transactions[t]);
    EligibleIsOnAccount(db, c.space, c.account, c.cutoff, db.transactions[t], e);
  }

  lemma SelectionIsCandidates(db: Database, c: Completion)
    requires RowsInv(db) && EntryIdsInv(db)
    ensures SelectionOk(db, c) <==>
              c.selected != [] && Unique(c.selected)
              && forall id :: id in c.selected ==> id in CandidateIds(db, c.space, c.account, c.cutoff)
  {
    hide Eligible, RowsInv, EntryIdsInv;
    forall id
      ensures id in CandidateIds(db, c.space, c.account, c.cutoff) <==> exists t, i :: Pending(db, c, id, t, i)
    {
      if id in CandidateIds(db, c.space, c.account, c.cutoff) {
        var t, i :| t in db.transactions && 0 <= i < |db.transactions[t].entries|
                    && db.transactions[t].entries[i].id == id;
        CandidateAtRow(db, c.space, c.account, c.cutoff, t, i);
        assert Pending(db, c, id, t, i);
      }
      if t: TxId, i: nat :| Pending(db, c, id, t, i) {
        CandidateAtRow(db, c.space, c.account, c.cutoff, t, i);
      }
    }
  }

  /**
   In every reachable ledger a completion succeeds if and only if its account is open, the selected entries are pending,
   at least one and none twice, the observed balance is exactly what they and the completed ones make, and its id is
   new. The first of these to fail is what it is refused for.
   */
  lemma CompletionSucceedsIff(steps: seq<Step>, c: Completion)
    ensures var db := Run(EMPTY, steps);
            var (open, outcome) := (OpenAccount(db, c.space, c.account), AttemptCompletion(db, c));
            && (outcome.Ok?
                <==> open && SelectionOk(db, c) && c.observed == CheckedCents(db, c) && c.id !in db.reconciliations)
            && (outcome == Err(IneligibleAccount) <==> !open)
            && (outcome == Err(IneligibleEntry) <==> open && !SelectionOk(db, c))
            && (outcome == Err(NonZeroDifference) <==> open && SelectionOk(db, c) && c.observed != CheckedCents(db, c))
  {
    hide Run, Inv, ProjectAffected, CandidateIds, SelectionOk, CheckedCents, Unique;
    var db := Run(EMPTY, steps);
    Reachable(steps);
    PartsOf(db) by { LedgerOf(db); }
    SelectionIsCandidates(db, c);
    CheckedIsSum(db, c);
    NotYetCompleted(db, c);
    hide RowsInv, EntryIdsInv, MembershipsInv, CatalogInv, LinksInv, StatesInv;
  }

  lemma NotYetCompleted(db: Database, c: Completion)
    ensures forall id :: id in CandidateIds(db, c.space, c.account, c.cutoff) ==> id !in CompletedIds(db)
  {
  }

  /**
   A completion that succeeds stores one record with the observed balance, exactly the selected memberships and one
   success event; any other leaves everything alone but for at most one failure event.
   */
  lemma CompletionRecords(db: Database, c: Completion, injected: bool, lost: bool)
    ensures var db' := Complete(db, c, injected, lost);
            if Succeeds(db, c, injected) then
              && c.id !in db.reconciliations
              && db'.reconciliations
                == db.reconciliations[c.id := ReconciliationRecord(c.space, c.account, c.cutoff, c.observed)]
              && (forall m :: m in db'.memberships
                    <==> m in db.memberships || (m.reconciliation == c.id && m.entry in c.selected))
              && db'.audit == db.audit + [AuditEvent(ReconciliationCompleted, true, c.space, Some(c.id), c.correlation)]
            else
              && db' == db.(audit := db'.audit)
              && var failure := AuditEvent(ReconciliationCompleted, false, c.space, None, c.correlation);
                 db'.audit == db.audit + (if lost then [] else [failure])
  {
    hide Check;
    if Succeeds(db, c, injected) {
      var db' := Complete(db, c, injected, lost);
      assert db'.memberships == db.memberships + set id | id in c.selected :: Membership(c.id, id);
      forall m
        ensures m in db'.memberships <==> m in db.memberships || (m.reconciliation == c.id && m.entry in c.selected)
      {
        assert m.reconciliation == c.id && m.entry in c.selected ==> m == Membership(c.id, m.entry);
      }
    }
  }
}
