/** Reconciliation of one account against an observed balance, as a function of the database. */
module Reconciliation {
  import opened Wrappers
  import opened Ledger
  import opened Database

  datatype Completion = Completion(
    id: ReconciliationId,
    space: SpaceId,
    account: AccountId,
    cutoff: Date,
    observed: Cents,
    selected: seq<EntryId>,
    correlation: Key)

  function EligibleAccount(db: Database, space: SpaceId, id: AccountId): Result<Account> {
    if id in db.accounts && db.accounts[id].space == space && db.accounts[id].Eligible() then Ok(db.accounts[id])
    else Err(IneligibleAccount)
  }

  // The entries of an account whose eligibility date is not after the cutoff.
  predicate OnAccount(space: SpaceId, account: AccountId, cutoff: Date, x: Transaction, e: Entry) {
    e.space == space && x.space == space && e.target == ToAccount(account) && x.EligibilityDate() <= cutoff
  }

  predicate IsCandidate(completed: set<EntryId>, space: SpaceId, account: AccountId, cutoff: Date,
                        x: Transaction, e: Entry)
  {
    OnAccount(space, account, cutoff, x, e) && x.Visible() && e.id !in completed
  }

  function CandidateIds(db: Database, space: SpaceId, account: AccountId, cutoff: Date): set<EntryId> {
    set t, i | t in db.transactions && 0 <= i < |db.transactions[t].entries|
               && IsCandidate(CompletedIds(db), space, account, cutoff, db.transactions[t],
                              db.transactions[t].entries[i])
             :: db.transactions[t].entries[i].id
  }

  function CandidateMeasure(completed: set<EntryId>, space: SpaceId, account: AccountId, cutoff: Date): Measure {
    (x: Transaction, e: Entry) =>
      if IsCandidate(completed, space, account, cutoff, x, e) then e.Signed() else 0
  }

  function SelectedMeasure(completed: set<EntryId>, space: SpaceId, account: AccountId, cutoff: Date,
                           selected: set<EntryId>): Measure
  {
    (x: Transaction, e: Entry) =>
      if IsCandidate(completed, space, account, cutoff, x, e) && e.id in selected then e.Signed() else 0
  }

  // The memberships of one entry that join a reconciliation of the space.
  function MembershipsOf(db: Database, space: SpaceId, id: EntryId): set<Membership> {
    set m | m in db.memberships && m.entry == id && m.reconciliation in db.reconciliations
            && db.reconciliations[m.reconciliation].space == space
  }

  // The join repeats an entry once per completed membership of it.
  function PriorMeasure(db: Database, space: SpaceId, account: AccountId, cutoff: Date): Measure {
    (x: Transaction, e: Entry) =>
      if OnAccount(space, account, cutoff, x, e) then e.Signed() * |MembershipsOf(db, space, e.id)| else 0
  }

  ghost function CandidateCents(db: Database, space: SpaceId, account: AccountId, cutoff: Date): Cents {
    Tally(db.transactions, CandidateMeasure(CompletedIds(db), space, account, cutoff))
  }

  ghost function PriorCents(db: Database, space: SpaceId, account: AccountId, cutoff: Date): Cents {
    Tally(db.transactions, PriorMeasure(db, space, account, cutoff))
  }

  ghost function SelectedCents(db: Database, c: Completion): Cents {
    Tally(db.transactions, SelectedMeasure(CompletedIds(db), c.space, c.account, c.cutoff, Ids(c.selected)))
  }

  function Ids(selected: seq<EntryId>): set<EntryId> {
    set id | id in selected
  }

  predicate Unique(selected: seq<EntryId>) {
    forall i, j :: 0 <= i < j < |selected| ==> selected[i] != selected[j]
  }

  /** Everything a completion checks before it writes. */
  ghost function Check(db: Database, c: Completion): Result<()> {
    var _ :- EligibleAccount(db, c.space, c.account);
    if exists id :: id in c.selected && id !in CandidateIds(db, c.space, c.account, c.cutoff) then Err(IneligibleEntry)
    else if c.selected == [] || !Unique(c.selected) then Err(IneligibleEntry)
    else if c.observed != PriorCents(db, c.space, c.account, c.cutoff) + SelectedCents(db, c) then
      Err(NonZeroDifference)
    else Ok(())
  }

  function AddCompleted(db: Database, c: Completion): Result<Database> {
    if exists id :: id in c.selected && id in CompletedIds(db) then Err(DuplicateMembership)
    else if c.id in db.reconciliations then Err(IntegrityViolation)
    else Ok(db.(reconciliations := db.reconciliations[c.id := ReconciliationRecord(c.space, c.account, c.cutoff,
                                                                                   c.observed)],
                memberships := db.memberships + set id | id in c.selected :: Membership(c.id, id)))
  }

  predicate Affected(x: Transaction, space: SpaceId, selected: set<EntryId>) {
    exists i :: 0 <= i < |x.entries| && x.entries[i].space == space && x.entries[i].id in selected
  }

  function Reprojected(db: Database, x: Transaction): Transaction {
    if x.state == Voided then x else x.(state := ProjectState(x, db.accounts, CompletedIds(db)))
  }

  function ProjectAffected(db: Database, space: SpaceId, selected: set<EntryId>): Database {
    db.(transactions := map t | t in db.transactions ::
          if db.transactions[t].space == space && Affected(db.transactions[t], space, selected)
          then Reprojected(db, db.transactions[t])
          else db.transactions[t])
  }

  function CompletionEvent(c: Completion, success: bool): AuditEvent {
    AuditEvent(ReconciliationCompleted, success, c.space, if success then Some(c.id) else None, c.correlation)
  }

  /** One attempt at a completion inside its unit of work. */
  ghost function AttemptCompletion(db: Database, c: Completion): Result<Database> {
    var _ :- Check(db, c);
    var added :- AddCompleted(db, c);
    var projected := ProjectAffected(added, c.space, Ids(c.selected));
    Ok(projected.(audit := projected.audit + [CompletionEvent(c, true)]))
  }

  ghost function Complete(db: Database, c: Completion, injected: bool, lost: bool): Database {
    if injected || AttemptCompletion(db, c).Err? then
      if lost then db else db.(audit := db.audit + [CompletionEvent(c, false)])
    else AttemptCompletion(db, c).value
  }
}
