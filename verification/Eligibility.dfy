/** From which cutoff on a reconciliation can select what a posting wrote. */
module Eligibility {
  import opened Wrappers
  import opened Ledger
  import opened Database
  import opened Commands
  import opened Invariants
  import opened Machine
  import opened Reachability
  import opened Idempotency
  import opened Reconciliation
  import opened Balances
  import Projection
  import Lifecycle
  import E = Effects

  // The day from which what was asked for is eligible: an opening counts by its economic date, all else by the cash
  // date,
  // which is the economic date if none was given.
  function EligibleFrom(r: DraftRequest): Date {
    if r.kind == Opening || r.cashDate.None? then r.economicDate else r.cashDate.value
  }

  lemma FulfilledDates(db: Database, r: DraftRequest, x: Transaction, cutoff: Date)
    requires E.Fulfils(db, r, x)
    ensures DatedUpTo(x, cutoff) <==> EligibleFrom(r) <= cutoff
  {
    match r.kind
    case Opening =>
    case Income =>
    case Expense =>
    case Transfer =>
    case Reversal =>
  }

  lemma PostedUncompleted(db: Database, call: Call)
    requires LedgerInv(db) && FirstSuccess(db, call, false) && !call.command.Reverse?
    requires var (db', t) := (Deliver(db, call, false, false), Attempt(db, call).value.result.tx);
             && t in db'.transactions && db'.transactions[t].state == Posted
             && (t in db.transactions ==> db.transactions[t].entries == [] && db.transactions[t].state != Posted)
    ensures var (db', t) := (Deliver(db, call, false, false), Attempt(db, call).value.result.tx);
            forall e :: e in db'.transactions[t].entries ==> e.id !in CompletedIds(db')
  {
    var t := Attempt(db, call).value.result.tx;
    hide Attempt, Deliver, LedgerInv;
    var db' := Deliver(db, call, false, false);
    Projection.DeliverSettles(db, call, false, false, t);
    assert CompletedIds(db') == CompletedIds(db);
  }

  lemma EmptyIsNotPosted(db: Database, t: TxId)
    requires LedgerInv(db) && t in db.transactions && db.transactions[t].entries == []
    ensures db.transactions[t].state != Posted
  {
    assert RowOk(db, db.transactions[t]);
  }

  /**
   What a posting that takes effect writes on an account can be selected in a reconciliation of it from its cash date
   on, an opening from its economic date on, and not before.
   */
  lemma PostedIsCandidateFrom(steps: seq<Step>, call: Call, i: nat, account: AccountId, cutoff: Date)
    requires FirstSuccess(Run(EMPTY, steps), call, false) && !call.command.Reverse?
    requires var db := Run(EMPTY, steps);
             var (db', t) := (Deliver(db, call, false, false), Attempt(db, call).value.result.tx);
             t in db'.transactions && i < |db'.transactions[t].entries|
             && db'.transactions[t].entries[i].target == ToAccount(account)
    ensures var (db, c) := (Run(EMPTY, steps), call.command);
            var (db', t) := (Deliver(db, call, false, false), Attempt(db, call).value.result.tx);
            && (c.PostDraft? ==> c.draft in db.transactions && c.draft in db.details)
            && var (r, id) := (Asked(db, c), db'.transactions[t].entries[i].id);
               id in CandidateIds(db', r.space, account, cutoff) <==> EligibleFrom(r) <= cutoff
  {
    hide Inv, Attempt, Deliver, Asked, E.Fulfils, E.EquityOnly, DatedUpTo, CandidateIds, CompletedIds;
    var db := Run(EMPTY, steps);
    var db', t := Deliver(db, call, false, false), Attempt(db, call).value.result.tx;
    E.PostingFulfilsTheRequest(steps, call);
    Reachable(steps);
    LedgerOf(db);
    if t in db.transactions {
      EmptyIsNotPosted(db, t);
    }
    var r := Asked(db, call.command);
    RowOfRequest(db, r, db'.transactions[t]);
    PostedUncompleted(db, call);
    Lifecycle.RunSplit(EMPTY, steps, [Delivery(call, false, false)]);
    assert Run(EMPTY, steps + [Delivery(call, false, false)]) == db' by { OneStep(db, call); }
    CandidatesByDate(steps + [Delivery(call, false, false)], r.space, account, cutoff, t, i);
    FulfilledDates(db, r, db'.transactions[t], cutoff);
  }

  lemma OneStep(db: Database, call: Call)
    ensures Run(db, [Delivery(call, false, false)]) == Deliver(db, call, false, false)
  {
    hide Deliver;
    assert [Delivery(call, false, false)][1..] == [];
    assert Run(Deliver(db, call, false, false), []) == Deliver(db, call, false, false);
  }

  lemma RowOfRequest(db: Database, r: DraftRequest, x: Transaction)
    requires E.Fulfils(db, r, x)
    ensures x.space == r.space && x.state == Posted && forall e :: e in x.entries ==> e.space == r.space
  {
  }
}
