/** What every reachable database satisfies. */
module Invariants {
  import opened Wrappers
  import opened Ledger
  import opened Database

  // Catalog

  ghost predicate CatalogInv(db: Database) {
    && (forall s :: OpeningEquity(s) in db.accounts ==> db.accounts[OpeningEquity(s)].space == s)
    && (forall a :: a in db.accounts ==>
         (a.OpeningEquity? <==> db.accounts[a].kind == Equity)
         && (a.OpeningEquity? ==> !db.accounts[a].reconcilable))
  }

  // Transactions

  predicate Ordinary(e: Entry) {
    e.target.ToAccount? && e.target.account.Opaque?
  }

  predicate Technical(e: Entry) {
    e.target.ToAccount? && e.target.account.OpeningEquity?
  }

  /**
   Every posted transaction is a balanced pair of same-space entries with different targets. One of them is on an
   asset or liability account, and it has no cash date exactly when the other one is on the equity account, which only
   an opening or a reversal of one can be.
   */
  predicate Shape(db: Database, x: Transaction) {
    && |x.entries| == 2
    && var a, b := x.entries[0], x.entries[1];
       && a.id.Before(b.id)
       && a.space == b.space == x.space
       && a.amount == b.amount > 0
       && a.side != b.side
       && a.target != b.target
       && TargetExists(db, a) && TargetExists(db, b)
       && (Ordinary(a) || Ordinary(b))
       && (x.cashDate.None? <==> Technical(a) || Technical(b))
       && (x.kind == Opening ==> x.cashDate.None?)
       && (x.cashDate.None? ==> x.kind == Opening || x.kind == Reversal)
  }

  predicate RowOk(db: Database, x: Transaction) {
    match x.state
    case Draft => x.entries == []
    case Posting => false
    case _ => Shape(db, x)
  }

  ghost predicate RowsInv(db: Database) {
    && (forall t :: t in db.transactions ==> RowOk(db, db.transactions[t]))
    && (forall t :: t in db.details <==> t in db.transactions && db.transactions[t].state == Draft)
  }

  ghost predicate EntryIdsInv(db: Database) {
    forall t, i, u, j, id :: EntryAt(db, t, i, id) && EntryAt(db, u, j, id) ==> t == u && i == j
  }

  // Reversal links

  predicate Mirrors(o: Transaction, r: Transaction) {
    && o.space == r.space
    && |o.entries| == |r.entries|
    && (o.cashDate.None? <==> r.cashDate.None?)
    && forall i :: 0 <= i < |o.entries| ==>
         && r.entries[i].side == o.entries[i].side.Opposite()
         && r.entries[i].amount == o.entries[i].amount
         && r.entries[i].target == o.entries[i].target
         && r.entries[i].space == o.entries[i].space
  }

  /** No set of linked transactions is closed under following its links: there is no cycle. */
  ghost predicate Acyclic(links: map<TxId, TxId>) {
    forall s: set<TxId> :: s != {} && s <= links.Keys ==> exists o :: o in s && links[o] !in s
  }

  predicate LinkOk(db: Database, o: TxId, r: TxId) {
    && o in db.transactions && r in db.transactions
    && Mirrors(db.transactions[o], db.transactions[r])
    && db.transactions[r].Visible()
    && db.transactions[r].kind == Reversal
  }

  predicate IsReversal(db: Database, t: TxId) {
    t in db.transactions && db.transactions[t].Visible() && db.transactions[t].kind == Reversal
  }

  ghost predicate VoidedLinked(db: Database) {
    forall t :: t in db.transactions ==> (db.transactions[t].state == Voided <==> t in db.links)
  }

  ghost predicate ReversalsLinked(db: Database) {
    forall t :: IsReversal(db, t) ==> t in db.links.Values
  }

  ghost predicate Injective(links: map<TxId, TxId>) {
    forall o, p :: o in links && p in links && links[o] == links[p] ==> o == p
  }

  ghost predicate LinksInv(db: Database) {
    && (forall o :: o in db.links ==> LinkOk(db, o, db.links[o]))
    && VoidedLinked(db)
    && ReversalsLinked(db)
    && Injective(db.links)
    && Acyclic(db.links)
  }

  // Idempotency records and audit

  predicate Shown(db: Database, t: TxId) {
    t in db.transactions && db.transactions[t].Visible()
  }

  // The idempotency record k holds the result that names transaction t.
  predicate KeyOf(db: Database, k: (SpaceId, Key), t: TxId) {
    k in db.keys && db.keys[k].result.Some? && db.keys[k].result.value.tx == t
  }

  predicate KeyOk(db: Database, k: (SpaceId, Key), r: IdempotencyRecord) {
    && r.result.Some?
    && r.command.space == k.0
    && r.result.value.state == Posted && !r.result.value.replayed
    && Shown(db, r.result.value.tx)
    && db.transactions[r.result.value.tx].space == k.0
  }

  ghost predicate KeysInv(db: Database) {
    && (forall k :: k in db.keys ==> KeyOk(db, k, db.keys[k]))
    && (forall k, l, t :: KeyOf(db, k, t) && KeyOf(db, l, t) ==> k == l)
    && (forall t :: Shown(db, t) ==> exists k :: KeyOf(db, k, t))
  }

  predicate IsPosting(e: AuditEvent) {
    e.success && e.action != ReconciliationCompleted
  }

  // Event i of the audit log records the success of the command that holds key k.
  predicate SuccessAt(db: Database, i: nat, k: (SpaceId, Key)) {
    i < |db.audit| && IsPosting(db.audit[i]) && (db.audit[i].space, db.audit[i].correlation) == k
  }

  ghost predicate AuditInv(db: Database) {
    && (forall i: nat, k :: SuccessAt(db, i, k) ==>
         && k in db.keys && db.keys[k].result.Some?
         && db.audit[i].subject == Some(db.keys[k].result.value.tx)
         && db.audit[i].action == db.keys[k].command.Action())
    && (forall i: nat, j: nat, k :: SuccessAt(db, i, k) && SuccessAt(db, j, k) ==> i == j)
    && (forall k :: k in db.keys ==> exists i :: SuccessAt(db, i, k))
  }

  // Reconciliations

  predicate Located(db: Database, m: Membership, t: TxId, i: nat) {
    && t in db.transactions && i < |db.transactions[t].entries|
    && db.transactions[t].entries[i].id == m.entry
    && db.transactions[t].Visible()
    && m.reconciliation in db.reconciliations
    && var x, e, r := db.transactions[t], db.transactions[t].entries[i], db.reconciliations[m.reconciliation];
       && x.space == r.space
       && e.target == ToAccount(r.account)
       && r.account in db.accounts && db.accounts[r.account].reconcilable
       && x.EligibilityDate() <= r.cutoff
  }

  ghost predicate MembershipsInv(db: Database) {
    && (forall m :: m in db.memberships ==> exists t, i :: Located(db, m, t, i))
    && (forall m, n :: m in db.memberships && n in db.memberships && m.entry == n.entry ==> m == n)
  }

  // An entry that can be reconciled whenever its account is not archived.
  predicate Countable(db: Database, e: Entry) {
    Ordinary(e) && e.target.account in db.accounts && db.accounts[e.target.account].reconcilable
  }

  ghost predicate AllCompleted(db: Database, x: Transaction) {
    && (exists e :: e in x.entries && Countable(db, e))
    && (forall e :: e in x.entries && Countable(db, e) ==> e.id in CompletedIds(db))
  }

  ghost predicate AnyCompleted(db: Database, x: Transaction) {
    exists e :: e in x.entries && Countable(db, e) && e.id in CompletedIds(db)
  }

  ghost predicate StateOk(db: Database, x: Transaction) {
    && (x.state == Reconciled ==> AnyCompleted(db, x))
    && (x.Visible() && AllCompleted(db, x) ==> x.state == Reconciled || x.state == Voided)
  }

  ghost predicate StatesInv(db: Database) {
    forall t :: t in db.transactions ==> StateOk(db, db.transactions[t])
  }

  // The part that does not speak of idempotency records and audit events.
  ghost predicate LedgerInv(db: Database) {
    && CatalogInv(db)
    && RowsInv(db)
    && EntryIdsInv(db)
    && LinksInv(db)
    && MembershipsInv(db)
    && StatesInv(db)
  }

  ghost predicate Inv(db: Database) {
    LedgerInv(db) && KeysInv(db) && AuditInv(db)
  }

  // The conjuncts of the ledger invariant, for proofs that hide it.
  lemma PartsOf(db: Database)
    requires LedgerInv(db)
    ensures CatalogInv(db) && RowsInv(db) && EntryIdsInv(db) && LinksInv(db) && MembershipsInv(db) && StatesInv(db)
  {
  }

  lemma LedgerOf(db: Database)
    requires Inv(db)
    ensures LedgerInv(db)
  {
  }

  lemma EmptyHolds()
    ensures Inv(EMPTY)
  {
  }
}
