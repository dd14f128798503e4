/** Completing a reconciliation keeps the ledger invariants and never takes a transaction's state backwards. */
module CompletionProofs {
  import opened Ledger
  import opened Database
  import opened Invariants
  import opened Reconciliation
  import opened PostingProofs

  // A completion that has passed its checks.
  ghost predicate Admitted(db: Database, c: Completion) {
    Check(db, c).Ok? && AddCompleted(db, c).Ok?
  }

  ghost function Added(db: Database, c: Completion): Database
    requires Admitted(db, c)
  {
    AddCompleted(db, c).value
  }

  ghost function Completed(db: Database, c: Completion): Database
    requires Admitted(db, c)
  {
    ProjectAffected(Added(db, c), c.space, Ids(c.selected))
  }

  // Entry i of transaction t is one of the candidates of the completion.
  predicate CandidateAt(db: Database, c: Completion, t: TxId, i: nat) {
    && t in db.transactions && i < |db.transactions[t].entries|
    && IsCandidate(CompletedIds(db), c.space, c.account, c.cutoff, db.transactions[t], db.transactions[t].entries[i])
  }

  lemma SelectedAt(db: Database, c: Completion, id: EntryId) returns (t: TxId, i: nat)
    requires Admitted(db, c) && id in c.selected
    ensures CandidateAt(db, c, t, i) && EntryAt(db, t, i, id)
  {
    assert id in CandidateIds(db, c.space, c.account, c.cutoff);
    t, i :| CandidateAt(db, c, t, i) && db.transactions[t].entries[i].id == id;
  }

  lemma AddedIds(db: Database, c: Completion)
    requires Admitted(db, c)
    ensures CompletedIds(Added(db, c)) == CompletedIds(db) + Ids(c.selected)
    ensures CompletedIds(db) !! Ids(c.selected)
  {
    var added := Added(db, c);
    forall id | id in CompletedIds(db) + Ids(c.selected) ensures id in CompletedIds(added) {
      if id in Ids(c.selected) {
        assert Membership(c.id, id) in added.memberships;
      } else {
        var m :| m in db.memberships && m.entry == id;
        assert m in added.memberships;
      }
    }
  }

  /** An affected transaction holds a selected entry, which is a candidate of the completion. */
  lemma AffectedAt(db: Database, c: Completion, t: TxId) returns (i: nat)
    requires EntryIdsInv(db) && Admitted(db, c) && t in db.transactions
    requires Affected(db.transactions[t], c.space, Ids(c.selected))
    ensures CandidateAt(db, c, t, i) && db.transactions[t].entries[i].id in c.selected
  {
    i :| 0 <= i < |db.transactions[t].entries| && db.transactions[t].entries[i].space == c.space
         && db.transactions[t].entries[i].id in Ids(c.selected);
    var u, j := SelectedAt(db, c, db.transactions[t].entries[i].id);
    assert EntryAt(db, t, i, db.transactions[t].entries[i].id);
  }

  /** A transaction that is not affected, or not of the space, holds no selected entry. */
  lemma UnaffectedEntries(db: Database, c: Completion, t: TxId)
    requires RowsInv(db) && EntryIdsInv(db) && Admitted(db, c) && t in db.transactions
    requires !(db.transactions[t].space == c.space && Affected(db.transactions[t], c.space, Ids(c.selected)))
    ensures forall e :: e in db.transactions[t].entries ==> e.id !in c.selected
  {
    forall i | 0 <= i < |db.transactions[t].entries| ensures db.transactions[t].entries[i].id !in c.selected {
      var id := db.transactions[t].entries[i].id;
      if id in c.selected {
        var u, j := SelectedAt(db, c, id);
        assert EntryAt(db, t, i, id);
      }
    }
  }

  lemma EligibleIsCountable(db: Database, x: Transaction, e: Entry)
    requires CatalogInv(db) && Reconcilable(x, e, db.accounts)
    ensures Countable(db, e)
  {
  }

  lemma CandidateIsReconcilable(db: Database, c: Completion, t: TxId, i: nat)
    requires Admitted(db, c) && CandidateAt(db, c, t, i)
    ensures Reconcilable(db.transactions[t], db.transactions[t].entries[i], db.accounts)
    ensures db.transactions[t].space == c.space
  {
    assert EligibleAccount(db, c.space, c.account).Ok?;
  }

  // Memberships are added, the entry e of x among them; the catalog stays as it is.
  ghost predicate Gains(db: Database, added: Database, x: Transaction, e: Entry) {
    && added.accounts == db.accounts
    && CompletedIds(db) <= CompletedIds(added)
    && e in x.entries && Reconcilable(x, e, db.accounts)
    && e.id !in CompletedIds(db) && e.id in CompletedIds(added)
  }

  /** The earlier completed entry of a RECONCILED transaction and the one completed now are its only two. */
  lemma ReconciledStays(db: Database, added: Database, x: Transaction, e: Entry)
    requires RowOk(db, x) && StateOk(db, x) && Gains(db, added, x, e) && x.state == Reconciled
    ensures ReconcilableEntryIds(x, added.accounts) <= CompletedIds(added)
  {
    var d :| d in x.entries && Countable(db, d) && d.id in CompletedIds(db);
    assert forall f :: f in x.entries ==> f == d || f == e;
  }

  lemma ProjectedState(db: Database, added: Database, x: Transaction, e: Entry)
    requires CatalogInv(db) && RowOk(db, x) && StateOk(db, x) && Gains(db, added, x, e)
    requires x.state == Posted || x.state == Reconciled
    ensures var state := ProjectState(x, added.accounts, CompletedIds(added));
            && (state == Posted || state == Reconciled)
            && (x.state == Reconciled ==> state == Reconciled)
            && (state == Reconciled ==> AnyCompleted(added, x))
            && (state == Posted ==> !AllCompleted(added, x))
  {
    EligibleIsCountable(added, x, e);
    var ids := ReconcilableEntryIds(x, added.accounts);
    assert e.id in ids;
    if x.state == Reconciled {
      ReconciledStays(db, added, x, e);
    }
    if !(ids <= CompletedIds(added)) {
      var k :| 0 <= k < |x.entries| && Reconcilable(x, x.entries[k], added.accounts)
               && x.entries[k].id !in CompletedIds(added);
      EligibleIsCountable(added, x, x.entries[k]);
      assert !AllCompleted(added, x);
    }
  }

  // How a completion changes one row.
  ghost predicate Advances(x: Transaction, y: Transaction) {
    && y == x.(state := y.state)
    && (y.state == x.state || (x.state == Posted && y.state == Reconciled))
  }

  lemma CompletionAdvances(db: Database, c: Completion, t: TxId)
    requires CatalogInv(db) && RowsInv(db) && EntryIdsInv(db) && StatesInv(db) && Admitted(db, c)
    requires t in db.transactions
    ensures t in Completed(db, c).transactions
    ensures Advances(db.transactions[t], Completed(db, c).transactions[t])
    ensures StateOk(Completed(db, c), Completed(db, c).transactions[t])
  {
    hide CatalogInv, Reconcilable, ProjectState, Shape;
    var x, db' := db.transactions[t], Completed(db, c);
    var y := db'.transactions[t];
    assert RowOk(db, x) && StateOk(db, x);
    AddedIds(db, c);
    assert forall e :: Countable(db, e) <==> Countable(db', e);
    if x.space == c.space && Affected(x, c.space, Ids(c.selected)) {
      var i := AffectedAt(db, c, t);
      if x.state != Voided {
        CandidateIsReconcilable(db, c, t, i);
        ProjectedState(db, Added(db, c), x, x.entries[i]);
        SameStates(Added(db, c), db', x, y);
      }
    } else {
      UnaffectedEntries(db, c, t);
      assert forall e :: e in x.entries ==> (e.id in CompletedIds(db) <==> e.id in CompletedIds(db'));
      if x.state == Reconciled {
        var e :| e in x.entries && Countable(db, e) && e.id in CompletedIds(db);
        assert Countable(db', e);
      }
    }
  }

  lemma SameStates(db: Database, db': Database, x: Transaction, y: Transaction)
    requires db'.accounts == db.accounts && db'.memberships == db.memberships && y.entries == x.entries
    ensures AnyCompleted(db, x) == AnyCompleted(db', y)
    ensures AllCompleted(db, x) == AllCompleted(db', y)
  {
    assert forall e :: Countable(db, e) <==> Countable(db', e);
  }

  lemma AllAdvance(db: Database, c: Completion)
    requires CatalogInv(db) && RowsInv(db) && EntryIdsInv(db) && StatesInv(db) && Admitted(db, c)
    ensures forall t :: t in db.transactions <==> t in Completed(db, c).transactions
    ensures forall t :: t in db.transactions ==> Advances(db.transactions[t], Completed(db, c).transactions[t])
    ensures StatesInv(Completed(db, c))
  {
    forall t | t in db.transactions
      ensures t in Completed(db, c).transactions && Advances(db.transactions[t], Completed(db, c).transactions[t])
      ensures StateOk(Completed(db, c), Completed(db, c).transactions[t])
    {
      CompletionAdvances(db, c, t);
    }
  }

  // A database whose transactions have all advanced, with the same catalog, drafts and links.
  ghost predicate AllAdvanced(db: Database, db': Database) {
    && db'.accounts == db.accounts && db'.categories == db.categories
    && db'.details == db.details && db'.links == db.links
    && (forall t :: t in db.transactions <==> t in db'.transactions)
    && (forall t :: t in db.transactions ==> Advances(db.transactions[t], db'.transactions[t]))
  }

  lemma AdvanceKeepsRows(db: Database, db': Database)
    requires RowsInv(db) && EntryIdsInv(db) && AllAdvanced(db, db')
    ensures RowsInv(db') && EntryIdsInv(db')
  {
    RowsExtend(db, db');
    forall t | t in db'.transactions ensures RowOk(db', db'.transactions[t]) {
      assert RowOk(db', db.transactions[t]);
    }
    assert forall t, i: nat, id :: EntryAt(db', t, i, id) ==> EntryAt(db, t, i, id);
  }

  lemma AdvanceKeepsLinks(db: Database, db': Database)
    requires LinksInv(db) && AllAdvanced(db, db')
    ensures LinksInv(db')
  {
    forall o | o in db'.links ensures LinkOk(db', o, db'.links[o]) {
      assert LinkOk(db, o, db.links[o]);
    }
    forall t | IsReversal(db', t) ensures t in db'.links.Values {
      assert IsReversal(db, t);
    }
  }

  lemma CompletionKeepsMemberships(db: Database, c: Completion)
    requires CatalogInv(db) && MembershipsInv(db) && Admitted(db, c) && AllAdvanced(db, Completed(db, c))
    ensures MembershipsInv(Completed(db, c))
  {
    forall m | m in Completed(db, c).memberships ensures exists t, i :: Located(Completed(db, c), m, t, i) {
      MembershipLocated(db, c, m);
    }
    OneMembership(db, c);
  }

  lemma MembershipLocated(db: Database, c: Completion, m: Membership)
    requires CatalogInv(db) && MembershipsInv(db) && Admitted(db, c) && AllAdvanced(db, Completed(db, c))
    requires m in Completed(db, c).memberships
    ensures exists t, i :: Located(Completed(db, c), m, t, i)
  {
    hide Check, CatalogInv, Located;
    if m in db.memberships {
      var t, i :| Located(db, m, t, i);
      OldLocated(db, Completed(db, c), m, t, i);
    } else {
      assert m.reconciliation == c.id && m.entry in c.selected;
      NewLocated(db, c, m);
    }
  }

  lemma OldLocated(db: Database, db': Database, m: Membership, t: TxId, i: nat)
    requires Located(db, m, t, i) && AllAdvanced(db, db') && db'.accounts == db.accounts
    requires forall k :: k in db.reconciliations ==>
      k in db'.reconciliations && db'.reconciliations[k] == db.reconciliations[k]
    ensures Located(db', m, t, i)
  {
  }

  lemma NewLocated(db: Database, c: Completion, m: Membership)
    requires CatalogInv(db) && Admitted(db, c) && AllAdvanced(db, Completed(db, c))
    requires m.reconciliation == c.id && m.entry in c.selected
    ensures exists t, i :: Located(Completed(db, c), m, t, i)
  {
    hide Check, CatalogInv, AllAdvanced;
    var db' := Completed(db, c);
    var t, i := SelectedAt(db, c, m.entry);
    CandidateIsReconcilable(db, c, t, i);
    assert t in db'.transactions && Advances(db.transactions[t], db'.transactions[t]) by { AdvancedAt(db, db', t); }
    assert Located(db', m, t, i);
  }

  lemma AdvancedAt(db: Database, db': Database, t: TxId)
    requires AllAdvanced(db, db') && t in db.transactions
    ensures t in db'.transactions && Advances(db.transactions[t], db'.transactions[t])
  {
  }

  lemma OneMembership(db: Database, c: Completion)
    requires MembershipsInv(db) && Admitted(db, c)
    ensures var ms := Completed(db, c).memberships; forall m, n :: m in ms && n in ms && m.entry == n.entry ==> m == n
  {
    hide Check;
    var db' := Completed(db, c);
    AddedIds(db, c);
    forall m, n | m in db'.memberships && n in db'.memberships && m.entry == n.entry ensures m == n {
      if m in db.memberships {
        assert m.entry in CompletedIds(db);
      }
      if n in db.memberships {
        assert n.entry in CompletedIds(db);
      }
    }
  }

  lemma CompletionKeeps(db: Database, c: Completion)
    requires LedgerInv(db) && Admitted(db, c)
    ensures LedgerInv(Completed(db, c)) && AllAdvanced(db, Completed(db, c))
  {
    AllAdvance(db, c);
    AdvanceKeepsRows(db, Completed(db, c));
    AdvanceKeepsLinks(db, Completed(db, c));
    CompletionKeepsMemberships(db, c);
  }
}
