/** Row-by-row writing of transactions: the repository methods the ledger services share. */
module LedgerRepository {
  import opened Wrappers
  import opened Ledger
  import opened Database
  import opened Commands
  import opened Store

  // Storing entries one at a time keeps their total and their set.

  lemma {:induction false} InsertKeeps(entries: seq<Entry>, e: Entry)
    ensures SignedTotal(InsertById(entries, e)) == SignedTotal(entries) + e.Signed()
    ensures forall f :: f in InsertById(entries, e) <==> f == e || f in entries
  {
    if entries == [] {
      assert [e][1..] == [];
    } else if e.id.Before(entries[0].id) {
      assert ([e] + entries)[1..] == entries;
    } else {
      InsertKeeps(entries[1..], e);
      assert ([entries[0]] + InsertById(entries[1..], e))[1..] == InsertById(entries[1..], e);
      assert entries == [entries[0]] + entries[1..];
    }
  }

  lemma {:induction false} TotalOfMore(entries: seq<Entry>, e: Entry)
    ensures SignedTotal(entries + [e]) == SignedTotal(entries) + e.Signed()
  {
    if entries == [] {
      assert entries + [e] == [e] && [e][1..] == [];
    } else {
      assert (entries + [e])[1..] == entries[1..] + [e];
      TotalOfMore(entries[1..], e);
    }
  }

  lemma {:induction false} StoredKeeps(entries: seq<Entry>)
    ensures SignedTotal(StoredOrder(entries)) == SignedTotal(entries)
    ensures forall f :: f in StoredOrder(entries) <==> f in entries
  {
    if entries != [] {
      var front, last := entries[..|entries| - 1], entries[|entries| - 1];
      StoredKeeps(front);
      InsertKeeps(StoredOrder(front), last);
      TotalOfMore(front, last);
      assert entries == front + [last];
    }
  }

  // A transaction whose entries the schema accepts once their ids are new.
  ghost predicate Postable(db: Database, x: Transaction) {
    && x.state == Posted
    && |x.entries| >= 2 && SignedTotal(x.entries) == 0
    && forall e :: e in x.entries ==> e.space == x.space && e.amount > 0 && TargetExists(db, e)
  }

  // No two of the first n entries have the same id and none is taken.
  ghost predicate NewIds(db: Database, entries: seq<Entry>, n: nat)
    requires n <= |entries|
  {
    && (forall i :: 0 <= i < n ==> !HasEntry(db, entries[i].id))
    && (forall i, j :: 0 <= i < j < n ==> entries[i].id != entries[j].id)
  }

  // The database while the first n entries of a transaction have been inserted.
  ghost function Partial(db: Database, id: TxId, x: Transaction, n: nat): Database
    requires n <= |x.entries|
  {
    WithRow(db, id, x.(state := Posting, entries := StoredOrder(x.entries[..n])))
  }

  lemma PartialHas(db: Database, id: TxId, x: Transaction, n: nat, eid: EntryId)
    requires n <= |x.entries| && (id in db.transactions ==> db.transactions[id].entries == [])
    ensures HasEntry(Partial(db, id, x, n), eid)
       <==> HasEntry(db, eid) || exists j :: 0 <= j < n && x.entries[j].id == eid
  {
    var part, stored := Partial(db, id, x, n), StoredOrder(x.entries[..n]);
    StoredKeeps(x.entries[..n]);
    if HasEntry(part, eid) {
      var t, i: nat :| EntryAt(part, t, i, eid);
      if t == id {
        assert stored[i] in x.entries[..n];
        var j :| 0 <= j < n && x.entries[j] == stored[i];
      } else {
        assert EntryAt(db, t, i, eid);
      }
    }
    if HasEntry(db, eid) {
      var t, i: nat :| EntryAt(db, t, i, eid);
      assert EntryAt(part, t, i, eid);
    }
    if j :| 0 <= j < n && x.entries[j].id == eid {
      assert x.entries[j] == x.entries[..n][j];
      assert x.entries[j] in stored;
      var i: nat :| i < |stored| && stored[i] == x.entries[j];
      assert EntryAt(part, id, i, eid);
    }
  }

  lemma PartialNext(db: Database, id: TxId, x: Transaction, n: nat)
    requires n < |x.entries|
    ensures Partial(db, id, x, n + 1)
         == WithRow(Partial(db, id, x, n), id,
                    x.(state := Posting, entries := InsertById(StoredOrder(x.entries[..n]), x.entries[n])))
  {
    assert x.entries[..n + 1][..n] == x.entries[..n];
  }

  // Whether entry n can be inserted: its id is new, unless two ids clash.
  lemma NextEntry(db: Database, id: TxId, x: Transaction, n: nat)
    requires n < |x.entries| && (id in db.transactions ==> db.transactions[id].entries == [])
    requires NewIds(db, x.entries, n)
    ensures if HasEntry(Partial(db, id, x, n), x.entries[n].id) then EntriesClash(db, x.entries)
            else NewIds(db, x.entries, n + 1)
  {
    PartialHas(db, id, x, n, x.entries[n].id);
  }

  lemma PartialRow(db: Database, id: TxId, x: Transaction, n: nat)
    requires n <= |x.entries|
    ensures id in Partial(db, id, x, n).transactions
    ensures Partial(db, id, x, n).transactions[id].state == Posting
    ensures Partial(db, id, x, n).transactions[id].space == x.space
    ensures forall e :: TargetExists(Partial(db, id, x, n), e) == TargetExists(db, e)
  {
  }

  lemma AllNew(db: Database, entries: seq<Entry>)
    requires NewIds(db, entries, |entries|)
    ensures !EntriesClash(db, entries)
  {
  }

  /** Inserts the entries of a transaction that is being posted; only a clash of ids can stop it. */
  method AddEntries(uow: UnitOfWork, ghost db: Database, id: TxId, x: Transaction) returns (r: Result<()>)
    requires Postable(db, x) && (id in db.transactions ==> db.transactions[id].entries == [])
    requires uow.working == Partial(db, id, x, 0)
    modifies uow`working, uow`calls
    ensures Faults(uow.failing, r)
    ensures r.Ok? ==> uow.working == Partial(db, id, x, |x.entries|) && !EntriesClash(db, x.entries)
    ensures r.Err? ==> r.error == Injected || (r.error == IntegrityViolation && EntriesClash(db, x.entries))
  {
    hide EntriesClash, HasEntry, NewIds, StoredOrder, InsertById, SignedTotal;
    assert NewIds(db, x.entries, 0) by { NoneNew(db, x.entries); }
    for i := 0 to |x.entries|
      invariant uow.working == Partial(db, id, x, i)
      invariant NewIds(db, x.entries, i)
    {
      NextEntry(db, id, x, i);
      PartialNext(db, id, x, i);
      PartialRow(db, id, x, i);
      assert x.entries[i] in x.entries;
      var _ :- uow.InsertEntry(id, x.entries[i]);
    }
    AllNew(db, x.entries);
    return Ok(());
  }

  lemma NoneNew(db: Database, entries: seq<Entry>)
    ensures NewIds(db, entries, 0)
  {
  }

  // When all entries are in, the row may be posted and is the one the command asked for.
  lemma PartialComplete(db: Database, id: TxId, x: Transaction)
    requires Postable(db, x)
    ensures var part := Partial(db, id, x, |x.entries|);
            && id in part.transactions && StateUpdateAllowed(part.transactions[id], Posted)
            && WithRow(part, id, part.transactions[id].(state := Posted))
              == WithRow(db, id, x.(entries := StoredOrder(x.entries)))
  {
    assert x.entries[..|x.entries|] == x.entries;
    StoredKeeps(x.entries);
  }

  lemma PartialStart(db: Database, id: TxId, x: Transaction)
    ensures Partial(db, id, x, 0) == WithRow(db, id, x.(state := Posting, entries := []))
  {
    assert x.entries[..0] == [];
  }

  /** Writes a new transaction: first without being visible, then its entries, then posted. */
  method AddPosted(uow: UnitOfWork, id: TxId, x: Transaction) returns (r: Result<()>)
    requires Postable(uow.working, x)
    modifies uow`working, uow`calls
    ensures Faults(uow.failing, r)
    ensures r.Ok? ==> Commands.AddPosted(old(uow.working), id, x) == Ok(uow.working)
    ensures r.Err? ==> r.error == Injected || Commands.AddPosted(old(uow.working), id, x) == Err(r.error)
  {
    hide Postable, EntriesClash, Partial, StoredOrder, StateUpdateAllowed;
    ghost var db := uow.working;
    PartialStart(db, id, x);
    PartialComplete(db, id, x);
    var _ :- uow.InsertTransaction(id, x.(state := Posting));
    var _ :- AddEntries(uow, db, id, x);
    var _ :- uow.UpdateState(id, Posted);
    return Ok(());
  }

  /** Turns an existing draft into a posted transaction and drops its details. */
  method PostExistingDraft(uow: UnitOfWork, id: TxId, x: Transaction) returns (r: Result<()>)
    requires Postable(uow.working, x)
    requires id in uow.working.transactions && uow.working.transactions[id].state == Draft ==>
      uow.working.transactions[id].entries == []
    modifies uow`working, uow`calls
    ensures Faults(uow.failing, r)
    ensures r.Ok? ==> Commands.PostExistingDraft(old(uow.working), id, x) == Ok(uow.working)
    ensures r.Err? ==> r.error == Injected || Commands.PostExistingDraft(old(uow.working), id, x) == Err(r.error)
  {
    hide Postable, EntriesClash, Partial, StoredOrder, SignedTotal;
    ghost var db := uow.working;
    var current :- GetTransaction(uow.working, x.space, id);
    if current.state != Draft {
      return Err(Immutable);
    }
    PartialStart(db, id, x);
    PartialComplete(db, id, x);
    var _ :- uow.UpdateSnapshot(id, x);
    var _ :- uow.UpdateState(id, Posting);
    var _ :- AddEntries(uow, db, id, x);
    var _ :- uow.UpdateState(id, Posted);
    var _ :- GetDetails(uow.working, x.space, id);
    var _ :- uow.DeleteDetails(id);
    return Ok(());
  }

  method MarkVoided(uow: UnitOfWork, space: SpaceId, id: TxId) returns (r: Result<()>)
    modifies uow`working, uow`calls
    ensures Faults(uow.failing, r)
    ensures r.Ok? ==> Commands.MarkVoided(old(uow.working), space, id) == Ok(uow.working)
    ensures r.Err? ==> r.error == Injected || Commands.MarkVoided(old(uow.working), space, id) == Err(r.error)
  {
    var current :- GetTransaction(uow.working, space, id);
    if current.state != Posted && current.state != Reconciled {
      return Err(Immutable);
    }
    var _ :- uow.UpdateState(id, Voided);
    return Ok(());
  }

  method AddDraft(uow: UnitOfWork, id: TxId, request: DraftRequest, replacementOf: Option<TxId>) returns (r: Result<()>)
    modifies uow`working, uow`calls
    ensures Faults(uow.failing, r)
    ensures r.Ok? ==> Commands.AddDraft(old(uow.working), id, request, replacementOf) == Ok(uow.working)
    ensures r.Err? ==>
      || r.error == Injected
      || Commands.AddDraft(old(uow.working), id, request, replacementOf) == Err(r.error)
  {
    var _ :- uow.InsertTransaction(id, DraftRow(request));
    var _ :- uow.InsertDetails(id, DetailsOf(request, replacementOf));
    return Ok(());
  }

  /** Rewrites a draft and its details; the request has been validated by the service. */
  method UpdateDraft(uow: UnitOfWork, id: TxId, request: DraftRequest) returns (r: Result<()>)
    requires id in uow.working.transactions && uow.working.transactions[id].state == Draft ==>
      uow.working.transactions[id].entries == []
    modifies uow`working, uow`calls
    ensures Faults(uow.failing, r)
    ensures request.amount > 0 && ValidateSelections(old(uow.working), request).Ok? ==>
      (r.Ok? ==> Commands.UpdateDraft(old(uow.working), id, request) == Ok(uow.working))
      && (r.Err? ==> r.error == Injected || Commands.UpdateDraft(old(uow.working), id, request) == Err(r.error))
  {
    var current :- GetTransaction(uow.working, request.space, id);
    if current.state != Draft {
      return Err(Immutable);
    }
    var _ :- uow.UpdateSnapshot(id, DraftRow(request));
    var _ :- GetDetails(uow.working, request.space, id);
    var _ :- uow.UpdateDetails(id, DetailsOf(request, None));
    return Ok(());
  }

  method DiscardDraft(uow: UnitOfWork, space: SpaceId, id: TxId) returns (r: Result<()>)
    modifies uow`working, uow`calls
    ensures Faults(uow.failing, r)
    ensures r.Ok? ==> Commands.DiscardDraft(old(uow.working), space, id) == Ok(uow.working)
    ensures r.Err? ==> r.error == Injected || Commands.DiscardDraft(old(uow.working), space, id) == Err(r.error)
  {
    var current :- GetTransaction(uow.working, space, id);
    if current.state != Draft {
      return Err(Immutable);
    }
    var _ :- uow.DeleteTransaction(id);
    return Ok(());
  }
}
