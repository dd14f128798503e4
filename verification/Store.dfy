/**
 The relational store behind a unit of work. Services write rows into a working copy one at a time; every write is
 checked against the table's keys and triggers, and any write may fail. A commit replaces the committed rows by the
 working copy.
 */
module Store {
  import opened Wrappers
  import opened Ledger
  import opened Database

  // Triggers of the schema, as conditions under which a row change is let through.

  // Lifecycle and posting guards on an update of a transaction's state.
  predicate StateUpdateAllowed(row: Transaction, state: State) {
    && (row.Visible() ==> Moves(row.state, state))
    && (state == Posted && row.state != Posted ==> |row.entries| >= 2 && SignedTotal(row.entries) == 0)
  }

  predicate EntryIdTaken(db: Database, id: EntryId) {
    exists t :: t in db.transactions && exists i ::
      0 <= i < |db.transactions[t].entries| && db.transactions[t].entries[i].id == id
  }

  lemma TakenIsHas(db: Database, id: EntryId)
    ensures EntryIdTaken(db, id) <==> HasEntry(db, id)
  {
    if EntryIdTaken(db, id) {
      var t :| t in db.transactions && exists i ::
        0 <= i < |db.transactions[t].entries| && db.transactions[t].entries[i].id == id;
      var i :| 0 <= i < |db.transactions[t].entries| && db.transactions[t].entries[i].id == id;
      assert EntryAt(db, t, i, id);
    }
    if HasEntry(db, id) {
      var t, i: nat :| EntryAt(db, t, i, id);
      assert t in db.transactions && db.transactions[t].entries[i].id == id;
    }
  }

  // Only a store that is set to fail fails on its own.
  predicate Faults<T>(failing: set<nat>, r: Result<T>) {
    failing == {} ==> !(r.Err? && r.error == Injected)
  }

  function WithRow(db: Database, id: TxId, row: Transaction): Database {
    db.(transactions := db.transactions[id := row])
  }

  class UnitOfWork {
    var committed: Database
    var working: Database
    var active: bool
    // The number of writes asked for so far, and the numbers of those that fail.
    var calls: nat
    const failing: set<nat>

    constructor (failing: set<nat>)
      ensures committed == EMPTY && !active && this.failing == failing
    {
      committed, working, active := EMPTY, EMPTY, false;
      this.failing, calls := failing, 0;
    }

    method Enter() returns (r: Result<()>)
      modifies this
      ensures r.Ok? <==> !old(active)
      ensures committed == old(committed)
      ensures r.Ok? ==> active && working == committed
      ensures r.Err? ==> active && working == old(working)
    {
      if active {
        return Err(InvalidLifecycle);
      }
      active, working := true, committed;
      return Ok(());
    }

    method Commit() returns (r: Result<()>)
      modifies this
      ensures !active
      ensures Faults(failing, r)
      ensures r.Err? ==> !old(active) || r.error == Injected
      ensures r.Ok? ==> old(active) && committed == old(working)
      ensures r.Err? ==> committed == old(committed)
    {
      if !active {
        return Err(InvalidLifecycle);
      }
      var write := Write();
      active := false;
      if write.Err? {
        return write;
      }
      committed := working;
      return Ok(());
    }

    method Rollback()
      modifies this
      ensures !active && committed == old(committed)
    {
      active := false;
    }

    // One call to the database, which may fail.
    method Write() returns (r: Result<()>)
      modifies this`calls
      ensures Faults(failing, r)
      ensures r == Ok(()) || r == Err(Injected)
    {
      calls := calls + 1;
      return if calls - 1 in failing then Err(Injected) else Ok(());
    }

    method InsertTransaction(id: TxId, row: Transaction) returns (r: Result<()>)
      modifies this`working, this`calls
      ensures Faults(failing, r)
      ensures r.Ok? ==> working == old(working).(transactions := old(working).transactions[id := row.(entries := [])])
      ensures r != Err(Injected) ==> (r.Ok? <==> id !in old(working).transactions)
      ensures r.Err? ==> r.error == Injected || r.error == IntegrityViolation
    {
      var _ :- Write();
      if id in working.transactions {
        return Err(IntegrityViolation);
      }
      working := working.(transactions := working.transactions[id := row.(entries := [])]);
      return Ok(());
    }

    // Posted entries are immutable: no entry joins a transaction that is already visible.
    method InsertEntry(id: TxId, e: Entry) returns (r: Result<()>)
      requires id in working.transactions
      modifies this`working, this`calls
      ensures Faults(failing, r)
      ensures r.Ok? ==> working == WithRow(old(working), id, old(working).transactions[id].(
                                            entries := InsertById(old(working).transactions[id].entries, e)))
      ensures r != Err(Injected) ==> (r == Err(TriggerAbort) <==> old(working).transactions[id].Visible())
      ensures r != Err(Injected) && r != Err(TriggerAbort) ==>
        (r.Ok? <==> !HasEntry(old(working), e.id) && e.amount > 0 && TargetExists(old(working), e)
                    && e.space == old(working).transactions[id].space)
      ensures r.Err? ==> r.error == Injected || r.error == TriggerAbort || r.error == IntegrityViolation
    {
      var _ :- Write();
      var row := working.transactions[id];
      if row.Visible() {
        return Err(TriggerAbort);
      }
      TakenIsHas(working, e.id);
      if EntryIdTaken(working, e.id) || e.amount <= 0 || !TargetExists(working, e) || e.space != row.space {
        return Err(IntegrityViolation);
      }
      working := WithRow(working, id, row.(entries := InsertById(row.entries, e)));
      return Ok(());
    }

    method UpdateState(id: TxId, state: State) returns (r: Result<()>)
      requires id in working.transactions
      modifies this`working, this`calls
      ensures Faults(failing, r)
      ensures r.Ok? ==> working == WithRow(old(working), id, old(working).transactions[id].(state := state))
      ensures r != Err(Injected) ==> (r.Ok? <==> StateUpdateAllowed(old(working).transactions[id], state))
      ensures r.Err? ==> r.error == Injected || r.error == TriggerAbort
    {
      var _ :- Write();
      var row := working.transactions[id];
      if !StateUpdateAllowed(row, state) {
        return Err(TriggerAbort);
      }
      working := WithRow(working, id, row.(state := state));
      return Ok(());
    }

    // The kind, dates and description of a posted transaction are immutable.
    method UpdateSnapshot(id: TxId, row: Transaction) returns (r: Result<()>)
      requires id in working.transactions
      modifies this`working, this`calls
      ensures Faults(failing, r)
      ensures r.Ok? ==> working == WithRow(old(working), id, row.(state := old(working).transactions[id].state,
                                                                  entries := old(working).transactions[id].entries))
      ensures r != Err(Injected) ==> (r.Ok? <==> !old(working).transactions[id].Visible())
      ensures r.Err? ==> r.error == Injected || r.error == TriggerAbort
    {
      var _ :- Write();
      var current := working.transactions[id];
      if current.Visible() {
        return Err(TriggerAbort);
      }
      working := WithRow(working, id, row.(state := current.state, entries := current.entries));
      return Ok(());
    }

    // Deleting a transaction cascades to its draft details; posted history cannot be deleted.
    method DeleteTransaction(id: TxId) returns (r: Result<()>)
      requires id in working.transactions
      modifies this`working, this`calls
      ensures Faults(failing, r)
      ensures r.Ok? ==> working == old(working).(transactions := old(working).transactions - {id},
                                                 details := old(working).details - {id})
      ensures r != Err(Injected) ==> (r.Ok? <==> !old(working).transactions[id].Visible())
      ensures r.Err? ==> r.error == Injected || r.error == TriggerAbort
    {
      var _ :- Write();
      if working.transactions[id].Visible() {
        return Err(TriggerAbort);
      }
      working := working.(transactions := working.transactions - {id}, details := working.details - {id});
      return Ok(());
    }

    // Names are unique among the accounts, and among the categories, of a space.

    method InsertAccount(id: AccountId, account: Account) returns (r: Result<()>)
      modifies this`working, this`calls
      ensures Faults(failing, r)
      ensures r.Ok? ==> working == old(working).(accounts := old(working).accounts[id := account])
      ensures r != Err(Injected) ==>
        (r.Ok? <==> id !in old(working).accounts && !AccountNameTaken(old(working), account.space, account.name, id))
      ensures r.Err? ==> r.error == Injected || r.error == DuplicateName
    {
      var _ :- Write();
      if id in working.accounts || AccountNameTaken(working, account.space, account.name, id) {
        return Err(DuplicateName);
      }
      working := working.(accounts := working.accounts[id := account]);
      return Ok(());
    }

    method UpdateAccount(id: AccountId, account: Account) returns (r: Result<()>)
      modifies this`working, this`calls
      ensures Faults(failing, r)
      ensures r.Ok? ==> working == old(working).(accounts := old(working).accounts[id := account])
      ensures r != Err(Injected) ==> (r.Ok? <==> !AccountNameTaken(old(working), account.space, account.name, id))
      ensures r.Err? ==> r.error == Injected || r.error == DuplicateName
    {
      var _ :- Write();
      if AccountNameTaken(working, account.space, account.name, id) {
        return Err(DuplicateName);
      }
      working := working.(accounts := working.accounts[id := account]);
      return Ok(());
    }

    method InsertCategory(id: CategoryId, category: Category) returns (r: Result<()>)
      modifies this`working, this`calls
      ensures Faults(failing, r)
      ensures r.Ok? ==> working == old(working).(categories := old(working).categories[id := category])
      ensures r != Err(Injected) ==>
        (r.Ok? <==>
          id !in old(working).categories && !CategoryNameTaken(old(working), category.space, category.name, id))
      ensures r.Err? ==> r.error == Injected || r.error == DuplicateName
    {
      var _ :- Write();
      if id in working.categories || CategoryNameTaken(working, category.space, category.name, id) {
        return Err(DuplicateName);
      }
      working := working.(categories := working.categories[id := category]);
      return Ok(());
    }

    method UpdateCategory(id: CategoryId, category: Category) returns (r: Result<()>)
      modifies this`working, this`calls
      ensures Faults(failing, r)
      ensures r.Ok? ==> working == old(working).(categories := old(working).categories[id := category])
      ensures r != Err(Injected) ==> (r.Ok? <==> !CategoryNameTaken(old(working), category.space, category.name, id))
      ensures r.Err? ==> r.error == Injected || r.error == DuplicateName
    {
      var _ :- Write();
      if CategoryNameTaken(working, category.space, category.name, id) {
        return Err(DuplicateName);
      }
      working := working.(categories := working.categories[id := category]);
      return Ok(());
    }

    method InsertDetails(id: TxId, details: DraftDetails) returns (r: Result<()>)
      modifies this`working, this`calls
      ensures Faults(failing, r)
      ensures r.Ok? ==> working == old(working).(details := old(working).details[id := details])
      ensures r != Err(Injected) ==> (r.Ok? <==> id !in old(working).details)
      ensures r.Err? ==> r.error == Injected || r.error == IntegrityViolation
    {
      var _ :- Write();
      if id in working.details {
        return Err(IntegrityViolation);
      }
      working := working.(details := working.details[id := details]);
      return Ok(());
    }

    method UpdateDetails(id: TxId, details: DraftDetails) returns (r: Result<()>)
      modifies this`working, this`calls
      ensures Faults(failing, r)
      ensures r.Ok? ==> working == old(working).(details := old(working).details[id := details])
      ensures r.Err? ==> r.error == Injected
    {
      var _ :- Write();
      working := working.(details := working.details[id := details]);
      return Ok(());
    }

    method DeleteDetails(id: TxId) returns (r: Result<()>)
      modifies this`working, this`calls
      ensures Faults(failing, r)
      ensures r.Ok? ==> working == old(working).(details := old(working).details - {id})
      ensures r.Err? ==> r.error == Injected
    {
      var _ :- Write();
      working := working.(details := working.details - {id});
      return Ok(());
    }

    // Both ends of a reversal link are unique and they differ.
    method InsertLink(original: TxId, reversal: TxId) returns (r: Result<()>)
      modifies this`working, this`calls
      ensures Faults(failing, r)
      ensures r.Ok? ==> working == old(working).(links := old(working).links[original := reversal])
      ensures r != Err(Injected) ==>
        (r.Ok? <==> original !in old(working).links && reversal !in old(working).links.Values && original != reversal)
      ensures r.Err? ==> r.error == Injected || r.error == IntegrityViolation
    {
      var _ :- Write();
      if original in working.links || reversal in working.links.Values || original == reversal {
        return Err(IntegrityViolation);
      }
      working := working.(links := working.links[original := reversal]);
      return Ok(());
    }

    method PutKey(slot: (SpaceId, Key), record: IdempotencyRecord) returns (r: Result<()>)
      modifies this`working, this`calls
      ensures Faults(failing, r)
      ensures r.Ok? ==> working == old(working).(keys := old(working).keys[slot := record])
      ensures r.Err? ==> r.error == Injected
    {
      var _ :- Write();
      working := working.(keys := working.keys[slot := record]);
      return Ok(());
    }

    method InsertReconciliation(id: ReconciliationId, record: ReconciliationRecord) returns (r: Result<()>)
      modifies this`working, this`calls
      ensures Faults(failing, r)
      ensures r.Ok? ==> working == old(working).(reconciliations := old(working).reconciliations[id := record])
      ensures r != Err(Injected) ==> (r.Ok? <==> id !in old(working).reconciliations)
      ensures r.Err? ==> r.error == Injected || r.error == IntegrityViolation
    {
      var _ :- Write();
      if id in working.reconciliations {
        return Err(IntegrityViolation);
      }
      working := working.(reconciliations := working.reconciliations[id := record]);
      return Ok(());
    }

    // An entry has at most one completed membership.
    method InsertMembership(m: Membership) returns (r: Result<()>)
      modifies this`working, this`calls
      ensures Faults(failing, r)
      ensures r.Ok? ==> working == old(working).(memberships := old(working).memberships + {m})
      ensures r != Err(Injected) ==> (r.Ok? <==> m.entry !in CompletedIds(old(working)))
      ensures r.Err? ==> r.error == Injected || r.error == DuplicateMembership
    {
      var _ :- Write();
      if m.entry in CompletedIds(working) {
        return Err(DuplicateMembership);
      }
      working := working.(memberships := working.memberships + {m});
      return Ok(());
    }

    method AppendEvent(event: AuditEvent) returns (r: Result<()>)
      modifies this`working, this`calls
      ensures Faults(failing, r)
      ensures r.Ok? ==> working == old(working).(audit := old(working).audit + [event])
      ensures r.Err? ==> r.error == Injected
    {
      var _ :- Write();
      working := working.(audit := working.audit + [event]);
      return Ok(());
    }
  }
}
