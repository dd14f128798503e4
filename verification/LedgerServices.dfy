/**
 The posting, reversal and draft use cases, each inside its unit of work. Every method is proved against what the
 command does to the database as a value, so a failing write anywhere leaves the committed rows as they were.
 */
module LedgerServices {
  import opened Wrappers
  import opened Ledger
  import opened Database
  import opened Commands
  import opened Invariants
  import opened PostingProofs
  import opened ReversalProofs
  import opened Reachability
  import opened Store
  import L = LedgerRepository

  lemma PairIsPostable(db: Database, x: Transaction)
    requires |x.entries| == 2 && PairOf(db, x, x.entries[0], x.entries[1]) && x.state == Posted
    ensures L.Postable(db, x)
  {
    assert x.entries[1..][1..] == [];
    assert SignedTotal(x.entries[1..]) == x.entries[1].Signed() + SignedTotal(x.entries[1..][1..]);
  }

  method EnsureEquity(uow: UnitOfWork, space: SpaceId) returns (r: Result<()>)
    modifies uow`working, uow`calls
    ensures Faults(uow.failing, r)
    ensures r.Ok? ==> Commands.EnsureEquity(old(uow.working), space) == Ok(uow.working)
    ensures r.Err? ==> r.error == Injected || Commands.EnsureEquity(old(uow.working), space) == Err(r.error)
  {
    if GetAccount(uow.working, space, OpeningEquity(space)).Ok? {
      return Ok(());
    }
    r := uow.InsertAccount(OpeningEquity(space), Account(space, EQUITY_NAME, Equity, false, false));
  }

  method BuildOpening(uow: UnitOfWork, space: SpaceId, id: AccountId, amount: Cents, economicDate: Date,
                      description: string, supply: Supply) returns (r: Result<Transaction>)
    modifies uow`working, uow`calls
    ensures Faults(uow.failing, r)
    ensures r.Ok? ==>
      Commands.BuildOpening(old(uow.working), space, id, amount, economicDate, description, supply)
        == Ok(Build(uow.working, r.value))
    ensures r.Err? ==>
      || r.error == Injected
      || Commands.BuildOpening(old(uow.working), space, id, amount, economicDate, description, supply) == Err(r.error)
  {
    hide PostedTransaction, OpeningEntries;
    var account :- ActiveAccount(uow.working, space, id);
    var _ :- EnsureEquity(uow, space);
    OnlyOwnErrors(space, id, account.kind, amount, supply, economicDate, description);
    var entries :- OpeningEntries(space, id, account.kind, OpeningEquity(space), amount,
                                  EntryId(supply.entry0, 0), EntryId(supply.entry1, 0));
    r := PostedTransaction(space, Opening, economicDate, None, description, entries);
  }

  // None of the pure checks reports an injected failure.
  lemma OnlyOwnErrors(space: SpaceId, id: AccountId, kind: AccountKind, amount: Cents, supply: Supply,
                      economicDate: Date,
                      description: string)
    ensures OpeningEntries(space, id, kind, OpeningEquity(space), amount, EntryId(supply.entry0, 0),
                           EntryId(supply.entry1, 0)) != Err(Injected)
    ensures forall k, cash, entries :: PostedTransaction(space, k, economicDate, cash, description,
                                                         entries) != Err(Injected)
  {
  }

  lemma NoInjectedBuild(db: Database, c: Command, supply: Supply)
    requires !c.Reverse?
    ensures Commands.BuildPosting(db, c, supply) != Err(Injected)
  {
  }

  /** Builds the transaction a posting command asks for; opening an account may add the equity account on the way. */
  method BuildPosting(uow: UnitOfWork, c: Command, supply: Supply) returns (r: Result<Transaction>)
    requires !c.Reverse?
    modifies uow`working, uow`calls
    ensures Faults(uow.failing, r)
    ensures r.Ok? ==> Commands.BuildPosting(old(uow.working), c, supply) == Ok(Build(uow.working, r.value))
    ensures r.Err? ==> r.error == Injected || Commands.BuildPosting(old(uow.working), c, supply) == Err(r.error)
  {
    hide Commands.BuildOpening, BuildMovement, BuildTransfer, Commands.BuildFromDraft, ValidateSelections;
    if c.CreateOpening? {
      r := BuildOpening(uow, c.space, c.account, c.amount, c.economicDate, c.description, supply);
    } else if c.PostDraft? {
      var draft :- GetTransaction(uow.working, c.space, c.draft);
      var details :- GetDetails(uow.working, c.space, c.draft);
      var request := RequestOf(draft, details, c.cashDate);
      NoInjectedSelections(uow.working, request);
      var _ :- ValidateSelections(uow.working, request);
      r := BuildFromDraft(uow, request, supply);
    } else {
      NoInjectedBuild(uow.working, c, supply);
      var build :- Commands.BuildPosting(uow.working, c, supply);
      BuildsInPlace(uow.working, c, supply);
      r := Ok(build.tx);
    }
  }

  lemma NoInjectedSelections(db: Database, request: DraftRequest)
    ensures ValidateSelections(db, request) != Err(Injected)
  {
  }

  // Only an opening writes while it is built.
  lemma BuildsInPlace(db: Database, c: Command, supply: Supply)
    requires !c.Reverse? && !c.CreateOpening? && !c.PostDraft? && Commands.BuildPosting(db, c, supply).Ok?
    ensures Commands.BuildPosting(db, c, supply).value.db == db
  {
  }

  method BuildFromDraft(uow: UnitOfWork, request: DraftRequest, supply: Supply) returns (r: Result<Transaction>)
    modifies uow`working, uow`calls
    ensures Faults(uow.failing, r)
    ensures r.Ok? ==> Commands.BuildFromDraft(old(uow.working), request, supply) == Ok(Build(uow.working, r.value))
    ensures r.Err? ==> r.error == Injected || Commands.BuildFromDraft(old(uow.working), request, supply) == Err(r.error)
  {
    hide PostedTransaction, Commands.BuildOpening, MovementEntries, TransferEntries;
    if request.account.None? {
      return Err(InvalidLifecycle);
    }
    NoInjectedEntries(request, supply);
    var cashDate := Some(DefaultDate(request.cashDate, request.economicDate));
    if request.kind == Opening {
      r := BuildOpening(uow, request.space, request.account.value, request.amount, request.economicDate,
                        request.description, supply);
    } else if (request.kind == Income || request.kind == Expense) && request.category.Some? {
      var entries :- MovementEntries(request.kind, request.space, request.account.value, request.category.value,
                                     request.amount, supply);
      r := PostedTransaction(request.space, request.kind, request.economicDate, cashDate, request.description, entries);
    } else if request.kind == Transfer && request.destination.Some? {
      var entries :- TransferEntries(request.space, request.account.value, request.destination.value, request.amount,
                                     EntryId(supply.entry0, 0), EntryId(supply.entry1, 0));
      r := PostedTransaction(request.space, request.kind, request.economicDate, cashDate, request.description, entries);
    } else {
      r := Err(InvalidLifecycle);
    }
  }

  lemma NoInjectedEntries(request: DraftRequest, supply: Supply)
    ensures request.account.Some? && request.category.Some? ==>
      MovementEntries(request.kind, request.space, request.account.value, request.category.value, request.amount,
                      supply) != Err(Injected)
    ensures request.account.Some? && request.destination.Some? ==>
      TransferEntries(request.space, request.account.value, request.destination.value, request.amount,
                      EntryId(supply.entry0, 0), EntryId(supply.entry1, 0)) != Err(Injected)
    ensures forall kind, economicDate, cash, entries ::
      PostedTransaction(request.space, kind, economicDate, cash, request.description, entries) != Err(Injected)
  {
  }

  lemma BuiltIsPostable(db: Database, c: Command, supply: Supply)
    requires CatalogInv(db) && !c.Reverse? && Commands.BuildPosting(db, c, supply).Ok?
    ensures var build := Commands.BuildPosting(db, c, supply).value;
            L.Postable(build.db, build.tx) && build.db.transactions == db.transactions
  {
    hide Commands.BuildPosting;
    PostingBuilds(db, c, supply);
    PairIsPostable(Commands.BuildPosting(db, c, supply).value.db, Commands.BuildPosting(db, c, supply).value.tx);
  }

  lemma DraftsAreEmpty(db: Database)
    requires RowsInv(db)
    ensures forall t :: t in db.transactions && db.transactions[t].state == Draft ==> db.transactions[t].entries == []
  {
    forall t | t in db.transactions && db.transactions[t].state == Draft ensures db.transactions[t].entries == [] {
      assert RowOk(db, db.transactions[t]);
    }
  }

  method ExecutePosting(uow: UnitOfWork, c: Command, supply: Supply) returns (r: Result<CommandResult>)
    requires LedgerInv(uow.working) && !c.Reverse?
    modifies uow`working, uow`calls
    ensures Faults(uow.failing, r)
    ensures r.Ok? ==> Commands.ExecutePosting(old(uow.working), c, supply) == Ok(Effect(uow.working, r.value))
    ensures r.Err? ==> r.error == Injected || Commands.ExecutePosting(old(uow.working), c, supply) == Err(r.error)
  {
    hide Commands.BuildPosting, Commands.AddPosted, Commands.PostExistingDraft, LedgerInv, L.Postable;
    ghost var db := uow.working;
    assert CatalogInv(db) && RowsInv(db) by { PartsOf(db); }
    DraftsAreEmpty(db);
    var x :- BuildPosting(uow, c, supply);
    BuiltIsPostable(db, c, supply);
    if c.PostDraft? {
      var _ :- L.PostExistingDraft(uow, c.draft, x);
      r := Ok(CommandResult(c.draft, Posted, false, None));
    } else {
      var _ :- L.AddPosted(uow, supply.tx, x);
      r := Ok(CommandResult(supply.tx, Posted, false, None));
    }
  }

  // Reversal

  lemma ReversalIsPostable(db: Database, original: Transaction, c: Command, supply: Supply)
    requires c.Reverse? && RowOk(db, original) && original.space == c.space && BuildReversal(original, c, supply).Ok?
    ensures L.Postable(db, BuildReversal(original, c, supply).value)
  {
    ReversalBuilds(db, original, c, supply);
    var x := BuildReversal(original, c, supply).value;
    assert x.entries[1..][1..] == [];
    assert SignedTotal(x.entries[1..]) == x.entries[1].Signed() + SignedTotal(x.entries[1..][1..]);
  }

  lemma NoInjectedReversal(original: Transaction, c: Command, supply: Supply)
    requires c.Reverse?
    ensures BuildReversal(original, c, supply) != Err(Injected)
  {
  }

  method AddReplacement(uow: UnitOfWork, c: Command, id: TxId) returns (r: Result<()>)
    requires c.Reverse?
    modifies uow`working, uow`calls
    ensures Faults(uow.failing, r)
    ensures r.Ok? ==> Commands.AddReplacement(old(uow.working), c, id) == Ok(uow.working)
    ensures r.Err? ==> r.error == Injected || Commands.AddReplacement(old(uow.working), c, id) == Err(r.error)
  {
    if c.replacement.None? {
      return Ok(());
    }
    var replacement := c.replacement.value;
    if replacement.space != c.space {
      return Err(InvalidLifecycle);
    }
    if replacement.amount <= 0 {
      return Err(InvalidLifecycle);
    }
    r := L.AddDraft(uow, id, replacement, Some(c.original));
  }

  method ExecuteReversal(uow: UnitOfWork, c: Command, supply: Supply) returns (r: Result<CommandResult>)
    requires LedgerInv(uow.working) && c.Reverse?
    modifies uow`working, uow`calls
    ensures Faults(uow.failing, r)
    ensures r.Ok? ==> Commands.ExecuteReversal(old(uow.working), c, supply) == Ok(Effect(uow.working, r.value))
    ensures r.Err? ==> r.error == Injected || Commands.ExecuteReversal(old(uow.working), c, supply) == Err(r.error)
  {
    hide BuildReversal, Commands.AddPosted, Commands.MarkVoided, Commands.AddReplacement, LedgerInv, L.Postable, RowOk;
    ghost var db := uow.working;
    var original :- GetTransaction(uow.working, c.space, c.original);
    assert RowOk(db, original) by { RowOf(db, c.original); }
    NoInjectedReversal(original, c, supply);
    var reversal :- BuildReversal(original, c, supply);
    ReversalIsPostable(db, original, c, supply);
    var _ :- L.AddPosted(uow, supply.tx, reversal);
    var _ :- L.MarkVoided(uow, c.space, c.original);
    var _ :- uow.InsertLink(c.original, supply.tx);
    var _ :- AddReplacement(uow, c, supply.replacement);
    r := Ok(CommandResult(supply.tx, Posted, false, if c.replacement.None? then None else Some(supply.replacement)));
  }

  lemma RowOf(db: Database, t: TxId)
    requires LedgerInv(db) && t in db.transactions
    ensures RowOk(db, db.transactions[t])
  {
  }

  // The unit of work around a command

  method Execute(uow: UnitOfWork, c: Command, supply: Supply) returns (r: Result<CommandResult>)
    requires LedgerInv(uow.working)
    modifies uow`working, uow`calls
    ensures Faults(uow.failing, r)
    ensures r.Ok? ==> Commands.Execute(old(uow.working), c, supply) == Ok(Effect(uow.working, r.value))
    ensures r.Err? ==> r.error == Injected || Commands.Execute(old(uow.working), c, supply) == Err(r.error)
  {
    hide LedgerInv, Commands.ExecutePosting, Commands.ExecuteReversal;
    if c.Reverse? {
      r := ExecuteReversal(uow, c, supply);
    } else {
      r := ExecutePosting(uow, c, supply);
    }
  }

  /** Reserves the key in the working copy, or finds the stored result to replay. */
  method Reserve(uow: UnitOfWork, call: Call) returns (r: Result<Option<CommandResult>>)
    modifies uow`working, uow`calls
    ensures Faults(uow.failing, r)
    ensures r.Ok? && r.value.None? ==> Commands.Reserve(old(uow.working), call) == Ok(Reserved(uow.working))
    ensures r.Ok? && r.value.Some? ==>
      Commands.Reserve(old(uow.working), call) == Ok(Replay(r.value.value)) && uow.working == old(uow.working)
    ensures r.Err? ==> r.error == Injected || Commands.Reserve(old(uow.working), call) == Err(r.error)
  {
    if call.key == "" {
      return Err(InvalidKey);
    }
    if call.Slot() in uow.working.keys {
      var record := uow.working.keys[call.Slot()];
      if record.command != call.command {
        return Err(KeyConflict);
      }
      if record.result.None? {
        return Err(KeyInProgress);
      }
      return Ok(Some(record.result.value.(replayed := true)));
    }
    var _ :- uow.PutKey(call.Slot(), IdempotencyRecord(call.command, None));
    return Ok(None);
  }

  lemma ReservedKeeps(db: Database, call: Call)
    requires LedgerInv(db) && Commands.Reserve(db, call).Ok? && Commands.Reserve(db, call).value.Reserved?
    ensures LedgerInv(Commands.Reserve(db, call).value.db)
  {
    SameLedger(db, Commands.Reserve(db, call).value.db);
  }

  // What runs between entering the unit of work and committing it. A replay writes nothing.
  method RunCommand(uow: UnitOfWork, call: Call) returns (r: Result<CommandResult>)
    requires LedgerInv(uow.working)
    modifies uow`working, uow`calls
    ensures Faults(uow.failing, r)
    ensures r.Ok? ==> Attempt(old(uow.working), call) == Ok(Effect(uow.working, r.value))
    ensures r.Err? ==> r.error == Injected || Attempt(old(uow.working), call) == Err(r.error)
    ensures r.Ok? && r.value.replayed ==> uow.working == old(uow.working)
  {
    hide LedgerInv, Commands.Execute;
    ghost var db := uow.working;
    var replay :- Reserve(uow, call);
    if replay.Some? {
      return Ok(replay.value);
    }
    ReservedKeeps(db, call);
    var result :- Execute(uow, call.command, call.supply);
    NotReplayed(Commands.Reserve(db, call).value.db, call.command, call.supply);
    var _ :- uow.PutKey(call.Slot(), IdempotencyRecord(call.command, Some(result)));
    var _ :- uow.AppendEvent(SuccessEvent(call, result));
    return Ok(result);
  }

  lemma NotReplayed(db: Database, c: Command, supply: Supply)
    requires Commands.Execute(db, c, supply).Ok?
    ensures !Commands.Execute(db, c, supply).value.result.replayed
  {
  }

  method AttemptCommand(uow: UnitOfWork, call: Call) returns (r: Result<CommandResult>)
    requires !uow.active && LedgerInv(uow.committed)
    modifies uow
    ensures !uow.active
    ensures Faults(uow.failing, r)
    ensures r.Ok? ==> Attempt(old(uow.committed), call) == Ok(Effect(uow.committed, r.value))
    ensures r.Err? ==> uow.committed == old(uow.committed)
    ensures r.Err? ==> r.error == Injected || Attempt(old(uow.committed), call) == Err(r.error)
  {
    hide LedgerInv, Attempt;
    var entered := uow.Enter();
    r := RunCommand(uow, call);
    if r.Err? || r.value.replayed {
      uow.Rollback();
      return;
    }
    var committed := uow.Commit();
    if committed.Err? {
      r := Err(committed.error);
    }
  }

  // A failure is recorded in a unit of work of its own.
  method RecordFailure(uow: UnitOfWork, event: AuditEvent) returns (r: Result<()>)
    requires !uow.active
    modifies uow
    ensures !uow.active
    ensures Faults(uow.failing, r)
    ensures r.Err? ==> r.error == Injected
    ensures uow.committed == if r.Ok? then old(uow.committed).(audit := old(uow.committed).audit + [event])
            else old(uow.committed)
  {
    var entered := uow.Enter();
    r := uow.AppendEvent(event);
    if r.Err? {
      uow.Rollback();
      return;
    }
    r := uow.Commit();
  }

  /**
   Delivers a posting or reversal command. Whatever write fails, the committed database is the one the specification
   gives: the whole effect, a replay, or nothing but one failure event; and a store that does not fail on its own never
   makes the command fail otherwise than the specification says. No trigger ever fires.
   */
  method Deliver(uow: UnitOfWork, call: Call) returns (r: Result<CommandResult>, lost: bool)
    requires !uow.active && Inv(uow.committed)
    modifies uow
    ensures !uow.active && Inv(uow.committed)
    ensures uow.committed == Commands.Deliver(old(uow.committed), call, r == Err(Injected), lost)
    ensures uow.failing == {} ==> r != Err(Injected) && !lost
    ensures r.Ok? ==> Attempt(old(uow.committed), call).Ok? && r.value == Attempt(old(uow.committed), call).value.result
    ensures r.Err? ==> r.error == Injected || Attempt(old(uow.committed), call) == Err(r.error)
    ensures r != Err(TriggerAbort)
  {
    hide Attempt, LedgerInv, KeysInv, AuditInv;
    ghost var db := uow.committed;
    r := AttemptCommand(uow, call);
    lost := false;
    if r.Err? {
      var recorded := RecordFailure(uow, FailureEvent(call));
      lost := recorded.Err?;
    }
    DeliverKeeps(db, call, r == Err(Injected), lost);
    NeverAborts(db, call);
  }

  /** No command asks for a row change that a trigger refuses. */
  lemma NeverAborts(db: Database, call: Call)
    ensures Attempt(db, call) != Err(TriggerAbort)
  {
    hide Commands.BuildPosting, BuildReversal, EntriesClash, StoredOrder;
    var reserved := db.(keys := db.keys[call.Slot() := IdempotencyRecord(call.command, None)]);
    if call.command.Reverse? {
      BuildNeverAborts(call.command, call.supply);
    } else {
      PostingNeverAborts(reserved, call.command, call.supply);
    }
  }

  lemma BuildNeverAborts(c: Command, supply: Supply)
    requires c.Reverse?
    ensures forall original :: BuildReversal(original, c, supply) != Err(TriggerAbort)
  {
  }

  lemma PostingNeverAborts(db: Database, c: Command, supply: Supply)
    requires !c.Reverse?
    ensures Commands.BuildPosting(db, c, supply) != Err(TriggerAbort)
  {
  }

  // Drafts

  /** Runs the given draft change in its own unit of work; a refused or failing one leaves the committed rows alone. */
  method CreateDraft(uow: UnitOfWork, id: TxId, request: DraftRequest) returns (r: Result<()>)
    requires !uow.active
    modifies uow
    ensures !uow.active && Faults(uow.failing, r)
    ensures r.Ok? ==> Commands.CreateDraft(old(uow.committed), id, request) == Ok(uow.committed)
    ensures r.Err? ==> uow.committed == old(uow.committed)
    ensures r.Err? ==> r.error == Injected || Commands.CreateDraft(old(uow.committed), id, request) == Err(r.error)
  {
    hide ValidateSelections;
    if request.amount <= 0 {
      return Err(InvalidLifecycle);
    }
    var entered := uow.Enter();
    NoInjectedSelections(uow.working, request);
    var checked := ValidateSelections(uow.working, request);
    if checked.Err? {
      uow.Rollback();
      return checked;
    }
    r := L.AddDraft(uow, id, request, None);
    if r.Err? {
      uow.Rollback();
      return;
    }
    r := uow.Commit();
  }

  method UpdateDraft(uow: UnitOfWork, id: TxId, request: DraftRequest) returns (r: Result<()>)
    requires !uow.active && LedgerInv(uow.committed)
    modifies uow
    ensures !uow.active && Faults(uow.failing, r)
    ensures r.Ok? ==> Commands.UpdateDraft(old(uow.committed), id, request) == Ok(uow.committed)
    ensures r.Err? ==> uow.committed == old(uow.committed)
    ensures r.Err? ==> r.error == Injected || Commands.UpdateDraft(old(uow.committed), id, request) == Err(r.error)
  {
    hide ValidateSelections, LedgerInv;
    if request.amount <= 0 {
      return Err(InvalidLifecycle);
    }
    var entered := uow.Enter();
    assert RowsInv(uow.working) by { PartsOf(uow.committed); }
    DraftsAreEmpty(uow.working);
    var current := GetTransaction(uow.working, request.space, id);
    if current.Err? {
      uow.Rollback();
      return Err(current.error);
    }
    NoInjectedSelections(uow.working, request);
    var checked := ValidateSelections(uow.working, request);
    if checked.Err? {
      uow.Rollback();
      return checked;
    }
    r := L.UpdateDraft(uow, id, request);
    if r.Err? {
      uow.Rollback();
      return;
    }
    r := uow.Commit();
  }

  method DiscardDraft(uow: UnitOfWork, space: SpaceId, id: TxId) returns (r: Result<()>)
    requires !uow.active
    modifies uow
    ensures !uow.active && Faults(uow.failing, r)
    ensures r.Ok? ==> Commands.DiscardDraft(old(uow.committed), space, id) == Ok(uow.committed)
    ensures r.Err? ==> uow.committed == old(uow.committed)
    ensures r.Err? ==> r.error == Injected || Commands.DiscardDraft(old(uow.committed), space, id) == Err(r.error)
  {
    var entered := uow.Enter();
    r := L.DiscardDraft(uow, space, id);
    if r.Err? {
      uow.Rollback();
      return;
    }
    r := uow.Commit();
  }
}
