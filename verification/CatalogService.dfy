/**
 The account and category catalog, each use case in its own unit of work. A refused or failing one leaves the committed
 rows alone, and archiving touches nothing but the flag: no transaction is projected again.
 */
module CatalogService {
  import opened Wrappers
  import opened Ledger
  import opened Database
  import opened Commands
  import opened Store

  // What a use case leaves behind: the specified rows, or the old ones and the specified refusal.
  ghost predicate Serves(before: Database, after: Database, use: CatalogUse, r: Result<()>) {
    && (r.Ok? ==> UseCatalog(before, use) == Ok(after))
    && (r.Err? ==> after == before && (r.error == Injected || UseCatalog(before, use) == Err(r.error)))
  }

  // Commits what a use case wrote, or drops it.
  method Finish(uow: UnitOfWork, written: Result<()>) returns (r: Result<()>)
    requires uow.active
    modifies uow
    ensures !uow.active
    ensures Faults(uow.failing, written) ==> Faults(uow.failing, r)
    ensures r.Ok? ==> written.Ok? && uow.committed == old(uow.working)
    ensures r.Err? ==> uow.committed == old(uow.committed)
    ensures r.Err? ==> r.error == Injected || r == written
  {
    r := written;
    if r.Err? {
      uow.Rollback();
    } else {
      r := uow.Commit();
    }
  }

  lemma NoInjectedName(name: string)
    ensures ValidatedName(name) != Err(Injected)
  {
  }

  method CreateAccount(uow: UnitOfWork, n: nat, space: SpaceId, name: string, kind: AccountKind, reconcilable: bool)
    returns (r: Result<()>)
    requires !uow.active
    modifies uow
    ensures !uow.active && Faults(uow.failing, r)
    ensures Serves(old(uow.committed), uow.committed, AccountCreation(n, space, name, kind, reconcilable), r)
  {
    hide ValidatedName, AccountNameTaken;
    if kind == Equity {
      return Err(InvalidLifecycle);
    }
    NoInjectedName(name);
    var validated :- ValidatedName(name);
    var entered := uow.Enter();
    var added := uow.InsertAccount(Opaque(n), Account(space, validated, kind, false, reconcilable));
    r := Finish(uow, added);
  }

  method CreateCategory(uow: UnitOfWork, id: CategoryId, space: SpaceId, name: string, kind: CategoryKind)
    returns (r: Result<()>)
    requires !uow.active
    modifies uow
    ensures !uow.active && Faults(uow.failing, r)
    ensures Serves(old(uow.committed), uow.committed, CategoryCreation(id, space, name, kind), r)
  {
    hide ValidatedName, CategoryNameTaken;
    NoInjectedName(name);
    var validated :- ValidatedName(name);
    var entered := uow.Enter();
    var added := uow.InsertCategory(id, Category(space, validated, kind, false));
    r := Finish(uow, added);
  }

  method RenameAccount(uow: UnitOfWork, space: SpaceId, id: AccountId, name: string) returns (r: Result<()>)
    requires !uow.active
    modifies uow
    ensures !uow.active && Faults(uow.failing, r)
    ensures Serves(old(uow.committed), uow.committed, AccountRenaming(space, id, name), r)
  {
    hide ValidatedName, AccountNameTaken;
    var entered := uow.Enter();
    NoInjectedName(name);
    var current, validated := GetAccount(uow.working, space, id), ValidatedName(name);
    var updated: Result<()> := Ok(());
    if current.Err? {
      updated := Err(current.error);
    } else if validated.Err? {
      updated := Err(validated.error);
    } else {
      updated := uow.UpdateAccount(id, current.value.(name := validated.value));
    }
    r := Finish(uow, updated);
  }

  method RenameCategory(uow: UnitOfWork, space: SpaceId, id: CategoryId, name: string) returns (r: Result<()>)
    requires !uow.active
    modifies uow
    ensures !uow.active && Faults(uow.failing, r)
    ensures Serves(old(uow.committed), uow.committed, CategoryRenaming(space, id, name), r)
  {
    hide ValidatedName, CategoryNameTaken;
    var entered := uow.Enter();
    NoInjectedName(name);
    var current, validated := GetCategory(uow.working, space, id), ValidatedName(name);
    var updated: Result<()> := Ok(());
    if current.Err? {
      updated := Err(current.error);
    } else if validated.Err? {
      updated := Err(validated.error);
    } else {
      updated := uow.UpdateCategory(id, current.value.(name := validated.value));
    }
    r := Finish(uow, updated);
  }

  method SetAccountArchived(uow: UnitOfWork, space: SpaceId, id: AccountId, archived: bool) returns (r: Result<()>)
    requires !uow.active
    modifies uow
    ensures !uow.active && Faults(uow.failing, r)
    ensures Serves(old(uow.committed), uow.committed, AccountArchiving(space, id, archived), r)
  {
    hide AccountNameTaken;
    var entered := uow.Enter();
    var current := GetAccount(uow.working, space, id);
    var updated: Result<()> := Err(NotFound);
    if current.Ok? {
      updated := uow.UpdateAccount(id, current.value.(archived := archived));
    }
    r := Finish(uow, updated);
  }

  method SetCategoryArchived(uow: UnitOfWork, space: SpaceId, id: CategoryId, archived: bool) returns (r: Result<()>)
    requires !uow.active
    modifies uow
    ensures !uow.active && Faults(uow.failing, r)
    ensures Serves(old(uow.committed), uow.committed, CategoryArchiving(space, id, archived), r)
  {
    hide CategoryNameTaken;
    var entered := uow.Enter();
    var current := GetCategory(uow.working, space, id);
    var updated: Result<()> := Err(NotFound);
    if current.Ok? {
      updated := uow.UpdateCategory(id, current.value.(archived := archived));
    }
    r := Finish(uow, updated);
  }

  // The category of a starter's name, found or added.
  method FindOrAdd(uow: UnitOfWork, space: SpaceId, starter: Starter) returns (r: Result<CategoryId>)
    modifies uow`working, uow`calls
    ensures Faults(uow.failing, r)
    ensures r.Ok? ==> EnsureCategory(old(uow.working), space, starter.name, starter.kind, starter.id) == Ok(uow.working)
    ensures r.Ok? ==> CategoryNamed(uow.working, space, starter.name, r.value)
    ensures r.Err? ==>
      || r.error == Injected
      || EnsureCategory(old(uow.working), space, starter.name, starter.kind, starter.id) == Err(r.error)
  {
    hide CategoryNameTaken;
    if HasCategoryNamed(uow.working, space, starter.name) {
      var id :| id in uow.working.categories && CategoryNamed(uow.working, space, starter.name, id);
      return Ok(id);
    }
    var _ :- uow.InsertCategory(starter.id, Category(space, starter.name, starter.kind, false));
    return Ok(starter.id);
  }

  lemma StarterStaysNamed(db: Database, space: SpaceId, starter: Starter, name: string, id: CategoryId)
    requires EnsureCategory(db, space, starter.name, starter.kind, starter.id).Ok? && CategoryNamed(db, space, name, id)
    ensures CategoryNamed(EnsureCategory(db, space, starter.name, starter.kind, starter.id).value, space, name, id)
  {
  }

  lemma {:induction false} RefusedStarter(db: Database, space: SpaceId, starters: seq<Starter>, i: nat)
    requires i <= |starters| && EnsureStarters(db, space, starters[..i]).Err?
    ensures EnsureStarters(db, space, starters) == EnsureStarters(db, space, starters[..i])
    decreases |starters|
  {
    if i == |starters| {
      assert starters[..i] == starters;
    } else {
      assert starters[..|starters| - 1][..i] == starters[..i];
      RefusedStarter(db, space, starters[..|starters| - 1], i);
    }
  }

  lemma OneMoreStarter(db: Database, space: SpaceId, starters: seq<Starter>, i: nat)
    requires i < |starters| && EnsureStarters(db, space, starters[..i]).Ok?
    ensures EnsureStarters(db, space, starters[..i + 1])
         == EnsureCategory(EnsureStarters(db, space, starters[..i]).value, space, starters[i].name, starters[i].kind,
                           starters[i].id)
  {
    assert starters[..i + 1][..i] == starters[..i];
  }

  lemma NoStarters(db: Database, space: SpaceId, starters: seq<Starter>)
    ensures EnsureStarters(db, space, starters[..0]) == Ok(db)
  {
  }

  /** Both starter categories exist afterwards, each found by its name or added. */
  method EnsureStarterCategories(uow: UnitOfWork, space: SpaceId, income: CategoryId, expense: CategoryId)
    returns (r: Result<seq<CategoryId>>)
    requires !uow.active
    modifies uow
    ensures !uow.active && Faults(uow.failing, r)
    ensures Serves(old(uow.committed), uow.committed, StarterCategories(space, income, expense),
                   if r.Ok? then Ok(()) else Err(r.error))
    ensures r.Ok? ==> |r.value| == 2
    ensures r.Ok? ==> forall k :: 0 <= k < 2 ==>
      CategoryNamed(uow.committed, space, Starters(income, expense)[k].name, r.value[k])
  {
    hide EnsureCategory, EnsureStarters, CategoryNamed;
    var starters := Starters(income, expense);
    var entered := uow.Enter();
    ghost var db := uow.working;
    var output: seq<CategoryId> := [];
    NoStarters(db, space, starters);
    for i := 0 to |starters|
      invariant uow.active && uow.committed == db && |output| == i
      invariant EnsureStarters(db, space, starters[..i]) == Ok(uow.working)
      invariant forall k :: 0 <= k < i ==> CategoryNamed(uow.working, space, starters[k].name, output[k])
    {
      ghost var before := uow.working;
      OneMoreStarter(db, space, starters, i);
      var found := FindOrAdd(uow, space, starters[i]);
      if found.Err? {
        if found.error != Injected {
          RefusedStarter(db, space, starters, i + 1);
        }
        uow.Rollback();
        return Err(found.error);
      }
      forall k | 0 <= k < i ensures CategoryNamed(uow.working, space, starters[k].name, output[k]) {
        StarterStaysNamed(before, space, starters[i], starters[k].name, output[k]);
      }
      output := output + [found.value];
    }
    assert starters[..|starters|] == starters;
    var committed := uow.Commit();
    return if committed.Err? then Err(committed.error) else Ok(output);
  }
}
