/** Stepping through concrete runs. */
module Runs {
  import opened Wrappers
  import opened Ledger
  import opened Database
  import opened Commands
  import opened Machine
  import Lifecycle

  lemma OneMore(steps: seq<Step>, i: nat)
    requires i < |steps|
    ensures Run(EMPTY, steps[..i + 1]) == Apply(Run(EMPTY, steps[..i]), steps[i])
  {
    hide Apply;
    assert steps[..i + 1] == steps[..i] + [steps[i]];
    Lifecycle.RunSplit(EMPTY, steps[..i], [steps[i]]);
    assert [steps[i]][1..] == [];
  }

  lemma AccountAdded(db: Database, n: nat, space: SpaceId, name: string, kind: AccountKind)
    requires kind != Equity && ValidatedName(name) == Ok(name)
    requires Opaque(n) !in db.accounts && !AccountNameTaken(db, space, name, Opaque(n))
    ensures Apply(db, Cataloguing(AccountCreation(n, space, name, kind, true)))
         == db.(accounts := db.accounts[Opaque(n) := Account(space, name, kind, false, true)])
  {
    hide ValidatedName, AccountNameTaken;
  }

  lemma CategoryAdded(db: Database, id: CategoryId, space: SpaceId, name: string, kind: CategoryKind)
    requires ValidatedName(name) == Ok(name)
    requires id !in db.categories && !CategoryNameTaken(db, space, name, id)
    ensures Apply(db, Cataloguing(CategoryCreation(id, space, name, kind)))
         == db.(categories := db.categories[id := Category(space, name, kind, false)])
  {
    hide ValidatedName, CategoryNameTaken;
  }

  lemma AccountFlagged(db: Database, space: SpaceId, id: AccountId, archived: bool)
    requires id in db.accounts && db.accounts[id].space == space
    requires !AccountNameTaken(db, space, db.accounts[id].name, id)
    ensures Apply(db, Cataloguing(AccountArchiving(space, id, archived)))
         == db.(accounts := db.accounts[id := db.accounts[id].(archived := archived)])
  {
    hide AccountNameTaken;
  }

  // The first delivery of a key whose command executes.
  lemma Delivered(db: Database, call: Call)
    requires call.key != "" && call.Slot() !in db.keys
    requires Execute(Reserve(db, call).value.db, call.command, call.supply).Ok?
    ensures var effect := Execute(Reserve(db, call).value.db, call.command, call.supply).value;
            && Attempt(db, call).Ok? && Attempt(db, call).value.result == effect.result
            && Apply(db, Delivery(call, false, false))
               == Record(CompleteKey(effect.db, call, effect.result), SuccessEvent(call, effect.result))
  {
    hide Execute;
  }

  // A pair of entries that are both new.
  lemma NewPair(db: Database, a: Entry, b: Entry)
    requires a.id != b.id && !HasEntry(db, a.id) && !HasEntry(db, b.id)
    ensures !EntriesClash(db, [a, b])
  {
  }

  lemma NoEntries(db: Database, id: EntryId)
    requires forall t :: t in db.transactions ==> db.transactions[t].entries == []
    ensures !HasEntry(db, id)
  {
  }

  lemma PairTotal(a: Entry, b: Entry)
    ensures SignedTotal([a, b]) == a.Signed() + b.Signed()
  {
    assert [a, b][1..] == [b] && [b][1..] == [];
    assert SignedTotal([b]) == b.Signed() + SignedTotal([b][1..]);
  }
}
