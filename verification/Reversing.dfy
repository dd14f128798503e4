/** Reversing a transaction keeps the ledger invariants and extends its chain by one mirrored transaction. */
module ReversalProofs {
  import opened Wrappers
  import opened Ledger
  import opened Database
  import opened Commands
  import opened Invariants
  import opened PostingProofs

  lemma MirrorEntries(prefix: nat, entries: seq<Entry>)
    requires |entries| == 2
    ensures var r := ReversalEntries(prefix, entries).value;
            && StoredOrder(r) == r == [entries[0].Reversed(EntryId(prefix, 1)), entries[1].Reversed(EntryId(prefix, 2))]
  {
    StoredPair(entries[0].Reversed(EntryId(prefix, 1)), entries[1].Reversed(EntryId(prefix, 2)));
    assert ReversalEntries(prefix, entries).value
      == [entries[0].Reversed(EntryId(prefix, 1)), entries[1].Reversed(EntryId(prefix, 2))];
  }

  /** The reversal of a well-shaped transaction is well-shaped and mirrors it. */
  lemma ReversalBuilds(db: Database, original: Transaction, c: Command, supply: Supply)
    requires c.Reverse? && RowOk(db, original) && original.space == c.space
    requires BuildReversal(original, c, supply).Ok?
    ensures var x := BuildReversal(original, c, supply).value;
            && x.state == Posted && x.kind == Reversal && x.space == c.space
            && StoredOrder(x.entries) == x.entries
            && Shape(db, x) && Mirrors(original, x)
  {
    MirrorEntries(supply.prefix, original.entries);
  }

  lemma {:induction false} AcyclicExtends(links: map<TxId, TxId>, o: TxId, r: TxId)
    requires Acyclic(links) && o != r && r !in links
    ensures Acyclic(links[o := r])
  {
    var links' := links[o := r];
    forall s: set<TxId> | s != {} && s <= links'.Keys ensures exists p :: p in s && links'[p] !in s {
      if o in s {
        assert links'[o] !in s;
      } else {
        assert s <= links.Keys;
        var p :| p in s && links[p] !in s;
        assert links'[p] !in s;
      }
    }
  }

  // A posted or reconciled transaction becomes voided; nothing else changes.
  ghost predicate Voids(db: Database, db': Database, o: TxId) {
    && o in db.transactions
    && (db.transactions[o].state == Posted || db.transactions[o].state == Reconciled)
    && db' == db.(transactions := db.transactions[o := db.transactions[o].(state := Voided)], links := db'.links)
  }

  lemma VoidKeepsRows(db: Database, db': Database, o: TxId)
    requires RowsInv(db) && Voids(db, db', o)
    ensures RowsInv(db')
  {
    RowsExtend(db, db');
  }

  lemma VoidKeepsMemberships(db: Database, db': Database, o: TxId)
    requires MembershipsInv(db) && Voids(db, db', o)
    ensures MembershipsInv(db')
  {
    forall m | m in db'.memberships ensures exists t, i :: Located(db', m, t, i) {
      var t, i :| Located(db, m, t, i);
      assert Located(db', m, t, i);
    }
  }

  lemma VoidKeepsStates(db: Database, db': Database, o: TxId)
    requires RowsInv(db) && StatesInv(db) && Voids(db, db', o)
    ensures StatesInv(db')
  {
    forall t | t in db'.transactions ensures StateOk(db', db'.transactions[t]) {
      assert RowOk(db, db.transactions[t]) && StateOk(db, db.transactions[t]);
      StateExtends(db, db', db.transactions[t]);
    }
  }

  lemma VoidKeepsEntryIds(db: Database, db': Database, o: TxId)
    requires EntryIdsInv(db) && Voids(db, db', o)
    ensures EntryIdsInv(db')
  {
    assert forall t, i: nat, id :: EntryAt(db', t, i, id) ==> EntryAt(db, t, i, id);
  }

  // Posting the reversal r and voiding the original o, linked together.
  ghost predicate Links(db: Database, db': Database, o: TxId, r: TxId, x: Transaction) {
    && o in db.transactions && r !in db.transactions
    && (db.transactions[o].state == Posted || db.transactions[o].state == Reconciled)
    && x.state == Posted && x.kind == Reversal && Mirrors(db.transactions[o], x)
    && db'.transactions == db.transactions[r := x][o := db.transactions[o].(state := Voided)]
    && db'.links == db.links[o := r]
  }

  lemma LinkKeepsRows(db: Database, db': Database, o: TxId, r: TxId, x: Transaction)
    requires (forall p :: p in db.links ==> LinkOk(db, p, db.links[p])) && VoidedLinked(db) && Links(db, db', o, r, x)
    ensures forall p :: p in db'.links ==> LinkOk(db', p, db'.links[p])
    ensures VoidedLinked(db')
    ensures r !in db.links && r !in db.links.Values && o !in db.links
  {
    forall p | p in db'.links ensures LinkOk(db', p, db'.links[p]) {
      if p != o {
        assert LinkOk(db, p, db.links[p]);
      }
    }
  }

  lemma LinkKeepsReversals(db: Database, db': Database, o: TxId, r: TxId, x: Transaction)
    requires ReversalsLinked(db) && Links(db, db', o, r, x) && o !in db.links
    ensures ReversalsLinked(db')
  {
    assert db'.links.Values >= db.links.Values + {r} by {
      assert db'.links[o] == r;
      forall v | v in db.links.Values ensures v in db'.links.Values {
        var p :| p in db.links && db.links[p] == v;
        assert db'.links[p] == v;
      }
    }
    forall t | IsReversal(db', t) ensures t in db'.links.Values {
      if t != r {
        assert IsReversal(db, t);
      }
    }
  }

  lemma LinkKeepsLinks(db: Database, db': Database, o: TxId, r: TxId, x: Transaction)
    requires LinksInv(db) && Links(db, db', o, r, x)
    ensures LinksInv(db')
  {
    LinkKeepsRows(db, db', o, r, x);
    LinkKeepsReversals(db, db', o, r, x);
    AcyclicExtends(db.links, o, r);
  }

  // Adding, replacing or removing a draft row together with its details.
  ghost predicate DraftOnly(db: Database, db': Database, id: TxId) {
    && db' == db.(transactions := db'.transactions, details := db'.details)
    && db'.transactions - {id} == db.transactions - {id}
    && db'.details - {id} == db.details - {id}
    && (id in db.transactions ==> db.transactions[id].state == Draft)
    && (id in db'.transactions ==> db'.transactions[id].state == Draft && db'.transactions[id].entries == [])
    && (id in db'.details <==> id in db'.transactions)
  }

  lemma DraftFrame(db: Database, db': Database, id: TxId)
    requires DraftOnly(db, db', id)
    ensures forall t :: t != id ==> (t in db.transactions <==> t in db'.transactions)
    ensures forall t :: t != id && t in db.transactions ==> db'.transactions[t] == db.transactions[t]
    ensures forall t :: t != id ==> (t in db.details <==> t in db'.details)
  {
    forall t | t != id
      ensures t in db.transactions <==> t in db'.transactions
      ensures t in db.transactions ==> db.transactions[t] == db'.transactions[t]
      ensures t in db.details <==> t in db'.details
    {
      assert t in db.transactions <==> t in db.transactions - {id};
      assert t in db'.transactions <==> t in db'.transactions - {id};
      assert t in db.details <==> t in db.details - {id};
      assert t in db'.details <==> t in db'.details - {id};
      if t in db.transactions {
        assert (db.transactions - {id})[t] == (db'.transactions - {id})[t];
      }
    }
  }

  /** Drafts are invisible: no posted transaction appears, changes or disappears with them. */
  lemma DraftInvisible(db: Database, db': Database, id: TxId)
    requires DraftOnly(db, db', id)
    ensures forall t :: t in db.transactions && db.transactions[t].Visible() ==>
              t in db'.transactions && db'.transactions[t] == db.transactions[t]
    ensures forall t :: t in db'.transactions && db'.transactions[t].Visible() ==>
              t in db.transactions && db'.transactions[t] == db.transactions[t]
  {
    DraftFrame(db, db', id);
  }

  lemma DraftKeepsRows(db: Database, db': Database, id: TxId)
    requires RowsInv(db) && EntryIdsInv(db) && DraftOnly(db, db', id)
    ensures RowsInv(db') && EntryIdsInv(db')
  {
    DraftFrame(db, db', id);
    RowsExtend(db, db');
    assert forall t, i: nat, e :: EntryAt(db', t, i, e) ==> EntryAt(db, t, i, e);
  }

  lemma DraftKeepsLinks(db: Database, db': Database, id: TxId)
    requires LinksInv(db) && DraftOnly(db, db', id)
    ensures LinksInv(db')
  {
    DraftInvisible(db, db', id);
    forall o | o in db'.links ensures LinkOk(db', o, db'.links[o]) {
      assert LinkOk(db, o, db.links[o]);
      assert db.transactions[o].state == Voided;
    }
    forall t | IsReversal(db', t) ensures t in db'.links.Values {
      assert IsReversal(db, t);
    }
  }

  lemma DraftKeepsStates(db: Database, db': Database, id: TxId)
    requires RowsInv(db) && StatesInv(db) && DraftOnly(db, db', id)
    ensures StatesInv(db')
  {
    DraftFrame(db, db', id);
    forall t | t in db'.transactions ensures StateOk(db', db'.transactions[t]) {
      if t != id {
        assert RowOk(db, db.transactions[t]) && StateOk(db, db.transactions[t]);
        StateExtends(db, db', db.transactions[t]);
      }
    }
  }

  lemma DraftKeeps(db: Database, db': Database, id: TxId)
    requires LedgerInv(db) && DraftOnly(db, db', id)
    ensures LedgerInv(db')
  {
    DraftInvisible(db, db', id);
    DraftKeepsRows(db, db', id);
    DraftKeepsLinks(db, db', id);
    DraftKeepsStates(db, db', id);
    MembershipsExtend(db, db');
  }

  // What a reversal does: posts r, voids o and links them, then maybe adds a replacement draft.
  ghost predicate Reverses(db: Database, db': Database, o: TxId, r: TxId) {
    && r in db'.transactions
    && Links(db, db', o, r, db'.transactions[r])
    && PutsPosted(db, db.(transactions := db.transactions[r := db'.transactions[r]]), r, db'.transactions[r])
    && db' == db.(transactions := db'.transactions, links := db'.links)
  }

  lemma ReversesKeeps(db: Database, db': Database, o: TxId, r: TxId)
    requires LedgerInv(db) && Reverses(db, db', o, r)
    ensures LedgerInv(db')
  {
    hide RowsInv, EntryIdsInv, LinksInv, MembershipsInv, StatesInv;
    var x := db'.transactions[r];
    var posted := db.(transactions := db.transactions[r := x]);
    PutKeepsRows(db, posted, r, x);
    PutKeepsEntryIds(db, posted, r, x);
    MembershipsExtend(db, posted);
    PutKeepsStates(db, posted, r, x);
    VoidKeepsRows(posted, db', o);
    VoidKeepsEntryIds(posted, db', o);
    VoidKeepsMemberships(posted, db', o);
    VoidKeepsStates(posted, db', o);
    LinkKeepsLinks(db, db', o, r, x);
  }

  lemma BeforeReplacement(db: Database, c: Command, supply: Supply) returns (mid: Database)
    requires CatalogInv(db) && RowsInv(db) && c.Reverse? && ExecuteReversal(db, c, supply).Ok?
    ensures Reverses(db, mid, c.original, supply.tx)
    ensures db.transactions[c.original].space == c.space
    ensures AddReplacement(mid, c, supply.replacement) == Ok(ExecuteReversal(db, c, supply).value.db)
  {
    hide BuildReversal, AddReplacement, Mirrors, EntriesClash, Shape, PutsPosted;
    var original := GetTransaction(db, c.space, c.original).value;
    assert RowOk(db, original);
    ReversalBuilds(db, original, c, supply);
    var x := BuildReversal(original, c, supply).value;
    var posted := db.(transactions := db.transactions[supply.tx := x]);
    assert AddPosted(db, supply.tx, x) == Ok(posted) && !EntriesClash(db, x.entries);
    mid := posted.(transactions := posted.transactions[c.original := original.(state := Voided)],
                   links := db.links[c.original := supply.tx]);
    NewRowPuts(db, posted, supply.tx, x);
  }

  lemma NewRowPuts(db: Database, posted: Database, id: TxId, x: Transaction)
    requires CatalogInv(db) && RowsInv(db) && Shape(db, x) && x.state == Posted
    requires id !in db.transactions && !EntriesClash(db, x.entries)
    requires posted == db.(transactions := db.transactions[id := x])
    ensures PutsPosted(db, posted, id, x)
  {
    assert db.details - {id} == db.details;
    ShapeExtends(db, posted, x);
  }

  lemma ReplacementIsDraft(db: Database, c: Command, id: TxId)
    requires RowsInv(db) && c.Reverse? && AddReplacement(db, c, id).Ok?
    ensures var db' := AddReplacement(db, c, id).value;
            db' == db || (DraftOnly(db, db', id) && id !in db.transactions)
  {
  }

  /** A reversal is the posting, voiding and linking step, followed by at most one new draft. */
  lemma ExecuteReversalReverses(db: Database, c: Command, supply: Supply) returns (mid: Database)
    requires LedgerInv(db) && c.Reverse? && ExecuteReversal(db, c, supply).Ok?
    ensures Reverses(db, mid, c.original, supply.tx) && LedgerInv(mid)
    ensures db.transactions[c.original].space == c.space
    ensures var db' := ExecuteReversal(db, c, supply).value.db;
            db' == mid || (DraftOnly(mid, db', supply.replacement) && supply.replacement !in mid.transactions)
  {
    mid := BeforeReplacement(db, c, supply);
    ReversesKeeps(db, mid, c.original, supply.tx);
    ReplacementIsDraft(mid, c, supply.replacement);
  }

  lemma ExecuteReversalResult(db: Database, c: Command, supply: Supply)
    requires c.Reverse? && ExecuteReversal(db, c, supply).Ok?
    ensures ExecuteReversal(db, c, supply).value.result ==
              CommandResult(supply.tx, Posted, false, if c.replacement.None? then None else Some(supply.replacement))
  {
  }

  /** What executing a command writes, whichever command it is. */
  lemma ExecuteSummary(db: Database, c: Command, supply: Supply) returns (mid: Database)
    requires LedgerInv(db) && Execute(db, c, supply).Ok?
    ensures var effect := Execute(db, c, supply).value;
            && (c.Reverse? ==>
                 && Reverses(db, mid, c.original, effect.result.tx)
                 && (effect.db == mid || DraftOnly(mid, effect.db, supply.replacement)))
            && (!c.Reverse? ==>
                 && effect.result.tx in effect.db.transactions
                 && effect.db.transactions[effect.result.tx].kind != Reversal
                 && PutsPosted(db, effect.db, effect.result.tx, effect.db.transactions[effect.result.tx]))
  {
    hide CatalogInv, RowsInv, EntryIdsInv, LinksInv, MembershipsInv, StatesInv;
    if c.Reverse? {
      mid := ExecuteReversalReverses(db, c, supply);
      ExecuteReversalResult(db, c, supply);
    } else {
      mid := db;
      ExecutePostingPuts(db, c, supply);
    }
  }
}
