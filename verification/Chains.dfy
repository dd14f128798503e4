/** Chains of reversals, and account balances read off their roots. */
module Chains {
  import opened Sums
  import opened Ledger
  import opened Database
  import opened Invariants
  import opened Machine
  import opened Reachability

  // The number of reversals above a transaction: links followed from it until one that is not reversed.
  function Height(links: map<TxId, TxId>, t: TxId): nat
    decreases |links|
  {
    if t in links then
      RemoveShrinks(links, t);
      1 + Height(links - {t}, links[t])
    else 0
  }

  // The transactions met on the way.
  ghost function Path(links: map<TxId, TxId>, t: TxId): set<TxId>
    decreases |links|
  {
    if t in links then
      RemoveShrinks(links, t);
      {t} + Path(links - {t}, links[t])
    else {t}
  }

  lemma {:induction false} PathClosed(links: map<TxId, TxId>, t: TxId)
    ensures t in Path(links, t)
    ensures forall y :: y in Path(links, t) && y in links ==> links[y] in Path(links, t)
    ensures forall y, z :: y in Path(links, t) && z in Path(links, t) && y !in links && z !in links ==> y == z
    decreases |links|
  {
    if t in links {
      RemoveShrinks(links, t);
      var rest := links - {t};
      PathClosed(rest, links[t]);
      forall y | y in Path(links, t) && y in links ensures links[y] in Path(links, t) {
        if y != t {
          assert y in rest && rest[y] in Path(rest, links[t]);
        }
      }
    }
  }

  /** A transaction is not met again on the way up from its reversal. */
  lemma NeverReturns(links: map<TxId, TxId>, t: TxId)
    requires Acyclic(links) && t in links
    ensures t !in Path(links - {t}, links[t])
  {
    var rest := links - {t};
    var s := Path(rest, links[t]);
    PathClosed(rest, links[t]);
    if t in s {
      assert s <= links.Keys by {
        assert forall y :: y in s && y != t ==> y in rest;
      }
      assert forall y :: y in s ==> links[y] in s;
    }
  }

  lemma {:induction false} HeightOffPath(links: map<TxId, TxId>, t: TxId, away: TxId)
    requires away in links && away !in Path(links - {away}, t)
    ensures Height(links - {away}, t) == Height(links, t)
    decreases |links|
  {
    var rest := links - {away};
    if t in rest {
      RemoveShrinks(links, t);
      assert rest - {t} == links - {t} - {away};
      assert Path(rest, t) == {t} + Path(rest - {t}, links[t]);
      HeightOffPath(links - {t}, links[t], away);
    }
  }

  /** Along a link the number of reversals above goes down by one. */
  lemma HeightStep(links: map<TxId, TxId>, t: TxId)
    requires Acyclic(links) && t in links
    ensures Height(links, t) == 1 + Height(links, links[t])
  {
    NeverReturns(links, t);
    HeightOffPath(links, links[t], t);
  }

  // Balances

  function AccountMeasure(space: SpaceId, account: AccountId): Measure {
    (x: Transaction, e: Entry) =>
      if x.Visible() && e.space == space && e.target == ToAccount(account) then e.Signed() else 0
  }

  ghost function BalanceCents(db: Database, space: SpaceId, account: AccountId): Cents {
    Tally(db.transactions, AccountMeasure(space, account))
  }

  predicate Odd(links: map<TxId, TxId>, t: TxId) {
    Height(links, t) % 2 == 1
  }

  // The rows of the transactions that reverse nothing and have an even number of reversals above.
  function StandingRows(links: map<TxId, TxId>, rows: map<TxId, Cents>): map<TxId, Cents> {
    map t | t in rows && t !in links.Values && !Odd(links, t) :: rows[t]
  }

  ghost function StandingCents(db: Database, space: SpaceId, account: AccountId): Cents {
    Sum(StandingRows(db.links, RowTallies(db.transactions, AccountMeasure(space, account))))
  }

  lemma MirrorNegates(o: Transaction, r: Transaction, g: Measure, space: SpaceId, account: AccountId)
    requires |o.entries| == 2 && Mirrors(o, r) && o.Visible() && r.Visible()
    requires g == AccountMeasure(space, account)
    ensures RowTally(r, r.entries, g) == -RowTally(o, o.entries, g)
  {
    RowTallyPair(o, g);
    RowTallyPair(r, g);
  }

  lemma LinkNegates(db: Database, o: TxId, g: Measure, space: SpaceId, account: AccountId)
    requires RowsInv(db) && LinksInv(db) && o in db.links && g == AccountMeasure(space, account)
    ensures o in db.transactions && db.links[o] in db.transactions
    ensures RowTally(db.transactions[db.links[o]], db.transactions[db.links[o]].entries, g)
         == -RowTally(db.transactions[o], db.transactions[o].entries, g)
  {
    assert LinkOk(db, o, db.links[o]);
    assert RowOk(db, db.transactions[o]);
    MirrorNegates(db.transactions[o], db.transactions[db.links[o]], g, space, account);
  }

  lemma SumNegate<K(!new)>(m: map<K, int>, n: map<K, int>)
    requires m.Keys == n.Keys && forall k :: k in m ==> n[k] == -m[k]
    ensures Sum(n) == -Sum(m)
  {
    SumAdd(m, n);
    SumZero(Plus(m, n));
  }

  function OddRows(links: map<TxId, TxId>, rows: map<TxId, Cents>): map<TxId, Cents> {
    map t | t in rows && Odd(links, t) :: rows[t]
  }

  function EvenReversals(links: map<TxId, TxId>, rows: map<TxId, Cents>): map<TxId, Cents> {
    map t | t in rows && t in links.Values && !Odd(links, t) :: rows[t]
  }

  lemma OddStep(links: map<TxId, TxId>, t: TxId)
    requires Acyclic(links)
    ensures t in links ==> (Odd(links, t) <==> !Odd(links, links[t]))
    ensures Odd(links, t) ==> t in links
  {
    if t in links {
      HeightStep(links, t);
    }
  }

  // The links lead from the odd heights exactly to the reversals at even height.
  lemma OddToEven(links: map<TxId, TxId>, rows: map<TxId, Cents>)
    requires Acyclic(links)
    requires forall o :: o in links ==> o in rows && links[o] in rows
    ensures forall t :: t in OddRows(links, rows) ==> t in links
    ensures (map t | t in OddRows(links, rows) :: links[t]).Values == EvenReversals(links, rows).Keys
  {
    hide Odd;
    var odd, even := OddRows(links, rows), EvenReversals(links, rows);
    forall t | t in odd ensures t in links && links[t] in even {
      OddStep(links, t);
      assert links[t] in links.Values;
    }
    var rename := map t | t in odd :: links[t];
    forall t | t in even ensures t in rename.Values {
      var o :| o in links && links[o] == t;
      OddStep(links, o);
      assert o in odd && rename[o] == t;
    }
  }

  // Reversed transactions at odd height cancel against their reversals.
  lemma OddHeightsCancel(links: map<TxId, TxId>, rows: map<TxId, Cents>)
    requires Acyclic(links) && Injective(links)
    requires forall o :: o in links ==> o in rows && links[o] in rows && rows[links[o]] == -rows[o]
    ensures Sum(OddRows(links, rows)) + Sum(EvenReversals(links, rows)) == 0
  {
    OddToEven(links, rows);
    CancelAlong(OddRows(links, rows), EvenReversals(links, rows), map t | t in OddRows(links, rows) :: links[t]);
  }

  lemma CancelAlong(odd: map<TxId, Cents>, even: map<TxId, Cents>, rename: map<TxId, TxId>)
    requires rename.Keys == odd.Keys && rename.Values == even.Keys && Injective(rename)
    requires forall t :: t in odd ==> even[rename[t]] == -odd[t]
    ensures Sum(odd) + Sum(even) == 0
  {
    var negated := map t | t in odd :: -odd[t];
    SumReindex(even, rename, negated);
    SumNegate(odd, negated);
  }

  lemma RootsCarryTheSum(links: map<TxId, TxId>, rows: map<TxId, Cents>)
    requires Acyclic(links) && Injective(links)
    requires forall o :: o in links ==> o in rows && links[o] in rows && rows[links[o]] == -rows[o]
    ensures Sum(rows) == Sum(StandingRows(links, rows))
  {
    hide Odd, Acyclic;
    OddHeightsCancel(links, rows);
    SplitRows(links, rows);
  }

  lemma SplitRows(links: map<TxId, TxId>, rows: map<TxId, Cents>)
    ensures Sum(rows) == Sum(OddRows(links, rows)) + Sum(EvenReversals(links, rows)) + Sum(StandingRows(links, rows))
  {
    hide Odd;
    var odds := set t | t in rows && Odd(links, t);
    SumPartition(rows, odds);
    SumPartition(rows - odds, links.Values);
    assert Within(rows, odds) == OddRows(links, rows);
    assert Within(rows - odds, links.Values) == EvenReversals(links, rows);
    assert rows - odds - links.Values == StandingRows(links, rows);
  }

  /**
   In every reachable ledger, the balance of an account is the sum of the effects of the transactions that reverse
   nothing and are themselves reversed an even number of times over.
   */
  lemma BalanceIsStanding(steps: seq<Step>, space: SpaceId, account: AccountId)
    ensures BalanceCents(Run(EMPTY, steps), space, account) == StandingCents(Run(EMPTY, steps), space, account)
  {
    Reachable(steps);
    var db := Run(EMPTY, steps);
    var g := AccountMeasure(space, account);
    var rows := RowTallies(db.transactions, g);
    forall o | o in db.links ensures o in rows && db.links[o] in rows && rows[db.links[o]] == -rows[o] {
      LinkNegates(db, o, g, space, account);
    }
    RootsCarryTheSum(db.links, rows);
  }

  /**
   In every reachable ledger the reversal links are disjoint chains without cycles. A transaction is VOIDED exactly when
   it is reversed, a posted one is of kind REVERSAL exactly when it reverses another, and it mirrors that one.
   */
  lemma ReversalsFormChains(steps: seq<Step>)
    ensures var db := Run(EMPTY, steps);
            && Acyclic(db.links)
            && Injective(db.links)
            && (forall t :: t in db.transactions ==> (db.transactions[t].state == Voided <==> t in db.links))
            && (forall t :: Shown(db, t) ==> (db.transactions[t].kind == Reversal <==> t in db.links.Values))
            && (forall o :: o in db.links ==>
                 LinkOk(db, o, db.links[o]) && Height(db.links, o) == 1 + Height(db.links, db.links[o]))
  {
    Reachable(steps);
    var db := Run(EMPTY, steps);
    forall t | Shown(db, t) ensures db.transactions[t].kind == Reversal <==> t in db.links.Values {
      if t in db.links.Values {
        var o :| o in db.links && db.links[o] == t;
        assert LinkOk(db, o, t);
      } else {
        assert !IsReversal(db, t);
      }
    }
    forall o | o in db.links ensures Height(db.links, o) == 1 + Height(db.links, db.links[o]) {
      HeightStep(db.links, o);
    }
  }
}
