/** Which rows the reports read, each exactly once and in which order. */
module ReportRows {
  import opened Wrappers
  import opened Ordering
  import opened Ledger
  import opened Database
  import opened Invariants
  import opened Machine
  import opened Reports
  import RT = ReportTheorems

  // The row a report reads for entry i of transaction t.
  predicate IsRow(db: Database, t: TxId, i: nat, r: ReportingEntry) {
    && t in db.transactions && i < |db.transactions[t].entries|
    && var (x, e) := (db.transactions[t], db.transactions[t].entries[i]);
       && r.tx == t && r.entry == e.id && r.side == e.side && r.amount == e.amount
       && r.economicDate == x.economicDate && r.cashDate == x.cashDate
       && match e.target
          case ToAccount(a) =>
            && a in db.accounts && r.account == Some(a) && r.accountKind == Some(db.accounts[a].kind)
            && r.category == None && r.categoryKind == None
          case ToCategory(c) =>
            && c in db.categories && r.category == Some(c) && r.categoryKind == Some(db.categories[c].kind)
            && r.account == None && r.accountKind == None
  }

  ghost predicate HasRow(db: Database, rows: seq<ReportingEntry>, t: TxId, i: nat) {
    exists r :: r in rows && IsRow(db, t, i, r)
  }

  // The posted transactions of the space that the selection's dates let through.
  predicate InSelection(s: Selection, x: Transaction) {
    && x.space == s.space
    && (x.state == Posted || x.state == Reconciled || x.state == Voided)
    && match s
       case ByEconomicDate(_, start, end) => start <= x.economicDate <= end
       case ByCashDate(_, start, end) => (match x.cashDate case None => false case Some(day) => start <= day <= end)
       case AsOf(_, date) => x.economicDate <= date
  }

  // The date rows are sorted by first.
  function RowDate(s: Selection, r: ReportingEntry): Date {
    match s
    case ByCashDate(_, _, _) => if r.cashDate.Some? then r.cashDate.value else r.economicDate
    case _ => r.economicDate
  }

  predicate Precedes(s: Selection, a: ReportingEntry, b: ReportingEntry) {
    || RowDate(s, a) < RowDate(s, b)
    || (RowDate(s, a) == RowDate(s, b) && (a.tx < b.tx || (a.tx == b.tx && a.entry.Before(b.entry))))
  }

  ghost predicate Sorted(s: Selection, rows: seq<ReportingEntry>) {
    forall i, j :: 0 <= i < j < |rows| ==> Precedes(s, rows[i], rows[j])
  }

  lemma {:induction false} RowsOfOne(db: Database, space: SpaceId, t: TxId, x: Transaction, entries: seq<Entry>)
    requires forall e :: e in entries ==> e.space == space
    ensures |TransactionRows(db, space, t, x, entries)| == |entries|
    ensures forall i :: 0 <= i < |entries| ==>
      TransactionRows(db, space, t, x, entries)[i] == Joined(db, t, x, entries[i])
  {
    if entries != [] {
      assert forall e :: e in entries[1..] ==> e in entries;
      RowsOfOne(db, space, t, x, entries[1..]);
    }
  }

  // The rows of the transactions listed by their keys.
  ghost predicate KeysOk(db: Database, s: Selection, keys: seq<(Date, TxId)>) {
    && (forall k :: k in keys ==>
          k.1 in db.transactions && s.Selects(db.transactions[k.1]) && k.0 == s.SortDate(db.transactions[k.1]))
    && Increasing(keys, DateThenId)
  }

  lemma OneTransaction(db: Database, s: Selection, k: (Date, TxId))
    requires RT.Shaped(db) && KeysOk(db, s, [k])
    ensures var rows := TransactionRows(db, s.space, k.1, db.transactions[k.1], db.transactions[k.1].entries);
            && Sorted(s, rows)
            && (forall r :: r in rows ==> RowDate(s, r) == k.0 && r.tx == k.1 && exists i :: IsRow(db, k.1, i, r))
            && (forall i :: 0 <= i < |db.transactions[k.1].entries| ==> HasRow(db, rows, k.1, i))
  {
    assert k in [k];
    var x := db.transactions[k.1];
    assert RowOk(db, x);
    RowsOfOne(db, s.space, k.1, x, x.entries);
    var rows := TransactionRows(db, s.space, k.1, x, x.entries);
    forall i | 0 <= i < |x.entries|
      ensures rows[i] in rows && IsRow(db, k.1, i, rows[i]) && RowDate(s, rows[i]) == k.0
    {
      assert TargetExists(db, x.entries[i]);
    }
    assert |rows| == 2 && Precedes(s, rows[0], rows[1]);
  }

  lemma SortedJoin(s: Selection, a: seq<ReportingEntry>, b: seq<ReportingEntry>)
    requires Sorted(s, a) && Sorted(s, b)
    requires forall p, q :: p in a && q in b ==> Precedes(s, p, q)
    ensures Sorted(s, a + b)
  {
    hide Precedes;
    forall i, j | 0 <= i < j < |a + b| ensures Precedes(s, (a + b)[i], (a + b)[j]) {
      if i < |a| <= j {
        assert a[i] in a && b[j - |a|] in b;
      }
    }
  }

  lemma {:induction false} ManyTransactions(db: Database, s: Selection, keys: seq<(Date, TxId)>)
    requires RT.Shaped(db) && KeysOk(db, s, keys)
    ensures var rows := RowsOf(db, s.space, keys);
            && Sorted(s, rows)
            && (forall r :: r in rows ==> (RowDate(s, r), r.tx) in keys && exists t, i :: IsRow(db, t, i, r))
            && (forall k, i :: k in keys && 0 <= i < |db.transactions[k.1].entries| ==> HasRow(db, rows, k.1, i))
    decreases |keys|
  {
    hide RT.Shaped, IsRow, RowDate, Selection.Selects, Selection.SortDate, TransactionRows;
    if keys != [] {
      var k, rest := keys[0], keys[1..];
      assert keys == [k] + rest;
      assert KeysOk(db, s, rest) && KeysOk(db, s, [k]) by { FewerKeys(db, s, keys); }
      var first := TransactionRows(db, s.space, k.1, db.transactions[k.1], db.transactions[k.1].entries);
      var later := RowsOf(db, s.space, rest);
      OneTransaction(db, s, k);
      ManyTransactions(db, s, rest);
      forall p, q | p in first && q in later ensures Precedes(s, p, q) {
        var j :| 0 <= j < |rest| && rest[j] == (RowDate(s, q), q.tx);
        assert DateThenId(keys[0], keys[j + 1]);
      }
      SortedJoin(s, first, later);
      forall l, i | l in keys && 0 <= i < |db.transactions[l.1].entries| ensures HasRow(db, first + later, l.1, i) {
        if l == k {
          HasMore(db, first, later, l.1, i);
        } else {
          assert l in rest && HasRow(db, later, l.1, i);
          HasMore(db, first, later, l.1, i);
        }
      }
    }
  }

  lemma HasMore(db: Database, a: seq<ReportingEntry>, b: seq<ReportingEntry>, t: TxId, i: nat)
    requires HasRow(db, a, t, i) || HasRow(db, b, t, i)
    ensures HasRow(db, a + b, t, i)
  {
    if HasRow(db, a, t, i) {
      var r :| r in a && IsRow(db, t, i, r);
      assert r in a + b;
    } else {
      var r :| r in b && IsRow(db, t, i, r);
      assert r in a + b;
    }
  }

  lemma FewerKeys(db: Database, s: Selection, keys: seq<(Date, TxId)>)
    requires keys != [] && KeysOk(db, s, keys)
    ensures KeysOk(db, s, keys[1..]) && KeysOk(db, s, [keys[0]])
  {
    hide Selection.Selects, Selection.SortDate, DateThenId;
    assert forall i :: 0 <= i < |keys[1..]| ==> keys[1..][i] == keys[i + 1];
  }

  lemma SelectedIffIn(s: Selection, x: Transaction)
    ensures s.Selects(x) <==> InSelection(s, x)
  {
  }

  /**
   In every reachable ledger a report reads exactly one row for each entry of a posted transaction of the space that its
   dates let through, sorted by date, then transaction, then entry: by the cash date for the cash report.
   */
  lemma ReadsEachEntryOnce(steps: seq<Step>, s: Selection)
    ensures var db := Run(EMPTY, steps);
            var rows := Read(db, s);
            && Sorted(s, rows)
            && (forall r :: r in rows ==> exists t, i ::
                  IsRow(db, t, i, r) && t in db.transactions && InSelection(s, db.transactions[t]))
            && (forall t, i: nat | t in db.transactions && InSelection(s, db.transactions[t]) ::
                 i < |db.transactions[t].entries| ==> HasRow(db, rows, t, i))
  {
    hide Run, RT.Shaped, IsRow, InSelection, Precedes;
    var db := Run(EMPTY, steps);
    var keys := SelectedKeys(db, s);
    RT.ReachableIsShaped(steps);
    KeysAreOk(db, s);
    ManyTransactions(db, s, keys);
    forall r | r in Read(db, s)
      ensures exists t, i :: IsRow(db, t, i, r) && t in db.transactions && InSelection(s, db.transactions[t])
    {
      var t, i: nat :| IsRow(db, t, i, r);
      RowOfKey(db, t, i, r);
      assert (RowDate(s, r), t) in keys;
      SelectedIffIn(s, db.transactions[t]);
    }
    forall t, i: nat {:trigger HasRow(db, Read(db, s), t, i)}
      | t in db.transactions && InSelection(s, db.transactions[t]) && i < |db.transactions[t].entries|
      ensures HasRow(db, Read(db, s), t, i)
    {
      SelectedIffIn(s, db.transactions[t]);
      var k := (s.SortDate(db.transactions[t]), t);
      assert k in keys;
      assert HasRow(db, Read(db, s), k.1, i);
    }
  }

  lemma RowOfKey(db: Database, t: TxId, i: nat, r: ReportingEntry)
    requires IsRow(db, t, i, r)
    ensures r.tx == t && t in db.transactions
  {
  }

  lemma KeysAreOk(db: Database, s: Selection)
    ensures KeysOk(db, s, SelectedKeys(db, s))
    ensures forall t :: t in db.transactions && s.Selects(db.transactions[t]) ==>
      (s.SortDate(db.transactions[t]), t) in SelectedKeys(db, s)
  {
    hide Selection.Selects, Selection.SortDate;
  }
}
