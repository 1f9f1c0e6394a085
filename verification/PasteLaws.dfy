/** What merging a paste keeps, and which lines are read back as the item they were written for. */
module PasteLaws {
  import opened PasteParser

  // --- Merging keeps every unit ----------------------------------------------

  function SumQty(entries: seq<Entry>): int {
    if entries == [] then 0 else SumQty(entries[..|entries| - 1]) + entries[|entries| - 1].qty
  }

  lemma {:induction false} SumQtyRaise(entries: seq<Entry>, k: nat, qty: int)
    requires k < |entries|
    ensures SumQty(entries[k := Entry(entries[k].name, entries[k].qty + qty)]) == SumQty(entries) + qty
  {
    var n, raised := |entries| - 1, entries[k := Entry(entries[k].name, entries[k].qty + qty)];
    if k == n {
      assert raised[..n] == entries[..n];
    } else {
      assert raised[..n] == entries[..n][k := raised[k]];
      SumQtyRaise(entries[..n], k, qty);
    }
  }

  /** A row keeps its total when an entry for another item follows. */
  lemma RowKept(entries: seq<Entry>, e: Entry, name: string)
    requires Lower(name) != KeyOf(e)
    ensures TotalOf(entries + [e], Lower(name)) == TotalOf(entries, Lower(name))
  {
    EntryNext(entries, e, Lower(name));
  }

  lemma MergedNew(entries: seq<Entry>, e: Entry)
    requires !Mentions(entries, KeyOf(e))
    ensures Merged(entries + [e]) == Merged(entries) + [e]
  {
    var names, rows, rows' := FirstNames(entries), Merged(entries), Merged(entries + [e]);
    FirstNamesExact(entries);
    EntryNext(entries, e, KeyOf(e));
    assert FirstNames(entries + [e]) == names + [e.name];
    forall i | 0 <= i < |names|
      ensures rows'[i] == rows[i]
    {
      assert Mentions(entries, Lower(names[i]));
      RowKept(entries, e, names[i]);
    }
    assert rows'[|names|] == Entry(e.name, TotalOf(entries + [e], KeyOf(e)));
  }

  lemma MergedAgain(entries: seq<Entry>, e: Entry) returns (k: nat)
    requires Mentions(entries, KeyOf(e))
    ensures k < |Merged(entries)| && KeyOf(Merged(entries)[k]) == KeyOf(e)
    ensures Merged(entries + [e]) == Merged(entries)[k := Entry(Merged(entries)[k].name, Merged(entries)[k].qty + e.qty)]
  {
    var names := FirstNames(entries);
    FirstNamesExact(entries);
    EntryNext(entries, e, KeyOf(e));
    k :| 0 <= k < |names| && Lower(names[k]) == KeyOf(e);
    forall i | 0 <= i < |names|
      ensures TotalOf(entries + [e], Lower(names[i])) == TotalOf(entries, Lower(names[i])) + if i == k then e.qty else 0
    {
      EntryNext(entries, e, Lower(names[i]));
    }
  }

  /** Merging neither loses nor invents a unit. */
  lemma {:induction false} MergedConserves(entries: seq<Entry>)
    ensures SumQty(Merged(entries)) == SumQty(entries)
  {
    if entries != [] {
      var before, e := entries[..|entries| - 1], entries[|entries| - 1];
      assert entries == before + [e];
      MergedConserves(before);
      if Mentions(before, KeyOf(e)) {
        var k := MergedAgain(before, e);
        SumQtyRaise(Merged(before), k, e.qty);
      } else {
        MergedNew(before, e);
        assert (Merged(before) + [e])[..|Merged(before)|] == Merged(before);
      }
    }
  }

  // --- One row an item, in the order the items first appear ---------------------

  /** `a` is the first entry for `key`. */
  predicate FirstAt(entries: seq<Entry>, a: nat, key: string) {
    a < |entries| && KeyOf(entries[a]) == key && !Mentions(entries[..a], key)
  }

  /** Row i stands for the item whose first entry is at `at[i]`, and the rows follow those places. */
  ghost predicate RowsFollow(rows: seq<Entry>, entries: seq<Entry>, at: seq<nat>) {
    && |at| == |rows|
    && (forall i | 0 <= i < |rows| :: FirstAt(entries, at[i], KeyOf(rows[i])) && rows[i].name == entries[at[i]].name)
    && (forall i, j | 0 <= i < j < |rows| :: at[i] < at[j])
  }

  lemma {:induction false} RowsInFirstOrder(entries: seq<Entry>) returns (at: seq<nat>)
    ensures RowsFollow(Merged(entries), entries, at)
  {
    if entries == [] {
      at := [];
    } else {
      var n := |entries| - 1;
      var before, e := entries[..n], entries[n];
      assert entries == before + [e];
      at := RowsInFirstOrder(before);
      var rows := Merged(before);
      forall i | 0 <= i < |rows|
        ensures FirstAt(entries, at[i], KeyOf(rows[i])) && rows[i].name == entries[at[i]].name
      {
        assert FirstAt(before, at[i], KeyOf(rows[i]));
        assert entries[..at[i]] == before[..at[i]];
      }
      if Mentions(before, KeyOf(e)) {
        var k := MergedAgain(before, e);
        assert |Merged(entries)| == |rows| && forall i | 0 <= i < |rows| :: Merged(entries)[i].name == rows[i].name;
      } else {
        MergedNew(before, e);
        at := at + [n];
        assert FirstAt(entries, n, KeyOf(e));
      }
    }
  }

  /** The merged list has one row for each item mentioned, whatever the spelling, at the place
      of the item's first entry, with all its units and at least one. */
  lemma MergedExact(entries: seq<Entry>)
    requires forall i | 0 <= i < |entries| :: entries[i].qty >= 1
    ensures forall key :: Mentions(Merged(entries), key) <==> Mentions(entries, key)
    ensures forall i | 0 <= i < |Merged(entries)| ::
      Merged(entries)[i].qty == TotalOf(entries, KeyOf(Merged(entries)[i])) && Merged(entries)[i].qty >= 1
    ensures forall i, j | 0 <= i < j < |Merged(entries)| :: KeyOf(Merged(entries)[i]) != KeyOf(Merged(entries)[j])
    ensures exists at: seq<nat> :: RowsFollow(Merged(entries), entries, at)
    ensures SumQty(Merged(entries)) == SumQty(entries)
  {
    var rows, names := Merged(entries), FirstNames(entries);
    FirstNamesExact(entries);
    MergedConserves(entries);
    var at := RowsInFirstOrder(entries);
    assert RowsFollow(rows, entries, at);
    forall key
      ensures Mentions(rows, key) <==> Mentions(entries, key)
    {
      if i :| 0 <= i < |names| && Lower(names[i]) == key {
        assert KeyOf(rows[i]) == key;
      }
      if i :| 0 <= i < |rows| && KeyOf(rows[i]) == key {
        assert Lower(names[i]) == key;
      }
    }
    forall i | 0 <= i < |rows|
      ensures rows[i].qty >= 1
    {
      assert Lower(names[i]) == KeyOf(rows[i]) && Mentions(entries, KeyOf(rows[i]));
      TotalPositive(entries, KeyOf(rows[i]));
    }
    forall i, j | 0 <= i < j < |rows|
      ensures KeyOf(rows[i]) != KeyOf(rows[j])
    {
      assert Lower(names[i]) != Lower(names[j]);
    }
  }

  lemma {:induction false} TotalPositive(entries: seq<Entry>, key: string)
    requires forall i | 0 <= i < |entries| :: entries[i].qty >= 1
    ensures TotalOf(entries, key) >= if Mentions(entries, key) then 1 else 0
  {
    if entries != [] {
      var n := |entries| - 1;
      TotalPositive(entries[..n], key);
      MentionsNext(entries, key);
    }
  }

  // --- Splitting and reordering ------------------------------------------------

  lemma {:induction false} TotalOfConcat(a: seq<Entry>, b: seq<Entry>, key: string)
    ensures TotalOf(a + b, key) == TotalOf(a, key) + TotalOf(b, key)
  {
    if b == [] {
      assert a + b == a;
    } else {
      var n := |b| - 1;
      assert (a + b)[..|a| + n] == a + b[..n];
      TotalOfConcat(a, b[..n], key);
    }
  }

  lemma MentionsConcat(a: seq<Entry>, b: seq<Entry>, key: string)
    ensures Mentions(a + b, key) <==> Mentions(a, key) || Mentions(b, key)
  {
    if i :| 0 <= i < |a + b| && KeyOf((a + b)[i]) == key {
      assert if i < |a| then a[i] == (a + b)[i] else b[i - |a|] == (a + b)[i];
    }
    if i :| 0 <= i < |a| && KeyOf(a[i]) == key {
      assert (a + b)[i] == a[i];
    }
    if i :| 0 <= i < |b| && KeyOf(b[i]) == key {
      assert (a + b)[|a| + i] == b[i];
    }
  }

  /** The same items were first spelled the same way, so what follows adds the same names. */
  lemma {:induction false} FirstNamesExtend(a: seq<Entry>, a': seq<Entry>, b: seq<Entry>)
    requires FirstNames(a) == FirstNames(a')
    requires forall key :: Mentions(a, key) <==> Mentions(a', key)
    ensures FirstNames(a + b) == FirstNames(a' + b)
  {
    if b == [] {
      assert a + b == a && a' + b == a';
    } else {
      var front, e := b[..|b| - 1], b[|b| - 1];
      FirstNamesExtend(a, a', front);
      assert a + b == a + front + [e] && a' + b == a' + front + [e];
      MentionsConcat(a, front, KeyOf(e));
      MentionsConcat(a', front, KeyOf(e));
      EntryNext(a + front, e, KeyOf(e));
      EntryNext(a' + front, e, KeyOf(e));
    }
  }

  /** Two pastes that name the same items in the same order with the same totals merge alike. */
  lemma MergedAlike(a: seq<Entry>, b: seq<Entry>)
    requires FirstNames(a) == FirstNames(b)
    requires forall key :: TotalOf(a, key) == TotalOf(b, key)
    ensures Merged(a) == Merged(b)
  {
    forall i | 0 <= i < |Merged(a)|
      ensures Merged(a)[i] == Merged(b)[i]
    {
      assert TotalOf(a, Lower(FirstNames(a)[i])) == TotalOf(b, Lower(FirstNames(a)[i]));
    }
  }

  /** One stack listed as two lines, the second anywhere below and in any spelling, is the same paste. */
  lemma SplittingIsInvisible(a: seq<Entry>, name: string, q1: int, b: seq<Entry>, name': string, q2: int, c: seq<Entry>)
    requires Lower(name) == Lower(name')
    ensures Merged(a + [Entry(name, q1)] + b + [Entry(name', q2)] + c) == Merged(a + [Entry(name, q1 + q2)] + b + c)
  {
    var head, head' := a + [Entry(name, q1)], a + [Entry(name, q1 + q2)];
    var split, whole := head + b + [Entry(name', q2)], head' + b;
    EntryNext(a, Entry(name, q1), Lower(name));
    EntryNext(a, Entry(name, q1 + q2), Lower(name));
    forall key
      ensures Mentions(head, key) <==> Mentions(head', key)
      ensures Mentions(split, key) <==> Mentions(whole, key)
      ensures TotalOf(split + c, key) == TotalOf(whole + c, key)
    {
      SplitTotals(a, name, q1, b, name', q2, c, key);
      SplitMentions(a, name, q1, b, name', q2, key);
    }
    FirstNamesExtend(head, head', b);
    EntryNext(head + b, Entry(name', q2), Lower(name'));
    MentionsConcat(head, b, Lower(name'));
    FirstNamesExtend(split, whole, c);
    MergedAlike(split + c, whole + c);
  }

  lemma SplitTotals(a: seq<Entry>, name: string, q1: int, b: seq<Entry>, name': string, q2: int, c: seq<Entry>, key: string)
    requires Lower(name) == Lower(name')
    ensures TotalOf(a + [Entry(name, q1)] + b + [Entry(name', q2)] + c, key) == TotalOf(a + [Entry(name, q1 + q2)] + b + c, key)
  {
    EntryNext(a, Entry(name, q1), key);
    EntryNext(a, Entry(name, q1 + q2), key);
    TotalOfConcat(a + [Entry(name, q1)], b, key);
    TotalOfConcat(a + [Entry(name, q1 + q2)], b, key);
    EntryNext(a + [Entry(name, q1)] + b, Entry(name', q2), key);
    TotalOfConcat(a + [Entry(name, q1)] + b + [Entry(name', q2)], c, key);
    TotalOfConcat(a + [Entry(name, q1 + q2)] + b, c, key);
  }

  lemma SplitMentions(a: seq<Entry>, name: string, q1: int, b: seq<Entry>, name': string, q2: int, key: string)
    requires Lower(name) == Lower(name')
    ensures Mentions(a + [Entry(name, q1)], key) <==> Mentions(a + [Entry(name, q1 + q2)], key)
    ensures Mentions(a + [Entry(name, q1)] + b + [Entry(name', q2)], key) <==> Mentions(a + [Entry(name, q1 + q2)] + b, key)
  {
    EntryNext(a, Entry(name, q1), key);
    EntryNext(a, Entry(name, q1 + q2), key);
    MentionsConcat(a + [Entry(name, q1)], b, key);
    MentionsConcat(a + [Entry(name, q1 + q2)], b, key);
    EntryNext(a + [Entry(name, q1)] + b, Entry(name', q2), key);
  }

  function Without(entries: seq<Entry>, k: nat): seq<Entry>
    requires k < |entries|
  {
    entries[..k] + entries[k + 1..]
  }

  lemma WithoutOne(entries: seq<Entry>, k: nat, key: string)
    requires k < |entries|
    ensures TotalOf(entries, key) == TotalOf(Without(entries, k), key) + if KeyOf(entries[k]) == key then entries[k].qty else 0
    ensures Mentions(entries, key) <==> Mentions(Without(entries, k), key) || KeyOf(entries[k]) == key
  {
    var front, e, back := entries[..k], entries[k], entries[k + 1..];
    assert entries == front + [e] + back;
    EntryNext(front, e, key);
    TotalOfConcat(front + [e], back, key);
    TotalOfConcat(front, back, key);
    MentionsConcat(front + [e], back, key);
    MentionsConcat(front, back, key);
  }

  lemma WithoutOneMultiset(entries: seq<Entry>, k: nat)
    requires k < |entries|
    ensures multiset(Without(entries, k)) == multiset(entries) - multiset{entries[k]}
  {
    assert entries == entries[..k] + [entries[k]] + entries[k + 1..];
  }

  /** Lines in another order mention the same items with the same totals. */
  lemma {:induction false} ReorderingKeepsTotals(a: seq<Entry>, b: seq<Entry>, key: string)
    requires multiset(a) == multiset(b)
    ensures TotalOf(a, key) == TotalOf(b, key)
    ensures Mentions(a, key) <==> Mentions(b, key)
    decreases |a|
  {
    if a == [] {
      assert |multiset(b)| == 0;
    } else {
      assert a[0] in multiset(b);
      var k :| 0 <= k < |b| && b[k] == a[0];
      WithoutOneMultiset(a, 0);
      WithoutOneMultiset(b, k);
      ReorderingKeepsTotals(Without(a, 0), Without(b, k), key);
      WithoutOne(a, 0, key);
      WithoutOne(b, k, key);
    }
  }
}
