/** The sort by date that every save applies before storing the list.

    The source calls `Array.prototype.sort` with a date comparator; that sort
    is stable, so records with the same date keep their relative order. It
    is modelled as an insertion sort that takes the records left to right and
    places each one after every record that does not sort after it. */
module DateSort {

  import opened DateOrder
  import opened Ledger

  /** Ascending by date: no record sorts after one that follows it. */
  predicate Sorted(es: seq<ScoreEntry>)
  {
    forall i, j :: 0 <= i < j < |es| ==> NotAfter(es[i].date, es[j].date)
  }

  /** The records of `es` dated `d`, in list order. */
  function WithDate(es: seq<ScoreEntry>, d: Date): seq<ScoreEntry>
  {
    if |es| == 0 then []
    else (if es[0].date == d then [es[0]] else []) + WithDate(es[1..], d)
  }

  /** Places `x` into the sorted list `s` just before the first record that
      sorts strictly after it. */
  function Insert(x: ScoreEntry, s: seq<ScoreEntry>): (r: seq<ScoreEntry>)
    requires Sorted(s)
    ensures Sorted(r)
    ensures multiset(r) == multiset(s) + multiset{x}
  {
    if |s| == 0 then [x]
    else if Before(x.date, s[0].date) then
      InsertFrontSorted(x, s);
      [x] + s
    else
      var rest := Insert(x, s[1..]);
      InsertBehindSorted(x, s, rest);
      assert s == [s[0]] + s[1..];
      [s[0]] + rest
  }

  lemma InsertFrontSorted(x: ScoreEntry, s: seq<ScoreEntry>)
    requires Sorted(s) && |s| > 0 && Before(x.date, s[0].date)
    ensures Sorted([x] + s)
  {
    forall j | 0 <= j < |s|
      ensures NotAfter(x.date, s[j].date)
    {
      if j > 0 {
        BeforeNotAfter(x.date, s[0].date, s[j].date);
      }
      BeforeAsymmetric(x.date, s[j].date);
    }
  }

  lemma InsertBehindSorted(x: ScoreEntry, s: seq<ScoreEntry>, rest: seq<ScoreEntry>)
    requires Sorted(s) && |s| > 0 && !Before(x.date, s[0].date)
    requires Sorted(rest) && multiset(rest) == multiset(s[1..]) + multiset{x}
    ensures Sorted([s[0]] + rest)
  {
    forall j | 0 <= j < |rest|
      ensures NotAfter(s[0].date, rest[j].date)
    {
      assert rest[j] in multiset(rest);
      if rest[j] != x {
        assert rest[j] in multiset(s[1..]);
        var i :| 0 <= i < |s[1..]| && s[1..][i] == rest[j];
        assert s[i + 1] == rest[j];
      }
    }
  }

  /** The save operation's sort: sorted ascending by date and a permutation
      of its input. */
  function SortByDate(es: seq<ScoreEntry>): (r: seq<ScoreEntry>)
    ensures Sorted(r)
    ensures multiset(r) == multiset(es)
    ensures |r| == |es|
  {
    if |es| == 0 then []
    else
      var n := |es| - 1;
      assert es == es[..n] + [es[n]];
      var r := Insert(es[n], SortByDate(es[..n]));
      assert |r| == |multiset(r)|;
      r
  }

  /** The sort keeps exactly the records it was given: membership both ways. */
  lemma SortKeepsRecords(es: seq<ScoreEntry>, x: ScoreEntry)
    ensures x in SortByDate(es) <==> x in es
  {
    assert x in SortByDate(es) <==> x in multiset(SortByDate(es));
    assert x in es <==> x in multiset(es);
  }

  /** Sorting an already sorted list changes nothing, so sorting twice is
      sorting once. */
  lemma {:induction false} SortOfSortedIsIdentity(es: seq<ScoreEntry>)
    requires Sorted(es)
    ensures SortByDate(es) == es
  {
    if |es| > 0 {
      var n := |es| - 1;
      assert Sorted(es[..n]);
      SortOfSortedIsIdentity(es[..n]);
      InsertLast(es[n], es[..n]);
      assert es == es[..n] + [es[n]];
    }
  }

  lemma {:induction false} InsertLast(x: ScoreEntry, s: seq<ScoreEntry>)
    requires Sorted(s)
    requires forall i :: 0 <= i < |s| ==> NotAfter(s[i].date, x.date)
    ensures Insert(x, s) == s + [x]
  {
    if |s| > 0 {
      assert Sorted(s[1..]);
      InsertLast(x, s[1..]);
      assert s == [s[0]] + s[1..];
    }
  }

  lemma SortIsIdempotent(es: seq<ScoreEntry>)
    ensures SortByDate(SortByDate(es)) == SortByDate(es)
  {
    SortOfSortedIsIdentity(SortByDate(es));
  }

  /** Stability: for every date, the records carrying it come out of the sort
      in the order they went in. */
  lemma {:induction false} SortIsStable(es: seq<ScoreEntry>, d: Date)
    ensures WithDate(SortByDate(es), d) == WithDate(es, d)
  {
    if |es| > 0 {
      var n := |es| - 1;
      var init, last := es[..n], es[n];
      calc {
        WithDate(SortByDate(es), d);
        { assert es[..n] == init; }
        WithDate(Insert(last, SortByDate(init)), d);
        { InsertIsStable(last, SortByDate(init), d); }
        WithDate(SortByDate(init), d) + WithDate([last], d);
        { SortIsStable(init, d); }
        WithDate(init, d) + WithDate([last], d);
        { WithDateAppend(init, [last], d); }
        WithDate(init + [last], d);
        { assert init + [last] == es; }
        WithDate(es, d);
      }
    }
  }

  lemma {:induction false} WithDateAppend(a: seq<ScoreEntry>, b: seq<ScoreEntry>, d: Date)
    ensures WithDate(a + b, d) == WithDate(a, d) + WithDate(b, d)
  {
    if |a| > 0 {
      assert (a + b)[1..] == a[1..] + b;
      WithDateAppend(a[1..], b, d);
    } else {
      assert a + b == b;
    }
  }

  /** Inserting `x` adds it at the end of the records sharing its date. */
  lemma {:induction false} InsertIsStable(x: ScoreEntry, s: seq<ScoreEntry>, d: Date)
    requires Sorted(s)
    ensures WithDate(Insert(x, s), d) == WithDate(s, d) + WithDate([x], d)
  {
    if |s| == 0 {
      assert Insert(x, s) == [x];
      assert WithDate(s, d) == [];
    } else if Before(x.date, s[0].date) {
      assert Insert(x, s) == [x] + s;
      WithDateAppend([x], s, d);
      if x.date == d {
        NoneDatedBeforeHead(s, d);
      }
    } else {
      assert Sorted(s[1..]);
      var rest := Insert(x, s[1..]);
      assert Insert(x, s) == [s[0]] + rest;
      InsertIsStable(x, s[1..], d);
      calc {
        WithDate([s[0]] + rest, d);
        { WithDateAppend([s[0]], rest, d); }
        WithDate([s[0]], d) + WithDate(rest, d);
        WithDate([s[0]], d) + (WithDate(s[1..], d) + WithDate([x], d));
        (WithDate([s[0]], d) + WithDate(s[1..], d)) + WithDate([x], d);
        { WithDateAppend([s[0]], s[1..], d); assert [s[0]] + s[1..] == s; }
        WithDate(s, d) + WithDate([x], d);
      }
    }
  }

  /** In a sorted list, no record carries a date that sorts before the head. */
  lemma NoneDatedBeforeHead(s: seq<ScoreEntry>, d: Date)
    requires Sorted(s) && |s| > 0 && Before(d, s[0].date)
    ensures WithDate(s, d) == []
  {
    var k := 0;
    while k < |s|
      invariant 0 <= k <= |s|
      invariant WithDate(s, d) == WithDate(s[k..], d)
    {
      if k > 0 {
        BeforeNotAfter(d, s[0].date, s[k].date);
      }
      BeforeIrreflexive(d);
      assert s[k..][1..] == s[k + 1..];
      k := k + 1;
    }
  }

  /** Sorting keeps dates unique: it neither invents nor duplicates records. */
  lemma SortKeepsDatesUnique(es: seq<ScoreEntry>)
    requires DatesUnique(es)
    ensures DatesUnique(SortByDate(es))
  {
    forall d0: Date
      ensures |WithDate(SortByDate(es), d0)| <= 1
    {
      SortIsStable(es, d0);
      UniqueHasShortRuns(es, d0);
    }
    ShortRunsAreUnique(SortByDate(es));
  }

  lemma {:induction false} UniqueHasShortRuns(es: seq<ScoreEntry>, d: Date)
    requires DatesUnique(es)
    ensures |WithDate(es, d)| <= 1
  {
    if |es| > 0 {
      assert DatesUnique(es[1..]);
      UniqueHasShortRuns(es[1..], d);
      if es[0].date == d {
        NoneDated(es[1..], d);
      }
    }
  }

  lemma {:induction false} NoneDated(es: seq<ScoreEntry>, d: Date)
    requires forall i :: 0 <= i < |es| ==> es[i].date != d
    ensures WithDate(es, d) == []
  {
    if |es| > 0 {
      NoneDated(es[1..], d);
    }
  }

  lemma {:induction false} ShortRunsAreUnique(es: seq<ScoreEntry>)
    requires forall d :: |WithDate(es, d)| <= 1
    ensures DatesUnique(es)
  {
    if |es| > 0 {
      forall d
        ensures |WithDate(es[1..], d)| <= 1
      {
        assert |WithDate(es, d)| <= 1;
      }
      ShortRunsAreUnique(es[1..]);
      forall j | 1 <= j < |es|
        ensures es[0].date != es[j].date
      {
        var d := es[0].date;
        assert |WithDate(es, d)| == 1 + |WithDate(es[1..], d)|;
        assert |WithDate(es, d)| <= 1;
        if es[j].date == d {
          SomeDated(es[1..], d, j - 1);
        }
      }
    }
  }

  lemma {:induction false} SomeDated(es: seq<ScoreEntry>, d: Date, k: int)
    requires 0 <= k < |es| && es[k].date == d
    ensures |WithDate(es, d)| >= 1
  {
    if k > 0 {
      SomeDated(es[1..], d, k - 1);
    }
  }
}
