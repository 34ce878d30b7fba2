/** Dates of the ledger and the order the save operation sorts them by.

    A date is the text the application stores, `YYYY-MM-DD` when it comes
    from the clock. The source sorts with the comparator
    `new Date(a).getTime() - new Date(b).getTime()`; on valid `YYYY-MM-DD`
    dates with four-digit years this is the same order as comparing the texts
    character by character, which is the order defined here and the one the
    model sorts every text by. */
module DateOrder {

  type Date = string

  /** `a` sorts strictly before `b`: the first differing character of `a`
      is smaller, or `a` is a proper prefix of `b`. */
  predicate Before(a: Date, b: Date)
    decreases |a|
  {
    if |a| == 0 then |b| > 0
    else if |b| == 0 then false
    else if a[0] < b[0] then true
    else a[0] == b[0] && Before(a[1..], b[1..])
  }

  /** `a` may stand before `b` in a list sorted by date. */
  predicate NotAfter(a: Date, b: Date)
  {
    !Before(b, a)
  }

  lemma {:induction false} BeforeIrreflexive(a: Date)
    ensures !Before(a, a)
  {
    if |a| > 0 {
      BeforeIrreflexive(a[1..]);
    }
  }

  lemma {:induction false} BeforeTransitive(a: Date, b: Date, c: Date)
    requires Before(a, b) && Before(b, c)
    ensures Before(a, c)
  {
    if |a| > 0 && a[0] == b[0] && b[0] == c[0] {
      BeforeTransitive(a[1..], b[1..], c[1..]);
    }
  }

  /** Any two dates are equal or one sorts before the other. */
  lemma {:induction false} BeforeTrichotomy(a: Date, b: Date)
    ensures a == b || Before(a, b) || Before(b, a)
  {
    if |a| > 0 && |b| > 0 && a[0] == b[0] {
      BeforeTrichotomy(a[1..], b[1..]);
      if a[1..] == b[1..] {
        assert a == [a[0]] + a[1..];
        assert b == [b[0]] + b[1..];
      }
    }
  }

  lemma BeforeAsymmetric(a: Date, b: Date)
    requires Before(a, b)
    ensures !Before(b, a)
  {
  }

  lemma NotAfterTransitive(a: Date, b: Date, c: Date)
    requires NotAfter(a, b) && NotAfter(b, c)
    ensures NotAfter(a, c)
  {
    if Before(c, a) {
      BeforeTrichotomy(a, b);
      if Before(a, b) {
        BeforeTransitive(c, a, b);
      }
    }
  }

  /** Sorting before a date is carried over to everything that does not sort before it. */
  lemma BeforeNotAfter(a: Date, b: Date, c: Date)
    requires Before(a, b) && NotAfter(b, c)
    ensures Before(a, c)
  {
    BeforeTrichotomy(b, c);
    if Before(b, c) {
      BeforeTransitive(a, b, c);
    }
  }

  /** Comparing two texts whose first parts have one length compares the
      first parts, and the rest only when the first parts are equal. */
  lemma {:induction false} BeforeConcat(a1: Date, a2: Date, b1: Date, b2: Date)
    requires |a1| == |b1|
    ensures Before(a1 + a2, b1 + b2) <==> Before(a1, b1) || (a1 == b1 && Before(a2, b2))
  {
    if |a1| == 0 {
      assert a1 + a2 == a2 && b1 + b2 == b2;
      BeforeIrreflexive(a1);
    } else {
      assert (a1 + a2)[1..] == a1[1..] + a2;
      assert (b1 + b2)[1..] == b1[1..] + b2;
      BeforeConcat(a1[1..], a2, b1[1..], b2);
      if a1[0] == b1[0] && a1[1..] == b1[1..] {
        assert a1 == [a1[0]] + a1[1..];
        assert b1 == [b1[0]] + b1[1..];
      }
      if a1 == b1 {
        assert a1[1..] == b1[1..];
      }
    }
  }
}
