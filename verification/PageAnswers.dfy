/** What a page holds on any table, whatever cursors are given. Nothing is asked of the table, so this
    also covers tables on which a walk would miss rows. */
module PageAnswers {
  import opened Arith
  import opened Decimals
  import opened Paginator
  import Lex

  /** Values of one kind compare as numbers, as moments and as texts do; a moment is cut to the millisecond
      it lies in. */
  lemma ValuesCompare(x: int, y: int, s: string, t: string)
    ensures Below(Num(x), Num(y)) <==> x < y
    ensures Below(Moment(x), Moment(y)) <==> x < y
    ensures Below(Text(s), Text(t)) <==> exists k: nat :: Lex.PartsAt(s, t, k)
    ensures Cut(Num(x)) == Num(x) && Cut(Text(s)) == Text(s)
    ensures Cut(Moment(x)).Moment? && Cut(Moment(x)).us % 1000 == 0 && Cut(Moment(x)).us <= x < Cut(Moment(x)).us + 1000
  {
    hide Lex.Less;
    Lex.LessIff(s, t);
  }

  lemma {:induction false} FilterAppend<T(!new)>(a: seq<T>, b: seq<T>, keep: T -> bool)
    ensures Filter(a + b, keep) == Filter(a, keep) + Filter(b, keep)
  {
    if a == [] {
      assert a + b == b;
    } else {
      assert (a + b)[0] == a[0] && (a + b)[1..] == a[1..] + b;
      FilterAppend(a[1..], b, keep);
    }
  }

  lemma {:induction false} FilterReverse<T(!new)>(s: seq<T>, keep: T -> bool)
    ensures Filter(Reverse(s), keep) == Reverse(Filter(s, keep))
  {
    if s != [] {
      FilterReverse(s[1..], keep);
      FilterAppend(Reverse(s[1..]), [s[0]], keep);
      FilterOne(s[0], keep);
      var rest := Filter(s[1..], keep);
      if keep(s[0]) {
        assert ([s[0]] + rest)[1..] == rest;
      } else {
        assert [] + rest == rest;
      }
    }
  }

  lemma FilterOne<T(!new)>(x: T, keep: T -> bool)
    ensures Filter([x], keep) == if keep(x) then [x] else []
  {
    assert [x][1..] == [];
  }

  lemma ReverseTwice<T>(s: seq<T>)
    ensures Reverse(Reverse(s)) == s
  {
  }

  /** The rows a query is about, in listing order: those after the after-cursor, or else those before the
      before-cursor, or else all. */
  function Found(rows: seq<Row>, q: Query): (found: seq<Row>)
    ensures forall row :: row in found <==>
              && row in Listing(rows, q.order)
              && (match (q.after, q.before)
                  case (Some(cursor), _) => Comes(q.order, cursor, Key(row))
                  case (None, Some(cursor)) => Comes(q.order, Key(row), cursor)
                  case _ => true)
  {
    Filter(Listing(rows, q.order), row => Wanted(q, row))
  }

  lemma FetchedAre(rows: seq<Row>, q: Query)
    ensures var found := Found(rows, q);
            var all := if q.after.None? && q.before.Some? then Reverse(found) else found;
            Fetched(rows, q) == all[..Min(q.limit + 1, |all|)]
  {
    hide Wanted, Reverse, Filter;
    var keep := row => Wanted(q, row);
    FilterReverse(rows, keep);
    ReverseTwice(rows);
    ReverseTwice(Filter(rows, keep));
  }

  /** Of these a page shows the first `limit`, or the last ones on the way back, in listing order. It has an
      after-cursor exactly when there is more or it came from a before-cursor, and a before-cursor exactly
      when it came from an after-cursor or there is more on the way back; an empty page has neither. */
  lemma AnyPage(rows: seq<Row>, q: Query)
    ensures var page, found := PageOf(rows, q), Found(rows, q);
            var n, back := Min(q.limit, |found|), q.after.None? && q.before.Some?;
            && page.data == (if back then found[|found| - n..] else found[..n])
            && (page.after.Some? <==> n > 0 && (q.before.Some? || |found| > q.limit))
            && (page.before.Some? <==> n > 0 && (q.after.Some? || (q.before.Some? && |found| > q.limit)))
            && (page.after.Some? ==> page.after.value == Key(page.data[n - 1]))
            && (page.before.Some? ==> page.before.value == Key(page.data[0]))
  {
    hide Found, Key, Fetched, Reverse;
    FetchedAre(rows, q);
    var found := Found(rows, q);
    var back := q.after.None? && q.before.Some?;
    var fetched := Fetched(rows, q);
    var n := Min(q.limit, |found|);
    var kept := if |fetched| > q.limit then fetched[..|fetched| - 1] else fetched;
    if back {
      assert kept == Reverse(found)[..n];
      assert Reverse(kept) == found[|found| - n..];
    } else {
      assert kept == found[..n];
    }
  }
}
