/** Cursor pagination over a fixed table. */
module Paginator {
  // A row is its tuple of pagination keys, which are unique; the table is given by its ascending listing,
  // which is what the database's ORDER BY produces.
  import opened Arith
  import opened Decimals
  import Lex

  /** A key value; a moment is in microseconds, as the database keeps it. */
  datatype Value = Num(n: int) | Text(s: string) | Moment(us: int)

  type Row = seq<Value>

  datatype Order = Asc | Desc

  // ---- comparing

  predicate Below(a: Value, b: Value) {
    match (a, b)
    case (Num(x), Num(y)) => x < y
    case (Text(x), Text(y)) => Lex.Less(x, y)
    case (Moment(x), Moment(y)) => x < y
    case (Num(_), _) => true
    case (Text(_), Moment(_)) => true
    case _ => false
  }

  lemma BelowIsStrict(a: Value, b: Value, c: Value)
    ensures !Below(a, a)
    ensures Below(a, b) && Below(b, c) ==> Below(a, c)
    ensures a != b ==> Below(a, b) || Below(b, a)
  {
    if a.Text? {
      Lex.Irreflexive(a.s);
    }
    if a.Text? && b.Text? && a != b {
      Lex.Connected(a.s, b.s);
    }
    if a.Text? && b.Text? && c.Text? && Below(a, b) && Below(b, c) {
      Lex.Transitive(a.s, b.s, c.s);
    }
  }

  predicate Smaller(a: Row, b: Row) {
    if a == [] || b == [] then false else Below(a[0], b[0]) || (a[0] == b[0] && Smaller(a[1..], b[1..]))
  }

  lemma {:induction false} SmallerIsStrict(a: Row, b: Row, c: Row)
    ensures !Smaller(a, a)
    ensures Smaller(a, b) && Smaller(b, c) ==> Smaller(a, c)
  {
    if a != [] && b != [] && c != [] {
      BelowIsStrict(a[0], b[0], c[0]);
      SmallerIsStrict(a[1..], b[1..], c[1..]);
    }
    if a != [] {
      BelowIsStrict(a[0], a[0], a[0]);
      SmallerIsStrict(a[1..], a[1..], a[1..]);
    }
  }

  /** Does `a` come before `b` in the listing? */
  predicate Comes(order: Order, a: Row, b: Row) { if order.Asc? then Smaller(a, b) else Smaller(b, a) }

  /** A date reaches JavaScript, and the cursor, in whole milliseconds; other values as they are. */
  function Cut(v: Value): Value { if v.Moment? then Moment(v.us - v.us % 1000) else v }

  function Key(row: Row): Row { seq(|row|, i requires 0 <= i < |row| => Cut(row[i])) }

  // ---- the filter, built key by key

  datatype Op = Equal | Greater | Less

  datatype Condition = Condition(column: nat, op: Op, value: Value)

  predicate Holds(c: Condition, row: Row) {
    c.column < |row| &&
    match c.op
    case Equal => Cut(row[c.column]) == c.value
    case Greater => Below(c.value, Cut(row[c.column]))
    case Less => Below(Cut(row[c.column]), c.value)
  }

  predicate AllHold(cs: seq<Condition>, row: Row) { forall i :: 0 <= i < |cs| ==> Holds(cs[i], row) }

  /** A disjunction of conjunctions, as `orWhere` collects them. */
  predicate Matches(clauses: seq<seq<Condition>>, row: Row) {
    exists i :: 0 <= i < |clauses| && AllHold(clauses[i], row)
  }

  function Equalities(cursor: Row, n: nat): seq<Condition>
    requires n <= |cursor|
  {
    seq(n, i requires 0 <= i < n => Condition(i, Equal, cursor[i]))
  }

  function Clauses(cursor: Row, op: Op): seq<seq<Condition>> {
    seq(|cursor|, i requires 0 <= i < |cursor| => Equalities(cursor, i) + [Condition(i, op, cursor[i])])
  }

  /** `buildCursorQuery` */
  method BuildCursorQuery(cursor: Row, op: Op) returns (clauses: seq<seq<Condition>>)
    ensures clauses == Clauses(cursor, op)
  {
    clauses := [];
    var query: seq<Condition> := [];
    for i := 0 to |cursor|
      invariant query == Equalities(cursor, i)
      invariant clauses == Clauses(cursor, op)[..i]
    {
      assert Clauses(cursor, op)[..i + 1] == Clauses(cursor, op)[..i] + [Clauses(cursor, op)[i]];
      clauses := clauses + [query + [Condition(i, op, cursor[i])]];
      query := query + [Condition(i, Equal, cursor[i])];
      assert query == Equalities(cursor, i + 1);
    }
    assert Clauses(cursor, op)[..|cursor|] == Clauses(cursor, op);
  }

  predicate AgreeUpTo(cursor: Row, row: Row, n: nat)
    requires n <= |cursor| && n <= |row|
  {
    forall i :: 0 <= i < n ==> Cut(row[i]) == cursor[i]
  }

  lemma ClauseMeans(cursor: Row, op: Op, row: Row, i: nat)
    requires i < |cursor| <= |row|
    ensures AllHold(Clauses(cursor, op)[i], row) <==> AgreeUpTo(cursor, row, i) && Holds(Condition(i, op, cursor[i]), row)
  {
    var clause := Clauses(cursor, op)[i];
    assert clause == Equalities(cursor, i) + [Condition(i, op, cursor[i])];
    assert clause[i] == Condition(i, op, cursor[i]);
    assert forall j :: 0 <= j < i ==> clause[j] == Condition(j, Equal, cursor[j]);
    if AllHold(clause, row) {
      forall j | 0 <= j < i
        ensures Cut(row[j]) == cursor[j]
      {
        assert Holds(clause[j], row);
      }
      assert Holds(clause[i], row);
    }
  }

  /** The first difference decides; the shorter row is compared with the beginning of the other. */
  lemma {:induction false} SmallerAt(a: Row, b: Row)
    ensures Smaller(a, b) <==> exists i :: 0 <= i < |a| && i < |b| && a[..i] == b[..i] && Below(a[i], b[i])
  {
    hide Below;
    if a != [] && b != [] {
      SmallerAt(a[1..], b[1..]);
      if Smaller(a, b) {
        if Below(a[0], b[0]) {
          assert a[..0] == b[..0];
        } else {
          var i :| 0 <= i < |a[1..]| && i < |b[1..]| && a[1..][..i] == b[1..][..i] && Below(a[1..][i], b[1..][i]);
          assert a[..i + 1] == [a[0]] + a[1..][..i] && b[..i + 1] == [b[0]] + b[1..][..i];
        }
      }
      if i :| 0 <= i < |a| && i < |b| && a[..i] == b[..i] && Below(a[i], b[i]) {
        if i > 0 {
          assert a[0] == a[..i][0] == b[..i][0] == b[0];
          assert a[1..][..i - 1] == a[..i][1..] && b[1..][..i - 1] == b[..i][1..];
          assert Below(a[1..][i - 1], b[1..][i - 1]);
        }
      }
    }
  }

  /** A clause holds exactly when the key agrees with the cursor so far and is beyond it here. */
  lemma ClauseIsPrefix(cursor: Row, op: Op, row: Row, i: nat)
    requires i < |cursor| <= |row|
    ensures |Key(row)| == |row|
    ensures AllHold(Clauses(cursor, op)[i], row)
            <==> Key(row)[..i] == cursor[..i] && Holds(Condition(i, op, cursor[i]), row)
  {
    hide AllHold, Holds, Clauses, Cut;
    ClauseMeans(cursor, op, row, i);
    var key := Key(row);
    if key[..i] == cursor[..i] {
      forall j | 0 <= j < i
        ensures Cut(row[j]) == cursor[j]
      {
        assert key[..i][j] == cursor[..i][j];
      }
    }
  }

  /** Beyond the cursor, in the direction of the operator. */
  predicate Beyond(op: Op, c: Value, v: Value) { if op.Greater? then Below(c, v) else Below(v, c) }

  /** Is `i` the first place where they differ, and the key beyond the cursor there? */
  predicate PartsAt(cursor: Row, op: Op, key: Row, i: nat) {
    i < |cursor| && i < |key| && key[..i] == cursor[..i] && Beyond(op, cursor[i], key[i])
  }

  lemma BeyondIff(cursor: Row, op: Op, key: Row)
    requires !op.Equal?
    ensures (if op.Greater? then Smaller(cursor, key) else Smaller(key, cursor))
            <==> exists i: nat :: PartsAt(cursor, op, key, i)
  {
    hide Below, Smaller;
    if op.Greater? {
      SmallerAt(cursor, key);
      if Smaller(cursor, key) {
        var i :| 0 <= i < |cursor| && i < |key| && cursor[..i] == key[..i] && Below(cursor[i], key[i]);
        assert PartsAt(cursor, op, key, i);
      }
    } else {
      SmallerAt(key, cursor);
      if Smaller(key, cursor) {
        var i :| 0 <= i < |key| && i < |cursor| && key[..i] == cursor[..i] && Below(key[i], cursor[i]);
        assert PartsAt(cursor, op, key, i);
      }
    }
  }

  lemma ClauseParts(cursor: Row, op: Op, row: Row, i: nat)
    requires |cursor| <= |row| && !op.Equal? && i < |cursor|
    ensures AllHold(Clauses(cursor, op)[i], row) <==> PartsAt(cursor, op, Key(row), i)
  {
    hide AllHold, Below, Clauses;
    ClauseIsPrefix(cursor, op, row, i);
  }

  /** The filter keeps exactly the rows whose key lies strictly beyond the cursor, as far as the cursor
      goes. */
  lemma FilterIsLexicographic(cursor: Row, op: Op, row: Row)
    requires |cursor| <= |row| && !op.Equal?
    ensures Matches(Clauses(cursor, op), row)
            <==> if op.Greater? then Smaller(cursor, Key(row)) else Smaller(Key(row), cursor)
  {
    BeyondIff(cursor, op, Key(row));
    var clauses := Clauses(cursor, op);
    assert |clauses| == |cursor|;
    hide Below, Smaller, AllHold, Clauses, Key;
    if Matches(clauses, row) {
      var i :| 0 <= i < |clauses| && AllHold(clauses[i], row);
      ClauseParts(cursor, op, row, i);
    }
    if i: nat :| PartsAt(cursor, op, Key(row), i) {
      ClauseParts(cursor, op, row, i);
    }
  }

  // ---- one page

  function Reverse<T>(s: seq<T>): (r: seq<T>)
    ensures |r| == |s| && forall i :: 0 <= i < |s| ==> r[i] == s[|s| - 1 - i]
  {
    if s == [] then [] else Reverse(s[1..]) + [s[0]]
  }

  function Filter<T(!new)>(s: seq<T>, keep: T -> bool): (r: seq<T>)
    ensures |r| <= |s| && forall x :: x in r <==> x in s && keep(x)
  {
    if s == [] then [] else (if keep(s[0]) then [s[0]] else []) + Filter(s[1..], keep)
  }

  /** The table in listing order; `rows` is its ascending listing. */
  function Listing(rows: seq<Row>, order: Order): (xs: seq<Row>)
    ensures |xs| == |rows|
  {
    if order.Asc? then rows else Reverse(rows)
  }

  datatype Query = Query(after: Option<Row>, before: Option<Row>, limit: nat, order: Order)

  datatype Page = Page(data: seq<Row>, after: Option<Row>, before: Option<Row>)

  function Flip(order: Order): Order { if order.Asc? then Desc else Asc }

  predicate Backwards(q: Query) { q.after.None? && q.before.Some? }

  /** The rows beyond the cursor; an after-cursor wins over a before-cursor. */
  predicate Wanted(q: Query, row: Row) {
    if q.after.Some? then Comes(q.order, q.after.value, Key(row))
    else q.before.Some? ==> Comes(q.order, Key(row), q.before.value)
  }

  function Fetched(rows: seq<Row>, q: Query): seq<Row> {
    var found := Filter(Listing(rows, if Backwards(q) then Flip(q.order) else q.order), row => Wanted(q, row));
    if |found| > q.limit + 1 then found[..q.limit + 1] else found
  }

  /** What `paginate` makes of the rows fetched. */
  function Assemble(fetched: seq<Row>, q: Query): Page {
    var more := |fetched| > q.limit;
    var kept := if more then fetched[..|fetched| - 1] else fetched;
    if kept == [] then Page([], None, None) else
      var data := if Backwards(q) then Reverse(kept) else kept;
      Page(data,
           if q.before.Some? || more then Some(Key(data[|data| - 1])) else None,
           if q.after.Some? || (more && q.before.Some?) then Some(Key(data[0])) else None)
  }

  function PageOf(rows: seq<Row>, q: Query): Page { Assemble(Fetched(rows, q), q) }

  // ---- tables on which the cursor works

  /** Keys strictly follow the listing: then they are unique and ordered as the rows are. */
  ghost predicate Strict(order: Order, xs: seq<Row>) {
    forall i, j :: 0 <= i < j < |xs| ==> Comes(order, Key(xs[i]), Key(xs[j]))
  }

  lemma {:induction false} FilterSuffix<T(!new)>(s: seq<T>, keep: T -> bool, from: nat)
    requires from <= |s|
    requires forall i :: 0 <= i < |s| ==> (keep(s[i]) <==> i >= from)
    ensures Filter(s, keep) == s[from..]
  {
    if s != [] {
      FilterSuffix(s[1..], keep, if from > 0 then from - 1 else 0);
      if from > 0 {
        assert s[1..][from - 1..] == s[from..];
      } else {
        assert s == [s[0]] + s[1..];
      }
    }
  }

  lemma FetchedFrom(rows: seq<Row>, order: Order, limit: nat, i: nat)
    requires Strict(order, Listing(rows, order)) && i <= |rows|
    ensures var xs := Listing(rows, order);
            var cursor := if i == 0 then None else Some(Key(xs[i - 1]));
            Fetched(rows, Query(cursor, None, limit, order)) == xs[i..Min(i + limit + 1, |xs|)]
  {
    hide Smaller, Key, Reverse, Filter, Listing, Comes, Strict;
    var xs := Listing(rows, order);
    var cursor := if i == 0 then None else Some(Key(xs[i - 1]));
    var q := Query(cursor, None, limit, order);
    forall j | 0 <= j < |xs|
      ensures Wanted(q, xs[j]) <==> j >= i
    {
      if i > 0 {
        CompareRows(order, xs, i - 1, j);
      }
    }
    FilterSuffix(xs, row => Wanted(q, row), i);
    var found := xs[i..];
    assert |found| > limit + 1 ==> found[..limit + 1] == xs[i..i + limit + 1];
  }

  lemma SliceOfSlice(xs: seq<Row>, i: nat, j: nat, n: nat)
    requires i + n <= j <= |xs|
    ensures xs[i..j][..n] == xs[i..i + n]
  {
  }

  /** The first page, and the page after row `i - 1`. */
  lemma PageFrom(rows: seq<Row>, order: Order, limit: nat, i: nat)
    requires limit > 0 && Strict(order, Listing(rows, order)) && i <= |rows|
    ensures var xs := Listing(rows, order);
            var end := Min(i + limit, |xs|);
            var cursor := if i == 0 then None else Some(Key(xs[i - 1]));
            PageOf(rows, Query(cursor, None, limit, order))
            == Page(xs[i..end], if i + limit < |xs| then Some(Key(xs[end - 1])) else None,
                    if 0 < i < |xs| then Some(Key(xs[i])) else None)
  {
    hide Smaller, Key, Reverse, Fetched, Strict, Assemble, Listing;
    FetchedFrom(rows, order, limit, i);
    var xs := Listing(rows, order);
    var cursor := if i == 0 then None else Some(Key(xs[i - 1]));
    AssembleForwards(xs, i, Query(cursor, None, limit, order));
  }

  /** What is made of the rows from `i` on. */
  lemma AssembleForwards(xs: seq<Row>, i: nat, q: Query)
    requires i <= |xs| && q.limit > 0 && q.before.None? && (q.after.Some? <==> i > 0)
    ensures var end := Min(i + q.limit, |xs|);
            Assemble(xs[i..Min(i + q.limit + 1, |xs|)], q)
            == Page(xs[i..end], if i + q.limit < |xs| then Some(Key(xs[end - 1])) else None,
                    if 0 < i < |xs| then Some(Key(xs[i])) else None)
  {
    hide Key, Reverse;
    var fetched, data := xs[i..Min(i + q.limit + 1, |xs|)], xs[i..Min(i + q.limit, |xs|)];
    if i + q.limit < |xs| {
      SliceOfSlice(xs, i, i + q.limit + 1, q.limit);
      assert |fetched| == q.limit + 1 && fetched[..q.limit] == data;
    } else {
      assert fetched == data && |data| <= q.limit;
    }
    if data != [] {
      assert data[0] == xs[i] && data[|data| - 1] == xs[i + |data| - 1];
    }
  }

  /** On a strict listing, comparing keys is comparing positions. */
  lemma CompareRows(order: Order, xs: seq<Row>, i: nat, j: nat)
    requires Strict(order, xs) && i < |xs| && j < |xs|
    ensures Comes(order, Key(xs[i]), Key(xs[j])) <==> i < j
  {
    hide Smaller, Key;
    SmallerIsStrict(Key(xs[i]), Key(xs[j]), Key(xs[i]));
    SmallerIsStrict(Key(xs[j]), Key(xs[i]), Key(xs[j]));
  }

  lemma FlippedListing(rows: seq<Row>, order: Order, j: nat)
    requires j < |rows|
    ensures Listing(rows, Flip(order))[j] == Listing(rows, order)[|rows| - 1 - j]
  {
    hide Reverse;
  }

  lemma FetchedUpTo(rows: seq<Row>, order: Order, limit: nat, i: nat)
    requires Strict(order, Listing(rows, order)) && i < |rows|
    ensures var xs := Listing(rows, order);
            var fetched := Fetched(rows, Query(None, Some(Key(xs[i])), limit, order));
            |fetched| == Min(limit + 1, i) && forall j :: 0 <= j < |fetched| ==> fetched[j] == xs[i - 1 - j]
  {
    hide Smaller, Key, Reverse, Listing, Filter, Strict;
    var xs := Listing(rows, order);
    var q := Query(None, Some(Key(xs[i])), limit, order);
    var ys := Listing(rows, Flip(order));
    forall j | 0 <= j < |ys|
      ensures ys[j] == xs[|xs| - 1 - j]
      ensures Wanted(q, ys[j]) <==> j >= |xs| - i
    {
      FlippedListing(rows, order, j);
      CompareRows(order, xs, |xs| - 1 - j, i);
    }
    FilterSuffix(ys, row => Wanted(q, row), |xs| - i);
  }

  /** The page before row `i`: the `limit` rows just before it, in listing order. */
  lemma PageUpTo(rows: seq<Row>, order: Order, limit: nat, i: nat)
    requires limit > 0 && Strict(order, Listing(rows, order)) && i < |rows|
    ensures var xs := Listing(rows, order);
            var start := i - Min(limit, i);
            PageOf(rows, Query(None, Some(Key(xs[i])), limit, order))
            == Page(xs[start..i], if i > 0 then Some(Key(xs[i - 1])) else None, if i > limit then Some(Key(xs[start])) else None)
  {
    hide Smaller, Key, Reverse, Fetched, Strict;
    FetchedUpTo(rows, order, limit, i);
    var xs := Listing(rows, order);
    var q := Query(None, Some(Key(xs[i])), limit, order);
    var fetched := Fetched(rows, q);
    var kept := if |fetched| > limit then fetched[..|fetched| - 1] else fetched;
    assert Reverse(kept) == xs[i - Min(limit, i)..i];
  }

  // ---- the walk

  /** The keys still ahead of a cursor. */
  function Ahead(rows: seq<Row>, order: Order, cursor: Option<Row>): nat {
    |Filter(Listing(rows, order), row => Wanted(Query(cursor, None, 1, order), row))|
  }

  lemma {:induction false} FilterShrinks<T(!new)>(s: seq<T>, p: T -> bool, q: T -> bool, x: T)
    requires forall y :: y in s && q(y) ==> p(y)
    ensures |Filter(s, q)| <= |Filter(s, p)|
    ensures x in s && p(x) && !q(x) ==> |Filter(s, q)| < |Filter(s, p)|
  {
    if s != [] {
      assert forall y :: y in s[1..] ==> y in s;
      assert s[0] in s;
      FilterShrinks(s[1..], p, q, x);
      if x in s && x != s[0] {
        assert s == [s[0]] + s[1..];
        assert x in s[1..];
      }
    }
  }

  /** Every page moves the cursor on, on any table: following cursors ends. */
  lemma CursorMovesOn(rows: seq<Row>, order: Order, limit: nat, cursor: Option<Row>)
    requires limit > 0 && PageOf(rows, Query(cursor, None, limit, order)).after.Some?
    ensures Ahead(rows, order, PageOf(rows, Query(cursor, None, limit, order)).after) < Ahead(rows, order, cursor)
  {
    hide Smaller, Key, PageOf, Filter, Listing;
    var q := Query(cursor, None, limit, order);
    var page := PageOf(rows, q);
    PageIsWanted(rows, q);
    var last := page.data[|page.data| - 1];
    assert last in page.data;
    var xs := Listing(rows, order);
    var before, after := Query(cursor, None, 1, order), Query(page.after, None, 1, order);
    forall y | Wanted(after, y)
      ensures Wanted(before, y)
    {
      if cursor.Some? {
        SmallerIsStrict(cursor.value, Key(last), Key(y));
        SmallerIsStrict(Key(y), Key(last), cursor.value);
      }
    }
    SmallerIsStrict(Key(last), Key(last), Key(last));
    FilterShrinks(xs, row => Wanted(before, row), row => Wanted(after, row), last);
  }

  /** The pages met by following `afterCursor` from `cursor` to the end. */
  function Walk(rows: seq<Row>, order: Order, limit: nat, cursor: Option<Row>): seq<seq<Row>>
    requires limit > 0
    decreases Ahead(rows, order, cursor)
  {
    var page := PageOf(rows, Query(cursor, None, limit, order));
    if page.after.None? then [page.data] else
      CursorMovesOn(rows, order, limit, cursor);
      [page.data] + Walk(rows, order, limit, page.after)
  }

  function Join(pages: seq<seq<Row>>): seq<Row> { if pages == [] then [] else pages[0] + Join(pages[1..]) }

  /** One page of the walk, unfolded. */
  lemma WalkStep(rows: seq<Row>, order: Order, limit: nat, cursor: Option<Row>)
    requires limit > 0
    ensures var page := PageOf(rows, Query(cursor, None, limit, order));
            var rest := if page.after.None? then [] else Walk(rows, order, limit, page.after);
            && Walk(rows, order, limit, cursor) == [page.data] + rest
            && Join(Walk(rows, order, limit, cursor)) == if rest == [] then page.data else page.data + Join(rest)
  {
    hide PageOf, Ahead;
    var page := PageOf(rows, Query(cursor, None, limit, order));
    var rest := if page.after.None? then [] else Walk(rows, order, limit, page.after);
    assert ([page.data] + rest)[1..] == rest;
    assert page.data + [] == page.data;
  }

  /** Pages cut a list into full pieces, the last one perhaps shorter. */
  ghost predicate CutsUp(pages: seq<seq<Row>>, xs: seq<Row>, limit: nat) {
    && Join(pages) == xs && |pages| > 0
    && (forall k :: 0 <= k < |pages| - 1 ==> |pages[k]| == limit)
    && |pages[|pages| - 1]| <= limit
  }

  lemma {:induction false} WalkFrom(rows: seq<Row>, order: Order, limit: nat, i: nat)
    requires limit > 0 && Strict(order, Listing(rows, order)) && i <= |rows|
    ensures var xs := Listing(rows, order);
            CutsUp(Walk(rows, order, limit, if i == 0 then None else Some(Key(xs[i - 1]))), xs[i..], limit)
    decreases |rows| - i
  {
    hide Smaller, Key, PageOf, Ahead, Strict, Walk, Join, Reverse, Listing, Cut, CutsUp;
    var xs := Listing(rows, order);
    var cursor := if i == 0 then None else Some(Key(xs[i - 1]));
    PageFrom(rows, order, limit, i);
    WalkStep(rows, order, limit, cursor);
    var data := xs[i..Min(i + limit, |xs|)];
    if i + limit < |xs| {
      WalkFrom(rows, order, limit, i + limit);
      CutsUpMore(data, Walk(rows, order, limit, Some(Key(xs[i + limit - 1]))), xs[i + limit..], limit);
      assert xs[i..] == data + xs[i + limit..];
    } else {
      CutsUpLast(data, limit);
      assert [data] + [] == [data] && xs[i..] == data;
    }
  }

  lemma CutsUpLast(data: seq<Row>, limit: nat)
    requires |data| <= limit
    ensures CutsUp([data], data, limit)
  {
    assert [data][1..] == [] && data + [] == data;
  }

  lemma CutsUpMore(data: seq<Row>, pages: seq<seq<Row>>, xs: seq<Row>, limit: nat)
    requires |data| == limit && CutsUp(pages, xs, limit)
    ensures CutsUp([data] + pages, data + xs, limit)
  {
    assert ([data] + pages)[1..] == pages;
  }

  /** Following `afterCursor` from the first page gives, for every page size, exactly the sorted list,
      each row once and every page but the last full, if and only if the keys as the cursor carries
      them strictly follow the listing. */
  lemma WalkIsTheListing(rows: seq<Row>, order: Order)
    ensures (forall limit: nat :: limit > 0 ==> Join(Walk(rows, order, limit, None)) == Listing(rows, order))
            <==> Strict(order, Listing(rows, order))
    ensures Strict(order, Listing(rows, order))
            ==> forall limit: nat :: limit > 0 ==> CutsUp(Walk(rows, order, limit, None), Listing(rows, order), limit)
  {
    hide Smaller, Key, Walk, Join;
    var xs := Listing(rows, order);
    if Strict(order, xs) {
      forall limit: nat | limit > 0
        ensures CutsUp(Walk(rows, order, limit, None), xs, limit)
      {
        WalkFrom(rows, order, limit, 0);
        assert xs[0..] == xs;
      }
    } else {
      var i := FirstBreak(order, xs);
      BrokenWalk(rows, order, i);
    }
  }

  /** Strictness fails between some two neighbours. */
  lemma FirstBreak(order: Order, xs: seq<Row>) returns (i: nat)
    requires !Strict(order, xs)
    ensures i + 1 < |xs| && !Comes(order, Key(xs[i]), Key(xs[i + 1]))
  {
    hide Smaller, Key;
    if forall i :: 0 <= i < |xs| - 1 ==> Comes(order, Key(xs[i]), Key(xs[i + 1])) {
      forall i, j | 0 <= i < j < |xs|
        ensures Comes(order, Key(xs[i]), Key(xs[j]))
      {
        Chain(order, xs, i, j);
      }
      assert false;
    }
    i :| 0 <= i < |xs| - 1 && !Comes(order, Key(xs[i]), Key(xs[i + 1]));
  }

  lemma {:induction false} Chain(order: Order, xs: seq<Row>, i: nat, j: nat)
    requires forall i :: 0 <= i < |xs| - 1 ==> Comes(order, Key(xs[i]), Key(xs[i + 1]))
    requires i < j < |xs|
    ensures Comes(order, Key(xs[i]), Key(xs[j]))
    decreases j
  {
    hide Smaller, Key;
    if i < j - 1 {
      Chain(order, xs, i, j - 1);
      SmallerIsStrict(Key(xs[i]), Key(xs[j - 1]), Key(xs[j]));
      SmallerIsStrict(Key(xs[j]), Key(xs[j - 1]), Key(xs[i]));
    }
    assert Comes(order, Key(xs[j - 1]), Key(xs[j - 1 + 1]));
  }

  /** With a page ending just before the break, the next row is never shown again. */
  lemma BrokenWalk(rows: seq<Row>, order: Order, i: nat)
    requires var xs := Listing(rows, order);
             i + 1 < |xs| && !Comes(order, Key(xs[i]), Key(xs[i + 1]))
    ensures Join(Walk(rows, order, i + 1, None)) != Listing(rows, order)
  {
    hide Smaller, Key, Ahead, Walk, Join, PageOf, Reverse, Comes;
    var xs := Listing(rows, order);
    var limit := i + 1;
    FirstPage(rows, order, limit);
    WalkStep(rows, order, limit, None);
    AllAhead(rows, order, limit, Key(xs[i]));
    var rest := Join(Walk(rows, order, limit, Some(Key(xs[i]))));
    if |rest| > 0 {
      assert (xs[..limit] + rest)[limit] == rest[0];
      assert rest[0] in rest;
    }
  }

  /** The first page of any table that has a second. */
  lemma FirstPage(rows: seq<Row>, order: Order, limit: nat)
    requires 0 < limit < |rows|
    ensures var xs := Listing(rows, order);
            PageOf(rows, Query(None, None, limit, order)) == Page(xs[..limit], Some(Key(xs[limit - 1])), None)
  {
    hide Smaller, Key, Reverse, Listing, Filter, Comes;
    var xs := Listing(rows, order);
    var q := Query(None, None, limit, order);
    FilterSuffix(xs, row => Wanted(q, row), 0);
    assert xs[0..] == xs;
    assert Fetched(rows, q) == xs[..limit + 1];
    SliceOfSlice(xs, 0, limit + 1, limit);
    assert xs[0..limit + 1] == xs[..limit + 1] && xs[0..limit] == xs[..limit];
  }

  /** A page holds only wanted rows, and its after-cursor is the key of its last row. */
  lemma PageIsWanted(rows: seq<Row>, q: Query)
    requires q.before.None?
    ensures var page := PageOf(rows, q);
            && (forall row :: row in page.data ==> row in rows && row in Listing(rows, q.order) && Wanted(q, row))
            && (page.after.Some? ==> page.data != [] && page.after.value == Key(page.data[|page.data| - 1]))
  {
    hide Wanted, Key, Smaller;
    ListingRows(rows, q.order);
    hide Reverse;
    forall row | row in PageOf(rows, q).data
      ensures row in rows && row in Listing(rows, q.order) && Wanted(q, row)
    {
      assert row in Fetched(rows, q);
      assert row in Filter(Listing(rows, q.order), row => Wanted(q, row));
    }
  }

  /** Rows shown after a cursor have keys beyond it. */
  lemma {:induction false} AllAhead(rows: seq<Row>, order: Order, limit: nat, cursor: Row)
    requires limit > 0
    ensures forall row :: row in Join(Walk(rows, order, limit, Some(cursor))) ==> Comes(order, cursor, Key(row))
    decreases Ahead(rows, order, Some(cursor))
  {
    hide Smaller, Key, PageOf, Ahead, Walk, Join, Listing;
    var q := Query(Some(cursor), None, limit, order);
    var page := PageOf(rows, q);
    WalkStep(rows, order, limit, Some(cursor));
    PageIsWanted(rows, q);
    if page.after.Some? {
      CursorMovesOn(rows, order, limit, Some(cursor));
      AllAhead(rows, order, limit, page.after.value);
      var last := page.data[|page.data| - 1];
      assert last in page.data;
      forall row | row in Join(Walk(rows, order, limit, page.after))
        ensures Comes(order, cursor, Key(row))
      {
        SmallerIsStrict(cursor, Key(last), Key(row));
        SmallerIsStrict(Key(row), Key(last), cursor);
      }
    }
  }

  /** Taking the `beforeCursor` of page k + 1 returns exactly page k. */
  lemma BackReturnsThePage(rows: seq<Row>, order: Order, limit: nat, k: nat)
    requires limit > 0 && Strict(order, Listing(rows, order)) && (k + 1) * limit < |rows|
    ensures var xs := Listing(rows, order);
            var cursor := if k == 0 then None else Some(Key(xs[k * limit - 1]));
            && k * limit < |rows|
            && var here := PageOf(rows, Query(cursor, None, limit, order));
               var next := PageOf(rows, Query(here.after, None, limit, order));
               && here.after.Some? && next.before.Some?
               && PageOf(rows, Query(None, next.before, limit, order)).data == here.data
  {
    hide Smaller, Key, PageOf, Strict, Reverse;
    var xs := Listing(rows, order);
    assert k * limit + limit == (k + 1) * limit;
    PageFrom(rows, order, limit, k * limit);
    PageFrom(rows, order, limit, (k + 1) * limit);
    PageUpTo(rows, order, limit, (k + 1) * limit);
  }

  /** Two rows of one millisecond: sorted by the microsecond, filtered by the millisecond, the second
      is lost on pages of one. */
  lemma SameMillisecondIsLost()
    ensures var rows := [[Moment(1001)], [Moment(1002)]];
            !Strict(Asc, Listing(rows, Asc)) && Join(Walk(rows, Asc, 1, None)) != rows
  {
    var rows := [[Moment(1001)], [Moment(1002)]];
    assert Key(rows[0]) == [Moment(1000)] && Key(rows[1]) == [Moment(1000)];
    SmallerIsStrict(Key(rows[0]), Key(rows[0]), Key(rows[0]));
    assert !Comes(Asc, Key(rows[0]), Key(rows[1]));
    BrokenWalk(rows, Asc, 0);
  }

  // ---- tables sorted by the raw key, as ORDER BY leaves them

  /** Strictly ascending by the raw key tuple, which is unique. */
  ghost predicate Table(rows: seq<Row>) {
    && (forall i, j :: 0 <= i < j < |rows| ==> Smaller(rows[i], rows[j]))
    && (forall i, j :: 0 <= i < j < |rows| ==> |rows[i]| == |rows[j]|)
  }

  lemma ListingRows(rows: seq<Row>, order: Order)
    ensures forall row :: row in Listing(rows, order) ==> row in rows
  {
    hide Reverse;
  }

  /** The listing is in the order asked for. */
  lemma ListingIsOrdered(rows: seq<Row>, order: Order, i: nat, j: nat)
    requires Table(rows) && i < j < |rows|
    ensures Comes(order, Listing(rows, order)[i], Listing(rows, order)[j])
  {
    hide Smaller, Reverse;
  }

  /** The order determines the listing: two tables with the same rows are one list. */
  lemma {:induction false} TableIsDetermined(xs: seq<Row>, ys: seq<Row>)
    requires Table(xs) && Table(ys) && forall row :: row in xs <==> row in ys
    ensures xs == ys
  {
    hide Smaller;
    assert xs != [] ==> xs[0] in ys;
    assert ys != [] ==> ys[0] in xs;
    if xs != [] {
      SmallerIsStrict(xs[0], ys[0], xs[0]);
      assert xs[0] == ys[0];
      TailRows(xs);
      TailRows(ys);
      TableIsDetermined(xs[1..], ys[1..]);
      assert xs == [xs[0]] + xs[1..] && ys == [ys[0]] + ys[1..];
    }
  }

  lemma TailRows(xs: seq<Row>)
    requires Table(xs) && xs != []
    ensures Table(xs[1..]) && forall row :: row in xs[1..] <==> row in xs && row != xs[0]
  {
    hide Smaller;
    SmallerIsStrict(xs[0], xs[0], xs[0]);
    assert xs == [xs[0]] + xs[1..];
    forall i | 0 <= i < |xs[1..]|
      ensures xs[1..][i] != xs[0]
    {
      assert Smaller(xs[0], xs[i + 1]);
    }
  }

  predicate WholeMillis(row: Row) { forall i :: 0 <= i < |row| && row[i].Moment? ==> row[i].us % 1000 == 0 }

  /** Strings, numbers and whole-millisecond dates: the cursor carries the raw key. */
  lemma WholeMillisAreStrict(rows: seq<Row>, order: Order)
    requires Table(rows) && forall i :: 0 <= i < |rows| ==> WholeMillis(rows[i])
    ensures Strict(order, Listing(rows, order))
  {
    hide Smaller, Reverse, Comes;
    var xs := Listing(rows, order);
    forall i, j | 0 <= i < j < |xs|
      ensures Comes(order, Key(xs[i]), Key(xs[j]))
    {
      ListingRows(rows, order);
      assert xs[i] in rows && xs[j] in rows;
      assert Key(xs[i]) == xs[i] && Key(xs[j]) == xs[j];
      ListingIsOrdered(rows, order, i, j);
    }
  }

  /** The first key that tells the rows apart is a date in one and the same millisecond, and what
      follows it, truncated, does not increase. */
  predicate Blurred(a: Row, b: Row, i: nat) {
    && i < |a| && i < |b| && a[..i] == b[..i]
    && a[i].Moment? && b[i].Moment? && a[i].us < b[i].us && a[i].us / 1000 == b[i].us / 1000
    && !Smaller(Key(a[i + 1..]), Key(b[i + 1..]))
  }

  ghost predicate Blur(a: Row, b: Row) { exists i: nat :: Blurred(a, b, i) }

  /** Truncation keeps the order of two rows unless they blur. */
  lemma {:induction false} TruncationKeepsIff(a: Row, b: Row)
    requires Smaller(a, b)
    ensures Smaller(Key(a), Key(b)) <==> !Blur(a, b)
  {
    var x, y := a[1..], b[1..];
    assert Key(a) == [Cut(a[0])] + Key(x) && Key(b) == [Cut(b[0])] + Key(y);
    BelowIsStrict(a[0], b[0], a[0]);
    BelowIsStrict(Cut(a[0]), Cut(b[0]), Cut(a[0]));
    assert Key(a)[1..] == Key(x) && Key(b)[1..] == Key(y);
    if a[0] == b[0] {
      TruncationKeepsIff(x, y);
      BlurredLater(a, b);
      assert !Blurred(a, b, 0);
    } else {
      forall i: nat
        ensures Blurred(a, b, i) ==> i == 0
      {
        LaterBlurAgrees(a, b, i);
      }
      if Cut(a[0]) == Cut(b[0]) {
        SameCut(a[0], b[0]);
        assert a[..0] == b[..0];
        assert Blurred(a, b, 0) <==> !Smaller(Key(x), Key(y));
      } else {
        assert !Blurred(a, b, 0);
      }
    }
  }

  lemma LaterBlurAgrees(a: Row, b: Row, i: nat)
    ensures Blurred(a, b, i) && i > 0 ==> a[0] == b[0]
  {
    hide Smaller, Key;
    if Blurred(a, b, i) && i > 0 {
      assert a[0] == a[..i][0] && b[0] == b[..i][0];
    }
  }

  lemma BlurredLater(a: Row, b: Row)
    requires a != [] && b != [] && a[0] == b[0]
    ensures Blur(a, b) <==> Blur(a[1..], b[1..])
  {
    hide Smaller, Key;
    var x, y := a[1..], b[1..];
    if i: nat :| Blurred(a, b, i) {
      assert i > 0 && x[..i - 1] == a[..i][1..] && y[..i - 1] == b[..i][1..];
      assert x[i - 1 + 1..] == a[i + 1..] && y[i - 1 + 1..] == b[i + 1..];
      assert Blurred(x, y, i - 1);
    }
    if i: nat :| Blurred(x, y, i) {
      assert a[..i + 1] == [a[0]] + x[..i] && b[..i + 1] == [b[0]] + y[..i];
      assert a[i + 1 + 1..] == x[i + 1..] && b[i + 1 + 1..] == y[i + 1..];
      assert Blurred(a, b, i + 1);
    }
  }

  lemma SameCut(a: Value, b: Value)
    requires Below(a, b) && Cut(a) == Cut(b)
    ensures a.Moment? && b.Moment? && a.us < b.us && a.us / 1000 == b.us / 1000
  {
    BelowIsStrict(a, b, a);
  }

  /** Do two neighbours blur? */
  ghost predicate NeighboursBlur(rows: seq<Row>) { exists k: nat :: BlurAt(rows, k) }

  ghost predicate BlurAt(rows: seq<Row>, k: nat) { k + 1 < |rows| && Blur(rows[k], rows[k + 1]) }

  /** On a sorted table the cursor works exactly when no two neighbours blur. */
  lemma StrictIff(rows: seq<Row>, order: Order)
    requires Table(rows)
    ensures Strict(order, Listing(rows, order)) <==> !NeighboursBlur(rows)
  {
    hide Smaller, Key, Reverse, Blur;
    var xs := Listing(rows, order);
    if NeighboursBlur(rows) {
      var k: nat :| BlurAt(rows, k);
      TruncationKeepsIff(rows[k], rows[k + 1]);
      NeighbourAt(rows, order, k);
    } else {
      forall k | 0 <= k < |xs| - 1
        ensures Comes(order, Key(xs[k]), Key(xs[k + 1]))
      {
        var l := if order.Asc? then k else |xs| - 2 - k;
        NeighbourAt(rows, order, l);
        TruncationKeepsIff(rows[l], rows[l + 1]);
        assert !BlurAt(rows, l);
      }
      forall i, j | 0 <= i < j < |xs|
        ensures Comes(order, Key(xs[i]), Key(xs[j]))
      {
        Chain(order, xs, i, j);
      }
    }
  }

  /** Neighbours of the table are neighbours of the listing. */
  lemma NeighbourAt(rows: seq<Row>, order: Order, l: nat)
    requires l + 1 < |rows|
    ensures var xs := Listing(rows, order);
            var k := if order.Asc? then l else |rows| - 2 - l;
            Comes(order, Key(xs[k]), Key(xs[k + 1])) <==> Smaller(Key(rows[l]), Key(rows[l + 1]))
  {
    hide Smaller, Key, Reverse;
  }

  /** For a table with unique keys, sorted as ORDER BY sorts it: for every page size the walk shows
      exactly the listing, each row once and every page but the last full, if and only if no two
      neighbours blur; so always with strings, numbers and whole-millisecond dates. */
  lemma WalkShowsTheTable(rows: seq<Row>, order: Order)
    requires Table(rows)
    ensures (forall limit: nat :: limit > 0 ==> Join(Walk(rows, order, limit, None)) == Listing(rows, order))
            <==> !NeighboursBlur(rows)
    ensures !NeighboursBlur(rows)
            ==> forall limit: nat :: limit > 0 ==> CutsUp(Walk(rows, order, limit, None), Listing(rows, order), limit)
    ensures (forall i :: 0 <= i < |rows| ==> WholeMillis(rows[i])) ==> !NeighboursBlur(rows)
  {
    hide Smaller, Key, Walk, Join, Listing, Strict, Table, NeighboursBlur, CutsUp, WholeMillis;
    StrictIff(rows, order);
    WalkIsTheListing(rows, order);
    if forall i :: 0 <= i < |rows| ==> WholeMillis(rows[i]) {
      WholeMillisAreStrict(rows, order);
    }
  }

  // ---- the paginator object

  lemma {:induction false} FilterAgrees<T(!new)>(s: seq<T>, p: T -> bool, q: T -> bool)
    requires forall x :: x in s ==> p(x) == q(x)
    ensures Filter(s, p) == Filter(s, q)
  {
    if s != [] {
      assert forall x :: x in s[1..] ==> x in s;
      assert s[0] in s;
      FilterAgrees(s[1..], p, q);
    }
  }

  /** `getOperator` */
  function OperatorOf(q: Query): Op {
    if q.after.Some? then (if q.order.Asc? then Greater else Less)
    else if q.before.Some? then (if q.order.Asc? then Less else Greater)
    else Equal
  }

  function CursorOf(q: Query): Option<Row> { if q.after.Some? then q.after else q.before }

  /** Rows carry all pagination keys. A cursor carries those before the first one it lacks: a
      condition on a missing key compares with null and never holds, nor does any that follows it. */
  ghost predicate Arity(rows: seq<Row>, q: Query, keys: nat) {
    && (forall row :: row in rows ==> |row| == keys)
    && (q.after.Some? ==> |q.after.value| <= keys)
    && (q.before.Some? ==> |q.before.value| <= keys)
  }

  /** The filter with the operator chosen keeps exactly the wanted rows. */
  lemma OperatorIsRight(row: Row, q: Query)
    requires CursorOf(q).Some? && |CursorOf(q).value| <= |row|
    ensures Matches(Clauses(CursorOf(q).value, OperatorOf(q)), row) <==> Wanted(q, row)
  {
    hide Smaller, Matches, Clauses, Key;
    FilterIsLexicographic(CursorOf(q).value, OperatorOf(q), row);
  }

  const DEFAULT_LIMIT := 100

  class Paginator {
    var afterCursor: Option<Row>
    var beforeCursor: Option<Row>
    var nextAfterCursor: Option<Row>
    var nextBeforeCursor: Option<Row>
    var limit: nat
    var order: Order

    constructor ()
      ensures AsQuery() == Query(None, None, 100, Desc)
      ensures nextAfterCursor.None? && nextBeforeCursor.None?
    {
      afterCursor, beforeCursor, nextAfterCursor, nextBeforeCursor := None, None, None, None;
      limit, order := DEFAULT_LIMIT, Desc;
    }

    function AsQuery(): Query
      reads this
    {
      Query(afterCursor, beforeCursor, limit, order)
    }

    /** `appendPagingQuery` and `getMany`: filter, order and take one row more than the page. */
    method Fetch(rows: seq<Row>, ghost keys: nat) returns (entities: seq<Row>)
      requires Arity(rows, AsQuery(), keys)
      ensures entities == Fetched(rows, AsQuery())
    {
      hide Smaller, Comes, Key, Matches, Listing, Filter, Reverse, Clauses, Cut;
      var q := AsQuery();
      var direction := if afterCursor.None? && beforeCursor.Some? then Flip(order) else order;
      var found := Listing(rows, direction);
      ListingRows(rows, direction);
      if CursorOf(q).Some? {
        var clauses := BuildCursorQuery(CursorOf(q).value, OperatorOf(q));
        forall row | row in found
          ensures Matches(clauses, row) == Wanted(q, row)
        {
          OperatorIsRight(row, q);
        }
        FilterAgrees(found, row => Matches(clauses, row), row => Wanted(q, row));
        found := Filter(found, row => Matches(clauses, row));
      } else {
        FilterSuffix(found, row => Wanted(q, row), 0);
      }
      entities := if |found| > limit + 1 then found[..limit + 1] else found;
    }

    /** `paginate`. A cursor the call does not set keeps the value an earlier call left. */
    method Paginate(rows: seq<Row>, ghost keys: nat) returns (r: Page)
      requires Arity(rows, AsQuery(), keys)
      modifies this`nextAfterCursor, this`nextBeforeCursor
      ensures var page := PageOf(rows, AsQuery());
              && r.data == page.data
              && r.after == (if page.after.Some? then page.after else old(nextAfterCursor))
              && r.before == (if page.before.Some? then page.before else old(nextBeforeCursor))
      ensures nextAfterCursor == r.after && nextBeforeCursor == r.before
    {
      hide Smaller, Comes, Key, Fetched, Arity;
      var entities := Fetch(rows, keys);
      var hasMore := |entities| > limit;
      if hasMore {
        entities := entities[..|entities| - 1];
      }
      if |entities| == 0 {
        return Page(entities, nextAfterCursor, nextBeforeCursor);
      }
      if afterCursor.None? && beforeCursor.Some? {
        entities := Reverse(entities);
      }
      if beforeCursor.Some? || hasMore {
        nextAfterCursor := Some(Key(entities[|entities| - 1]));
      }
      if afterCursor.Some? || (hasMore && beforeCursor.Some?) {
        nextBeforeCursor := Some(Key(entities[0]));
      }
      return Page(entities, nextAfterCursor, nextBeforeCursor);
    }
  }

  /** `buildPaginator`: what the query leaves out, or a limit of zero, keeps its default. */
  method BuildPaginator(after: Option<Row>, before: Option<Row>, limit: Option<nat>, order: Option<Order>) returns (p: Paginator)
    ensures fresh(p) && p.nextAfterCursor.None? && p.nextBeforeCursor.None?
    ensures p.AsQuery() == Query(after, before, if limit.None? || limit == Some(0) then 100 else limit.value,
                                 if order.None? then Desc else order.value)
    ensures p.limit > 0
  {
    p := new Paginator();
    if after.Some? {
      p.afterCursor := after;
    }
    if before.Some? {
      p.beforeCursor := before;
    }
    if limit.Some? && limit.value != 0 {
      p.limit := limit.value;
    }
    if order.Some? {
      p.order := order.value;
    }
  }

  /** One request of a client: a new paginator for the page after the cursor. */
  method PageAfter(rows: seq<Row>, order: Order, limit: nat, cursor: Option<Row>, ghost keys: nat) returns (page: Page)
    requires limit > 0 && (forall row :: row in rows ==> |row| == keys) && (cursor.Some? ==> |cursor.value| == keys)
    ensures page == PageOf(rows, Query(cursor, None, limit, order))
  {
    hide Smaller, Comes, Key, PageOf;
    var p := BuildPaginator(cursor, None, Some(limit), Some(order));
    page := p.Paginate(rows, keys);
  }

  /** A client's whole session: a new paginator a page, each given the last page's `afterCursor`. */
  method FollowAfter(rows: seq<Row>, order: Order, limit: nat, ghost keys: nat) returns (pages: seq<seq<Row>>)
    requires limit > 0 && forall row :: row in rows ==> |row| == keys
    ensures pages == Walk(rows, order, limit, None)
  {
    hide Smaller, Comes, Key, Cut, PageOf, Walk, Join, Ahead, Listing, Wanted, Reverse, Filter, Assemble, Fetched;
    pages := [];
    var cursor: Option<Row> := None;
    var done := false;
    while !done
      invariant cursor.Some? ==> |cursor.value| == keys
      invariant pages + (if done then [] else Walk(rows, order, limit, cursor)) == Walk(rows, order, limit, None)
      decreases !done, Ahead(rows, order, cursor)
    {
      var page := PageAfter(rows, order, limit, cursor, keys);
      WalkStep(rows, order, limit, cursor);
      CursorFits(rows, Query(cursor, None, limit, order), keys);
      OnePageMore(pages, page.data, if page.after.None? then [] else Walk(rows, order, limit, page.after));
      pages := pages + [page.data];
      if page.after.None? {
        done := true;
      } else {
        CursorMovesOn(rows, order, limit, cursor);
        cursor := page.after;
      }
    }
  }

  lemma OnePageMore(pages: seq<seq<Row>>, data: seq<Row>, rest: seq<seq<Row>>)
    ensures pages + ([data] + rest) == (pages + [data]) + rest
  {
  }

  lemma CursorFits(rows: seq<Row>, q: Query, keys: nat)
    requires q.before.None? && forall row :: row in rows ==> |row| == keys
    ensures PageOf(rows, q).after.Some? ==> |PageOf(rows, q).after.value| == keys
  {
    hide Smaller, PageOf;
    PageIsWanted(rows, q);
    var page := PageOf(rows, q);
    if page.after.Some? {
      assert page.data[|page.data| - 1] in page.data;
    }
  }
}
