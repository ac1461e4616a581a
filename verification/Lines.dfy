/** Stock lines: quantities asked per key. A key is the list of the strings that name it, compared
    part by part: `[sku]` in the branch store, `[warehouse, sku]` in the warehouse store, and a stock
    row puts the owner in front (`[tenant, branch, sku]`). */
module Lines {
  import Lex

  type Key = seq<string>

  datatype Line = Line(key: Key, qty: int)

  predicate KeyLess(a: Key, b: Key)
    decreases |a|
  {
    if b == [] then false
    else if a == [] then true
    else Lex.Less(a[0], b[0]) || (a[0] == b[0] && KeyLess(a[1..], b[1..]))
  }

  lemma {:induction false} KeyIrreflexive(a: Key)
    ensures !KeyLess(a, a)
    decreases |a|
  {
    if a != [] {
      Lex.Irreflexive(a[0]);
      KeyIrreflexive(a[1..]);
    }
  }

  lemma {:induction false} KeyConnected(a: Key, b: Key)
    requires a != b
    ensures KeyLess(a, b) || KeyLess(b, a)
    decreases |a|
  {
    if a != [] && b != [] {
      if a[0] != b[0] {
        Lex.Connected(a[0], b[0]);
      } else {
        assert a == [a[0]] + a[1..] && b == [b[0]] + b[1..];
        KeyConnected(a[1..], b[1..]);
      }
    }
  }

  lemma {:induction false} KeyTransitive(a: Key, b: Key, c: Key)
    requires KeyLess(a, b) && KeyLess(b, c)
    ensures KeyLess(a, c)
    decreases |a|
  {
    if a != [] {
      if a[0] == b[0] == c[0] {
        Lex.Irreflexive(a[0]);
        KeyTransitive(a[1..], b[1..], c[1..]);
      } else if a[0] != b[0] && b[0] != c[0] {
        Lex.Transitive(a[0], b[0], c[0]);
      }
    }
  }

  /** A common owner in front does not change the order. */
  lemma {:induction false} KeyPrefix(p: Key, a: Key, b: Key)
    ensures KeyLess(p + a, p + b) == KeyLess(a, b)
  {
    if p == [] {
      assert p + a == a && p + b == b;
    } else {
      Lex.Irreflexive(p[0]);
      assert (p + a)[1..] == p[1..] + a && (p + b)[1..] == p[1..] + b;
      KeyPrefix(p[1..], a, b);
    }
  }

  /** Alike up to part `k`, where the first key ends or has the smaller part. */
  ghost predicate KeysPartAt(a: Key, b: Key, k: nat) {
    k <= |a| && k < |b| && a[..k] == b[..k] && (k == |a| || Lex.Less(a[k], b[k]))
  }

  lemma SameFirstPart(a: Key, b: Key, k: nat)
    ensures k > 0 && KeysPartAt(a, b, k) ==> a[0] == b[0]
  {
    if k > 0 && KeysPartAt(a, b, k) {
      assert a[0] == a[..k][0] == b[..k][0] == b[0];
    }
  }

  /** The first part that differs decides. */
  lemma {:induction false} KeyLessIff(a: Key, b: Key)
    ensures KeyLess(a, b) <==> exists k: nat :: KeysPartAt(a, b, k)
    decreases |a|
  {
    hide Lex.Less;
    if a == [] || b == [] || a[0] != b[0] {
      if KeyLess(a, b) {
        assert KeysPartAt(a, b, 0);
      }
      if k: nat :| KeysPartAt(a, b, k) {
        SameFirstPart(a, b, k);
      }
    } else {
      Lex.Irreflexive(a[0]);
      KeyLessIff(a[1..], b[1..]);
      if k: nat :| KeysPartAt(a[1..], b[1..], k) {
        assert a[..k + 1] == [a[0]] + a[1..][..k] && b[..k + 1] == [b[0]] + b[1..][..k];
        assert KeysPartAt(a, b, k + 1);
      }
      if k: nat :| KeysPartAt(a, b, k) {
        assert k > 0;
        assert a[1..][..k - 1] == a[..k][1..] && b[1..][..k - 1] == b[..k][1..];
        assert KeysPartAt(a[1..], b[1..], k - 1);
      }
    }
  }

  // ---- what a list of lines asks for

  function Total(lines: seq<Line>, k: Key): int {
    if lines == [] then 0
    else Total(lines[..|lines| - 1], k) + (if lines[|lines| - 1].key == k then lines[|lines| - 1].qty else 0)
  }

  function Keys(lines: seq<Line>): set<Key> {
    set i | 0 <= i < |lines| :: lines[i].key
  }

  predicate Positive(lines: seq<Line>) {
    forall i :: 0 <= i < |lines| ==> lines[i].qty > 0
  }

  /** Strictly increasing keys: one line per key, in lock order. */
  predicate Sorted(lines: seq<Line>) {
    forall i, j :: 0 <= i < j < |lines| ==> KeyLess(lines[i].key, lines[j].key)
  }

  /** Two lists ask for the same quantities of the same keys. */
  ghost predicate SameDemand(a: seq<Line>, b: seq<Line>) {
    Keys(a) == Keys(b) && forall k :: k in Keys(a) ==> Total(a, k) == Total(b, k)
  }

  lemma {:induction false} TotalConcat(xs: seq<Line>, ys: seq<Line>, k: Key)
    ensures Total(xs + ys, k) == Total(xs, k) + Total(ys, k)
  {
    if ys == [] {
      assert xs + ys == xs;
    } else {
      var n := |ys| - 1;
      TotalConcat(xs, ys[..n], k);
      assert (xs + ys)[..|xs| + n] == xs + ys[..n];
    }
  }

  lemma TotalOfOne(line: Line, k: Key)
    ensures Total([line], k) == if line.key == k then line.qty else 0
  {
    assert [line][..0] == [];
  }

  /** In a sorted list each key is asked once, so its total is that line's quantity. */
  lemma {:induction false} TotalOfSorted(lines: seq<Line>, i: nat)
    requires Sorted(lines) && i < |lines|
    ensures Total(lines, lines[i].key) == lines[i].qty
  {
    hide KeyLess;
    var front := lines[..|lines| - 1];
    KeyIrreflexive(lines[i].key);
    if i == |lines| - 1 {
      assert lines[i].key !in Keys(front);
      TotalElsewhere(front, lines[i].key);
    } else {
      assert lines[i].key != lines[|lines| - 1].key;
      TotalOfSorted(front, i);
    }
  }

  lemma {:induction false} TotalElsewhere(lines: seq<Line>, k: Key)
    requires k !in Keys(lines)
    ensures Total(lines, k) == 0
  {
    if lines != [] {
      assert lines[|lines| - 1].key in Keys(lines);
      assert forall x :: x in Keys(lines[..|lines| - 1]) ==> x in Keys(lines);
      TotalElsewhere(lines[..|lines| - 1], k);
    }
  }

  lemma {:induction false} TotalIsPositive(lines: seq<Line>, k: Key)
    requires Positive(lines)
    ensures Total(lines, k) >= 0
    ensures k in Keys(lines) <==> Total(lines, k) > 0
  {
    if lines == [] {
    } else {
      var front := lines[..|lines| - 1];
      TotalIsPositive(front, k);
      assert Keys(lines) == Keys(front) + {lines[|lines| - 1].key};
    }
  }

  /** The canonical form is determined by the demand alone. */
  lemma {:induction false} SortedDemandIsUnique(a: seq<Line>, b: seq<Line>)
    requires Sorted(a) && Sorted(b) && SameDemand(a, b)
    ensures a == b
    decreases |a|
  {
    hide KeyLess;
    KeysOfCons(a);
    KeysOfCons(b);
    if a != [] {
      assert a[0].key in Keys(b);
      var j :| 0 <= j < |b| && b[j].key == a[0].key;
      assert b[0].key in Keys(a);
      var i :| 0 <= i < |a| && a[i].key == b[0].key;
      KeyIrreflexive(a[0].key);
      if i > 0 && j > 0 {
        KeyTransitive(a[0].key, b[0].key, a[0].key);
      }
      TotalOfSorted(a, 0);
      TotalOfSorted(b, 0);
      assert a[0] == b[0];
      TailDemand(a, b);
      SortedDemandIsUnique(a[1..], b[1..]);
      assert a == [a[0]] + a[1..] && b == [b[0]] + b[1..];
    }
  }

  lemma TailDemand(a: seq<Line>, b: seq<Line>)
    requires Sorted(a) && Sorted(b) && SameDemand(a, b)
    requires a != [] && b != [] && a[0] == b[0]
    ensures SameDemand(a[1..], b[1..])
  {
    hide KeyLess;
    TailKeys(a);
    TailKeys(b);
    forall k | k in Keys(a[1..])
      ensures Total(a[1..], k) == Total(b[1..], k)
    {
      var i :| 0 <= i < |a[1..]| && a[1..][i].key == k;
      var j :| 0 <= j < |b[1..]| && b[1..][j].key == k;
      TotalOfSorted(a[1..], i);
      TotalOfSorted(b[1..], j);
      TotalOfSorted(a, i + 1);
      TotalOfSorted(b, j + 1);
    }
  }

  lemma TailKeys(a: seq<Line>)
    requires Sorted(a) && a != []
    ensures Keys(a[1..]) == Keys(a) - {a[0].key}
  {
    hide KeyLess;
    KeyIrreflexive(a[0].key);
    forall k | k in Keys(a) - {a[0].key}
      ensures k in Keys(a[1..])
    {
      var i :| 0 <= i < |a| && a[i].key == k;
      assert a[1..][i - 1].key == k;
    }
    forall k | k in Keys(a[1..])
      ensures k in Keys(a) - {a[0].key}
    {
      var i :| 0 <= i < |a[1..]| && a[1..][i].key == k;
      assert a[i + 1].key == k;
    }
  }

  // ---- canonical form

  /** Adds one line to a canonical list. */
  function Insert(out: seq<Line>, line: Line): seq<Line> {
    if out == [] then [line]
    else if out[0].key == line.key then [Line(line.key, out[0].qty + line.qty)] + out[1..]
    else if KeyLess(line.key, out[0].key) then [line] + out
    else [out[0]] + Insert(out[1..], line)
  }

  function Canonical(lines: seq<Line>): seq<Line> {
    if lines == [] then [] else Insert(Canonical(lines[..|lines| - 1]), lines[|lines| - 1])
  }

  lemma {:induction false} InsertKeys(out: seq<Line>, line: Line)
    ensures Keys(Insert(out, line)) == Keys(out) + {line.key}
  {
    if out == [] || out[0].key == line.key || KeyLess(line.key, out[0].key) {
      KeysOfCons(out);
      KeysOfCons(Insert(out, line));
      if out != [] && out[0].key != line.key {
        assert Insert(out, line)[1..] == out;
      } else {
        assert out != [] ==> Insert(out, line)[1..] == out[1..];
      }
    } else {
      KeysOfCons(out);
      KeysOfCons(Insert(out, line));
      assert Insert(out, line)[1..] == Insert(out[1..], line);
      InsertKeys(out[1..], line);
    }
  }

  lemma KeysOfCons(s: seq<Line>)
    ensures s != [] ==> Keys(s) == {s[0].key} + Keys(s[1..])
    ensures s == [] ==> Keys(s) == {}
  {
    if s != [] {
      forall k | k in Keys(s)
        ensures k in {s[0].key} + Keys(s[1..])
      {
        var i :| 0 <= i < |s| && s[i].key == k;
        assert i > 0 ==> s[1..][i - 1].key == k;
      }
    }
  }

  lemma KeysAppend(s: seq<Line>, line: Line)
    ensures Keys(s + [line]) == Keys(s) + {line.key}
  {
    var t := s + [line];
    forall k | k in Keys(s) + {line.key}
      ensures k in Keys(t)
    {
      if k == line.key {
        assert t[|s|].key == k;
      } else {
        var i :| 0 <= i < |s| && s[i].key == k;
        assert t[i].key == k;
      }
    }
  }

  lemma {:induction false} InsertSorted(out: seq<Line>, line: Line)
    requires Sorted(out)
    ensures Sorted(Insert(out, line))
  {
    hide KeyLess;
    if out == [] || out[0].key == line.key {
    } else if KeyLess(line.key, out[0].key) {
      forall j | 0 <= j < |out|
        ensures KeyLess(line.key, out[j].key)
      {
        if j > 0 {
          KeyTransitive(line.key, out[0].key, out[j].key);
        }
      }
    } else {
      KeyConnected(line.key, out[0].key);
      var rest := Insert(out[1..], line);
      InsertSorted(out[1..], line);
      InsertKeys(out[1..], line);
      forall j | 0 <= j < |rest|
        ensures KeyLess(out[0].key, rest[j].key)
      {
        assert rest[j].key in Keys(rest);
        if rest[j].key != line.key {
          var i :| 0 <= i < |out[1..]| && out[1..][i].key == rest[j].key;
        }
      }
    }
  }

  lemma {:induction false} TotalCons(s: seq<Line>, k: Key)
    requires s != []
    ensures Total(s, k) == (if s[0].key == k then s[0].qty else 0) + Total(s[1..], k)
  {
    if |s| > 1 {
      var front := s[..|s| - 1];
      TotalCons(front, k);
      assert front[1..] == s[1..][..|s[1..]| - 1];
    }
  }

  lemma {:induction false} InsertTotal(out: seq<Line>, line: Line, k: Key)
    ensures Total(Insert(out, line), k) == Total(out, k) + (if line.key == k then line.qty else 0)
  {
    var s := Insert(out, line);
    TotalCons(s, k);
    if out != [] {
      TotalCons(out, k);
      if out[0].key == line.key {
        assert s[1..] == out[1..];
      } else if KeyLess(line.key, out[0].key) {
        assert s[1..] == out;
      } else {
        assert s[1..] == Insert(out[1..], line);
        InsertTotal(out[1..], line, k);
      }
    }
  }

  /** The canonical list is strictly sorted and asks for exactly what the lines ask. */
  lemma {:induction false} CanonicalIsSorted(lines: seq<Line>)
    ensures Sorted(Canonical(lines)) && Keys(Canonical(lines)) == Keys(lines)
  {
    hide KeyLess, Insert;
    if lines != [] {
      var front, last := lines[..|lines| - 1], lines[|lines| - 1];
      CanonicalIsSorted(front);
      InsertSorted(Canonical(front), last);
      InsertKeys(Canonical(front), last);
      assert Keys(lines) == Keys(front) + {last.key};
    }
  }

  lemma {:induction false} CanonicalTotal(lines: seq<Line>, k: Key)
    ensures Total(Canonical(lines), k) == Total(lines, k)
  {
    if lines != [] {
      CanonicalTotal(lines[..|lines| - 1], k);
      InsertTotal(Canonical(lines[..|lines| - 1]), lines[|lines| - 1], k);
    }
  }

  lemma CanonicalKeepsDemand(lines: seq<Line>)
    ensures SameDemand(Canonical(lines), lines)
  {
    CanonicalIsSorted(lines);
    forall k {
      CanonicalTotal(lines, k);
    }
  }

  /** Two requests have the same canonical form exactly when they ask for the same quantities,
      whatever their order and splitting. */
  lemma CanonicalIffSameDemand(a: seq<Line>, b: seq<Line>)
    ensures Canonical(a) == Canonical(b) <==> SameDemand(a, b)
  {
    CanonicalKeepsDemand(a);
    CanonicalKeepsDemand(b);
    CanonicalIsSorted(a);
    CanonicalIsSorted(b);
    if SameDemand(a, b) {
      SortedDemandIsUnique(Canonical(a), Canonical(b));
    }
  }

  /** Normalising twice changes nothing. */
  lemma CanonicalOfSorted(lines: seq<Line>)
    requires Sorted(lines)
    ensures Canonical(lines) == lines
  {
    CanonicalKeepsDemand(lines);
    CanonicalIsSorted(lines);
    SortedDemandIsUnique(Canonical(lines), lines);
  }

  lemma CanonicalIsPositive(lines: seq<Line>)
    requires Positive(lines)
    ensures Positive(Canonical(lines))
  {
    var c := Canonical(lines);
    CanonicalIsSorted(lines);
    forall i | 0 <= i < |c|
      ensures c[i].qty > 0
    {
      TotalOfSorted(c, i);
      CanonicalTotal(lines, c[i].key);
      assert c[i].key in Keys(c);
      TotalIsPositive(lines, c[i].key);
    }
  }

  /** `mergeLines`: a map of totals filled line by line, then its entries sorted. */
  method MergeLines(lines: seq<Line>) returns (out: seq<Line>)
    ensures out == Canonical(lines)
  {
    var byKey: map<Key, int> := map[];
    for n := 0 to |lines|
      invariant byKey.Keys == Keys(lines[..n])
      invariant forall k :: k in byKey ==> byKey[k] == Total(lines[..n], k)
    {
      assert lines[..n + 1][..n] == lines[..n];
      var line := lines[n];
      if line.key !in byKey {
        TotalElsewhere(lines[..n], line.key);
      }
      byKey := byKey[line.key := (if line.key in byKey then byKey[line.key] else 0) + line.qty];
      assert Keys(lines[..n + 1]) == Keys(lines[..n]) + {line.key};
    }
    assert lines[..|lines|] == lines;
    out := SortEntries(byKey);
    assert SameDemand(out, lines) by {
      forall k | k in Keys(out)
        ensures Total(out, k) == Total(lines, k)
      {
        var i :| 0 <= i < |out| && out[i].key == k;
        TotalOfSorted(out, i);
      }
    }
    CanonicalKeepsDemand(lines);
    CanonicalIsSorted(lines);
    SortedDemandIsUnique(out, Canonical(lines));
  }

  /** The entries of a map in key order. */
  method SortEntries(entries: map<Key, int>) returns (out: seq<Line>)
    ensures Sorted(out) && Keys(out) == entries.Keys
    ensures forall i :: 0 <= i < |out| ==> out[i].key in entries && out[i].qty == entries[out[i].key]
  {
    out := [];
    var rest := entries.Keys;
    while rest != {}
      invariant rest <= entries.Keys
      invariant Sorted(out) && Keys(out) == entries.Keys - rest
      invariant forall i :: 0 <= i < |out| ==> out[i].key in entries && out[i].qty == entries[out[i].key]
    {
      var k :| k in rest;
      var at := 0;
      while at < |out| && KeyLess(out[at].key, k)
        invariant 0 <= at <= |out|
        invariant forall i :: 0 <= i < at ==> KeyLess(out[i].key, k)
      {
        at := at + 1;
      }
      ghost var before := out;
      out := out[..at] + [Line(k, entries[k])] + out[at..];
      PutSorted(before, at, Line(k, entries[k]));
      rest := rest - {k};
    }
  }

  lemma PutSorted(s: seq<Line>, at: nat, line: Line)
    requires Sorted(s) && at <= |s| && line.key !in Keys(s)
    requires forall i :: 0 <= i < at ==> KeyLess(s[i].key, line.key)
    requires at < |s| ==> !KeyLess(s[at].key, line.key)
    ensures Sorted(s[..at] + [line] + s[at..]) && Keys(s[..at] + [line] + s[at..]) == Keys(s) + {line.key}
  {
    hide KeyLess;
    var out := s[..at] + [line] + s[at..];
    if at < |s| {
      assert s[at].key in Keys(s);
      KeyConnected(s[at].key, line.key);
      forall j | at <= j < |s|
        ensures KeyLess(line.key, s[j].key)
      {
        if j > at {
          KeyTransitive(line.key, s[at].key, s[j].key);
        }
      }
    }
    forall k | k in Keys(s) + {line.key}
      ensures k in Keys(out)
    {
      if k == line.key {
        assert out[at].key == k;
      } else {
        var i :| 0 <= i < |s| && s[i].key == k;
        assert out[if i < at then i else i + 1].key == k;
      }
    }
  }

  /** `sameLines`: compares the merged lists position by position; true exactly for equal demands. */
  method SameLines(a: seq<Line>, b: seq<Line>) returns (same: bool)
    ensures same <==> SameDemand(a, b)
  {
    hide *;
    var left := MergeLines(a);
    var right := MergeLines(b);
    CanonicalIffSameDemand(a, b);
    same := |left| == |right|;
    var i := 0;
    while same && i < |left|
      invariant i <= |left|
      invariant same ==> |left| == |right| && left[..i] == right[..i]
      invariant !same ==> left != right
    {
      same := left[i].key == right[i].key && left[i].qty == right[i].qty;
      i := i + 1;
    }
    assert same ==> left[..|left|] == left && right[..|left|] == right;
  }
}
