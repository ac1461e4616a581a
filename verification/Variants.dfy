/** Generating the variants of a product: the Cartesian product of its attribute axes, each choice with a
    SKU code and a canonical signature. When codes and signatures tell the variants apart is said for
    all axes. */
module Variants {
  import opened Arith
  import opened Decimals
  import opened Results
  import opened SkuCodes
  import opened Texts
  import Lex

  datatype Error = InvalidSku | InvalidCombination | LimitExceeded

  datatype Pair = Pair(attributeId: string, valueId: string)

  datatype Axis = Axis(attributeId: string, values: seq<string>)

  datatype Spec = Spec(code: string, signature: string, pairs: seq<Pair>)

  /** What codes are made of: the product's prefix, the label of each attribute value, and the library. */
  datatype Naming = Naming(prefix: string, labels: Pair -> Label, lib: Library)

  // ---- signatures

  function Insert(p: Pair, sorted: seq<Pair>): seq<Pair> {
    if sorted == [] || Lex.Less(p.attributeId, sorted[0].attributeId) then [p] + sorted
    else [sorted[0]] + Insert(p, sorted[1..])
  }

  /** Stable sort by attribute. */
  function Sort(pairs: seq<Pair>): seq<Pair> {
    if pairs == [] then [] else Insert(pairs[|pairs| - 1], Sort(pairs[..|pairs| - 1]))
  }

  function Text(p: Pair): string { p.attributeId + ":" + p.valueId }

  function Join(pairs: seq<Pair>): string {
    if pairs == [] then "" else Text(pairs[0]) + if |pairs| == 1 then "" else "|" + Join(pairs[1..])
  }

  predicate DistinctAttributes(pairs: seq<Pair>) {
    forall i, j :: 0 <= i < j < |pairs| ==> pairs[i].attributeId != pairs[j].attributeId
  }

  predicate Filled(p: Pair) { p.attributeId != "" && p.valueId != "" }

  predicate AllFilled(pairs: seq<Pair>) { forall i :: 0 <= i < |pairs| ==> Filled(pairs[i]) }

  function Signature(pairs: seq<Pair>): Result<string, Error> {
    if pairs == [] then Ok("DEFAULT")
    else if !AllFilled(pairs) || !DistinctAttributes(pairs) then Err(InvalidCombination)
    else Ok(Join(Sort(pairs)))
  }

  /** `buildCombinationSignature` */
  method BuildSignature(pairs: seq<Pair>) returns (r: Result<string, Error>)
    ensures r == Signature(pairs)
  {
    if |pairs| == 0 {
      return Ok("DEFAULT");
    }
    var seen: set<string> := {};
    for i := 0 to |pairs|
      invariant AllFilled(pairs[..i]) && DistinctAttributes(pairs[..i])
      invariant forall a :: a in seen <==> exists j :: 0 <= j < i && pairs[j].attributeId == a
    {
      if !Filled(pairs[i]) {
        return Err(InvalidCombination);
      }
      if pairs[i].attributeId in seen {
        return Err(InvalidCombination);
      }
      seen := seen + {pairs[i].attributeId};
    }
    assert pairs[..|pairs|] == pairs;
    r := Ok(Join(Sort(pairs)));
  }

  predicate Ascending(xs: seq<Pair>) {
    forall i, j :: 0 <= i < j < |xs| ==> Lex.Less(xs[i].attributeId, xs[j].attributeId)
  }

  lemma {:induction false} InsertSorts(p: Pair, xs: seq<Pair>)
    requires Ascending(xs) && forall x :: x in xs ==> x.attributeId != p.attributeId
    ensures Ascending(Insert(p, xs)) && |Insert(p, xs)| == |xs| + 1
    ensures forall x :: x in Insert(p, xs) <==> x == p || x in xs
  {
    hide Lex.Less;
    if xs != [] {
      var x, rest := xs[0], xs[1..];
      assert xs == [x] + rest;
      if Lex.Less(p.attributeId, x.attributeId) {
        forall i | 0 <= i < |xs|
          ensures Lex.Less(p.attributeId, xs[i].attributeId)
        {
          if i > 0 {
            Lex.Transitive(p.attributeId, x.attributeId, xs[i].attributeId);
          }
        }
      } else {
        InsertSorts(p, rest);
        Lex.Connected(p.attributeId, x.attributeId);
        var tail := Insert(p, rest);
        forall i | 0 <= i < |tail|
          ensures Lex.Less(x.attributeId, tail[i].attributeId)
        {
          assert tail[i] in tail;
          if tail[i] != p {
            var j :| 0 <= j < |rest| && rest[j] == tail[i];
            assert xs[j + 1] == tail[i];
          }
        }
      }
    }
  }

  /** Sorting keeps the pairs and puts them in ascending order. */
  lemma {:induction false} SortSorts(pairs: seq<Pair>)
    requires DistinctAttributes(pairs)
    ensures Ascending(Sort(pairs)) && |Sort(pairs)| == |pairs|
    ensures forall x :: x in Sort(pairs) <==> x in pairs
  {
    if pairs != [] {
      var n := |pairs| - 1;
      SortSorts(pairs[..n]);
      assert pairs == pairs[..n] + [pairs[n]];
      InsertSorts(pairs[n], Sort(pairs[..n]));
    }
  }

  /** An ascending list is determined by its elements. */
  lemma {:induction false} AscendingIsCanonical(xs: seq<Pair>, ys: seq<Pair>)
    requires Ascending(xs) && Ascending(ys) && forall p :: p in xs <==> p in ys
    ensures xs == ys
  {
    hide Lex.Less;
    assert xs != [] ==> xs[0] in ys;
    assert ys != [] ==> ys[0] in xs;
    if xs != [] {
      FirstIsLeast(xs, ys[0]);
      FirstIsLeast(ys, xs[0]);
      if xs[0] != ys[0] {
        Lex.Irreflexive(xs[0].attributeId);
        Lex.Transitive(xs[0].attributeId, ys[0].attributeId, xs[0].attributeId);
      }
      TailElements(xs);
      TailElements(ys);
      AscendingIsCanonical(xs[1..], ys[1..]);
      assert xs == [xs[0]] + xs[1..] && ys == [ys[0]] + ys[1..];
    }
  }

  lemma FirstIsLeast(xs: seq<Pair>, p: Pair)
    requires Ascending(xs) && p in xs
    ensures p == xs[0] || Lex.Less(xs[0].attributeId, p.attributeId)
  {
  }

  lemma TailElements(xs: seq<Pair>)
    requires Ascending(xs) && xs != []
    ensures forall p :: p in xs[1..] <==> p in xs && p != xs[0]
  {
    Lex.Irreflexive(xs[0].attributeId);
    hide Lex.Less;
    assert xs == [xs[0]] + xs[1..];
    forall i | 0 <= i < |xs[1..]|
      ensures xs[1..][i] != xs[0]
    {
      assert Lex.Less(xs[0].attributeId, xs[i + 1].attributeId);
    }
  }

  // ---- the product

  /** Each choice so far with each value of the axis. */
  function Extend(acc: seq<seq<Pair>>, axis: Axis): seq<seq<Pair>> {
    var n := |axis.values|;
    seq(|acc| * n, k requires 0 <= k < |acc| * n =>
      Split(k, |acc|, n); acc[Quotient(k, n)] + [Pair(axis.attributeId, axis.values[Remainder(k, n)])])
  }

  lemma Split(k: nat, m: nat, n: nat)
    requires k < m * n
    ensures n > 0 && Quotient(k, n) < m && k == n * Quotient(k, n) + Remainder(k, n)
  {
    assert n == 0 ==> m * n == 0;
    DivUpper(k, n, m - 1);
  }

  lemma Merge(i: nat, j: nat, m: nat, n: nat)
    requires i < m && j < n
    ensures 0 <= i * n + j < m * n && Quotient(i * n + j, n) == i && Remainder(i * n + j, n) == j
  {
    MulMono(n, i + 1, m);
    assert i * n == n * i && m * n == n * m && n * (i + 1) == n * i + n;
    DivIs(i * n + j, n, i);
  }

  function Product(axes: seq<Axis>): seq<seq<Pair>> {
    if axes == [] then [[]] else Extend(Product(axes[..|axes| - 1]), axes[|axes| - 1])
  }

  function Size(axes: seq<Axis>): nat {
    if axes == [] then 1 else Size(axes[..|axes| - 1]) * |axes[|axes| - 1].values|
  }

  /** A choice: one value of each axis, in axis order. */
  predicate Picks(pairs: seq<Pair>, axes: seq<Axis>) {
    && |pairs| == |axes|
    && forall i :: 0 <= i < |axes| ==> pairs[i].attributeId == axes[i].attributeId && pairs[i].valueId in axes[i].values
  }

  predicate DistinctValues(axis: Axis) {
    forall i, j :: 0 <= i < j < |axis.values| ==> axis.values[i] != axis.values[j]
  }

  /** The list holds exactly the choices. */
  ghost predicate Covers(all: seq<seq<Pair>>, axes: seq<Axis>) { forall pairs :: pairs in all <==> Picks(pairs, axes) }

  /** The product holds exactly the choices, each once. */
  lemma {:induction false} ProductIsAllChoices(axes: seq<Axis>)
    requires forall i :: 0 <= i < |axes| ==> DistinctValues(axes[i])
    ensures |Product(axes)| == Size(axes)
    ensures Covers(Product(axes), axes)
    ensures forall k, l :: 0 <= k < l < |Product(axes)| ==> Product(axes)[k] != Product(axes)[l]
  {
    if axes != [] {
      var n := |axes| - 1;
      ProductIsAllChoices(axes[..n]);
      var acc, axis := Product(axes[..n]), axes[n];
      forall pairs
        ensures pairs in Extend(acc, axis) <==> Picks(pairs, axes)
      {
        if pairs in Extend(acc, axis) {
          ExtendedPicks(acc, axes, pairs);
        }
        if Picks(pairs, axes) {
          PickIsExtended(acc, axes, pairs);
        }
      }
      ExtendIsDistinct(acc, axis);
    } else {
      forall pairs
        ensures pairs in Product(axes) <==> Picks(pairs, axes)
      {
        assert Picks(pairs, axes) <==> pairs == [];
      }
    }
  }

  lemma ExtendedPicks(acc: seq<seq<Pair>>, axes: seq<Axis>, pairs: seq<Pair>)
    requires axes != [] && forall p :: p in acc ==> Picks(p, axes[..|axes| - 1])
    requires pairs in Extend(acc, axes[|axes| - 1])
    ensures Picks(pairs, axes)
  {
    hide Quotient, Remainder;
    var axis := axes[|axes| - 1];
    var k :| 0 <= k < |Extend(acc, axis)| && Extend(acc, axis)[k] == pairs;
    Split(k, |acc|, |axis.values|);
    var head := acc[Quotient(k, |axis.values|)];
    assert head in acc;
    assert pairs == head + [Pair(axis.attributeId, axis.values[Remainder(k, |axis.values|)])];
  }

  lemma PickIsExtended(acc: seq<seq<Pair>>, axes: seq<Axis>, pairs: seq<Pair>)
    requires axes != [] && forall p :: Picks(p, axes[..|axes| - 1]) ==> p in acc
    requires Picks(pairs, axes)
    ensures pairs in Extend(acc, axes[|axes| - 1])
  {
    var n := |axes| - 1;
    var axis := axes[n];
    assert Picks(pairs[..n], axes[..n]);
    assert pairs[..n] in acc;
    var i :| 0 <= i < |acc| && acc[i] == pairs[..n];
    var j :| 0 <= j < |axis.values| && axis.values[j] == pairs[n].valueId;
    Merge(i, j, |acc|, |axis.values|);
    assert pairs == pairs[..n] + [Pair(axis.attributeId, axis.values[j])];
    assert Extend(acc, axis)[i * |axis.values| + j] == pairs;
  }

  lemma ExtendIsDistinct(acc: seq<seq<Pair>>, axis: Axis)
    requires DistinctValues(axis) && forall k, l :: 0 <= k < l < |acc| ==> acc[k] != acc[l]
    ensures var all := Extend(acc, axis); forall k, l :: 0 <= k < l < |all| ==> all[k] != all[l]
  {
    hide Quotient, Remainder;
    var all, n := Extend(acc, axis), |axis.values|;
    forall k, l | 0 <= k < l < |all|
      ensures all[k] != all[l]
    {
      Split(k, |acc|, n);
      Split(l, |acc|, n);
      Parts(acc[Quotient(k, n)], Pair(axis.attributeId, axis.values[Remainder(k, n)]),
            acc[Quotient(l, n)], Pair(axis.attributeId, axis.values[Remainder(l, n)]));
    }
  }

  lemma Parts(a: seq<Pair>, p: Pair, b: seq<Pair>, q: Pair)
    ensures a + [p] == b + [q] <==> a == b && p == q
  {
    if a + [p] == b + [q] {
      assert a == (a + [p])[..|a|] && b == (b + [q])[..|b|];
      assert p == (a + [p])[|a|] && q == (b + [q])[|b|];
    }
  }

  // ---- validation

  function Checked(axes: seq<Axis>, seen: set<string>, total: nat, limit: int): Option<Error>
    decreases axes
  {
    if axes == [] then None
    else
      var axis := axes[0];
      if axis.attributeId in seen || axis.values == [] || !DistinctValues(axis) then Some(InvalidCombination)
      else if total * |axis.values| > limit then Some(LimitExceeded)
      else Checked(axes[1..], seen + {axis.attributeId}, total * |axis.values|, limit)
  }

  /** Axes that make sense: different attributes, each with at least one value and none twice. */
  predicate Sound(axes: seq<Axis>) {
    && (forall i, j :: 0 <= i < j < |axes| ==> axes[i].attributeId != axes[j].attributeId)
    && (forall i :: 0 <= i < |axes| ==> axes[i].values != [] && DistinctValues(axes[i]))
  }

  predicate Fresh(axes: seq<Axis>, seen: set<string>) {
    forall i :: 0 <= i < |axes| ==> axes[i].attributeId !in seen
  }

  lemma {:induction false} SizeFromFront(axes: seq<Axis>)
    requires axes != []
    ensures Size(axes) == |axes[0].values| * Size(axes[1..])
  {
    var n := |axes| - 1;
    if n == 0 {
      assert axes[..0] == [] && axes[1..] == [];
    } else {
      SizeFromFront(axes[..n]);
      assert axes[..n][1..] == axes[1..][..n - 1];
      var a, b, c := |axes[0].values|, Size(axes[1..][..n - 1]), |axes[n].values|;
      assert (a * b) * c == a * (b * c);
    }
  }

  lemma {:induction false} SizeIsPositive(axes: seq<Axis>)
    requires forall i :: 0 <= i < |axes| ==> axes[i].values != []
    ensures Size(axes) > 0
  {
    if axes != [] {
      SizeIsPositive(axes[..|axes| - 1]);
    }
  }

  /** Validation accepts exactly the sound axes whose product is within the limit. */
  lemma {:induction false} CheckedIff(axes: seq<Axis>, seen: set<string>, total: nat, limit: int)
    requires total > 0
    ensures Checked(axes, seen, total, limit).None?
            <==> Sound(axes) && Fresh(axes, seen) && (axes == [] || total * Size(axes) <= limit)
    decreases axes
  {
    hide Sound, Fresh, Size, DistinctValues;
    if axes == [] {
      NoAxes(seen);
    } else {
      var axis, rest := axes[0], axes[1..];
      var seen', total' := seen + {axis.attributeId}, total * |axis.values|;
      var here := axis.attributeId !in seen && axis.values != [] && DistinctValues(axis);
      SoundFromFront(axes, seen);
      if here {
        SizeFromFront(axes);
        CheckedIff(rest, seen', total', limit);
        if Sound(rest) {
        }
        NoAxes(seen);
      }
    }
  }

  lemma NoAxes(seen: set<string>)
    ensures Sound([]) && Fresh([], seen) && Size([]) == 1
  {
  }

  lemma SoundFromFront(axes: seq<Axis>, seen: set<string>)
    requires axes != []
    ensures var axis, rest := axes[0], axes[1..];
            Sound(axes) && Fresh(axes, seen)
            <==> && axis.attributeId !in seen && axis.values != [] && DistinctValues(axis)
                 && Sound(rest) && Fresh(rest, seen + {axis.attributeId})
  {
    var axis, rest := axes[0], axes[1..];
    assert forall i :: 0 <= i < |rest| ==> rest[i] == axes[i + 1];
    assert forall i :: 0 < i < |axes| ==> axes[i] == rest[i - 1];
  }

  // ---- the whole generation

  function TokensOf(n: Naming, pairs: seq<Pair>): seq<string> {
    seq(|pairs|, i requires 0 <= i < |pairs| => Token(n.labels(pairs[i]), n.lib))
  }

  /** One variant; `prefix` is the normalised one. */
  function Specified(n: Naming, prefix: string, pairs: seq<Pair>): Result<Spec, Error> {
    match Code(prefix, TokensOf(n, pairs), n.lib)
    case None => Err(InvalidSku)
    case Some(code) =>
      match Signature(pairs)
      case Err(e) => Err(e)
      case Ok(s) => Ok(Spec(code, s, pairs))
  }

  function SpecifiedAll(n: Naming, prefix: string, all: seq<seq<Pair>>): Result<seq<Spec>, Error> {
    if all == [] then Ok([])
    else
      var k := |all| - 1;
      var before, last := SpecifiedAll(n, prefix, all[..k]), Specified(n, prefix, all[k]);
      if before.Err? then before else if last.Err? then Err(last.error) else Ok(before.value + [last.value])
  }

  function Generated(n: Naming, axes: seq<Axis>, limit: int): Result<seq<Spec>, Error> {
    var prefix := NormalizeSku(n.prefix, n.lib);
    if prefix.None? then Err(InvalidSku)
    else if axes == [] then Err(InvalidCombination)
    else
      match Checked(axes, {}, 1, limit)
      case Some(e) => Err(e)
      case None => SpecifiedAll(n, prefix.value, Product(axes))
  }

  /** `generateCartesianVariantSpecs` */
  method Generate(n: Naming, axes: seq<Axis>, limit: int) returns (r: Result<seq<Spec>, Error>)
    ensures r == Generated(n, axes, limit)
  {
    hide NormalizeSku, Checked, Product, SpecifiedAll;
    var prefix := NormalizeSku(n.prefix, n.lib);
    if prefix.None? {
      return Err(InvalidSku);
    }
    if |axes| == 0 {
      return Err(InvalidCombination);
    }
    var error := Validate(axes, limit);
    if error.Some? {
      return Err(error.value);
    }
    var all := Combine(axes);
    r := SpecifyAll(n, prefix.value, all);
  }

  method Specify(n: Naming, prefix: string, pairs: seq<Pair>) returns (r: Result<Spec, Error>)
    ensures r == Specified(n, prefix, pairs)
  {
    hide Code, TokensOf, Signature;
    var code := Code(prefix, TokensOf(n, pairs), n.lib);
    if code.None? {
      return Err(InvalidSku);
    }
    var s := BuildSignature(pairs);
    r := if s.Err? then Err(s.error) else Ok(Spec(code.value, s.value, pairs));
  }

  /** The last loop: one variant after the other, until one fails. */
  method SpecifyAll(n: Naming, prefix: string, all: seq<seq<Pair>>) returns (r: Result<seq<Spec>, Error>)
    ensures r == SpecifiedAll(n, prefix, all)
  {
    hide Specified;
    var specs: seq<Spec> := [];
    for k := 0 to |all|
      invariant SpecifiedAll(n, prefix, all[..k]) == Ok(specs)
    {
      assert all[..k + 1][..k] == all[..k];
      var spec := Specify(n, prefix, all[k]);
      if spec.Err? {
        FirstFailureStays(n, prefix, all, k);
        return Err(spec.error);
      }
      specs := specs + [spec.value];
    }
    assert all[..|all|] == all;
    r := Ok(specs);
  }

  lemma {:induction false} FirstFailureStays(n: Naming, prefix: string, all: seq<seq<Pair>>, k: nat)
    requires k < |all| && SpecifiedAll(n, prefix, all[..k]).Ok? && Specified(n, prefix, all[k]).Err?
    ensures SpecifiedAll(n, prefix, all) == Err(Specified(n, prefix, all[k]).error)
  {
    hide Specified;
    if k == |all| - 1 {
      assert all[..k + 1] == all;
    } else {
      assert all[..|all| - 1][..k] == all[..k];
      FirstFailureStays(n, prefix, all[..|all| - 1], k);
    }
  }

  method Validate(axes: seq<Axis>, limit: int) returns (error: Option<Error>)
    ensures error == Checked(axes, {}, 1, limit)
  {
    var seen: set<string> := {};
    var total := 1;
    assert axes[0..] == axes;
    for i := 0 to |axes|
      invariant total >= 0
      invariant Checked(axes, {}, 1, limit) == Checked(axes[i..], seen, total, limit)
    {
      var axis := axes[i];
      assert axes[i..][0] == axis && axes[i..][1..] == axes[i + 1..];
      if axis.attributeId in seen || |axis.values| == 0 {
        return Some(InvalidCombination);
      }
      var distinct := AreDistinct(axis);
      if !distinct {
        return Some(InvalidCombination);
      }
      seen := seen + {axis.attributeId};
      total := total * |axis.values|;
      if total > limit {
        return Some(LimitExceeded);
      }
    }
    error := None;
  }

  method AreDistinct(axis: Axis) returns (distinct: bool)
    ensures distinct == DistinctValues(axis)
  {
    var seen: set<string> := {};
    for i := 0 to |axis.values|
      invariant forall v :: v in seen <==> v in axis.values[..i]
      invariant forall a, b :: 0 <= a < b < i ==> axis.values[a] != axis.values[b]
    {
      if axis.values[i] in seen {
        var a :| 0 <= a < i && axis.values[..i][a] == axis.values[i];
        assert axis.values[a] == axis.values[i];
        return false;
      }
      assert forall a :: 0 <= a < i ==> axis.values[..i][a] == axis.values[a];
      seen := seen + {axis.values[i]};
    }
    distinct := true;
  }

  /** The nested loops. */
  method Combine(axes: seq<Axis>) returns (acc: seq<seq<Pair>>)
    ensures acc == Product(axes)
  {
    acc := [[]];
    for a := 0 to |axes|
      invariant acc == Product(axes[..a])
    {
      assert axes[..a + 1][..a] == axes[..a];
      acc := ExtendBy(acc, axes[a]);
    }
    assert axes[..|axes|] == axes;
  }

  method ExtendBy(acc: seq<seq<Pair>>, axis: Axis) returns (next: seq<seq<Pair>>)
    ensures next == Extend(acc, axis)
  {
    var n := |axis.values|;
    next := [];
    for i := 0 to |acc|
      invariant |next| == i * n && |next| <= |acc| * n && next == Extend(acc, axis)[..|next|]
    {
      assert (i + 1) * n <= |acc| * n;
      for j := 0 to n
        invariant |next| == i * n + j && |next| <= |acc| * n && next == Extend(acc, axis)[..|next|]
      {
        Merge(i, j, |acc|, n);
        next := next + [acc[i] + [Pair(axis.attributeId, axis.values[j])]];
      }
    }
  }

  // ---- success

  predicate AxesFilled(axes: seq<Axis>) {
    forall i :: 0 <= i < |axes| ==> axes[i].attributeId != "" && "" !in axes[i].values
  }

  lemma {:induction false} AllSpecified(n: Naming, prefix: string, all: seq<seq<Pair>>)
    ensures SpecifiedAll(n, prefix, all).Ok? <==> forall k :: 0 <= k < |all| ==> Specified(n, prefix, all[k]).Ok?
    ensures SpecifiedAll(n, prefix, all).Ok? ==>
              && |SpecifiedAll(n, prefix, all).value| == |all|
              && forall k :: 0 <= k < |all| ==> Specified(n, prefix, all[k]) == Ok(SpecifiedAll(n, prefix, all).value[k])
  {
    hide Specified;
    if all != [] {
      var m := |all| - 1;
      AllSpecified(n, prefix, all[..m]);
      assert forall k :: 0 <= k < m ==> all[..m][k] == all[k];
    }
  }

  /** A choice of sound axes can be signed exactly when its ids are there. */
  lemma ChoiceIsSigned(axes: seq<Axis>, pairs: seq<Pair>)
    requires Sound(axes) && axes != [] && Picks(pairs, axes)
    ensures DistinctAttributes(pairs)
    ensures Signature(pairs).Ok? <==> AllFilled(pairs)
    ensures Signature(pairs).Ok? ==> Signature(pairs).value == Join(Sort(pairs))
  {
    hide Sort, Join;
  }

  /** The choice that takes a given value of one axis, and the first of every other. */
  function PickWith(axes: seq<Axis>, i: nat, v: string): seq<Pair>
    requires (forall j :: 0 <= j < |axes| ==> axes[j].values != []) && i < |axes|
  {
    seq(|axes|, j requires 0 <= j < |axes| => Pair(axes[j].attributeId, if j == i then v else axes[j].values[0]))
  }

  lemma PickWithPicks(axes: seq<Axis>, i: nat, v: string)
    requires (forall j :: 0 <= j < |axes| ==> axes[j].values != []) && i < |axes| && v in axes[i].values
    ensures Picks(PickWith(axes, i, v), axes) && PickWith(axes, i, v)[i] == Pair(axes[i].attributeId, v)
  {
  }

  lemma AllSignedIff(axes: seq<Axis>)
    requires Sound(axes) && axes != []
    ensures (forall pairs :: Picks(pairs, axes) ==> Signature(pairs).Ok?) <==> AxesFilled(axes)
  {
    hide Signature;
    if AxesFilled(axes) {
      forall pairs | Picks(pairs, axes)
        ensures Signature(pairs).Ok?
      {
        ChoiceIsSigned(axes, pairs);
      }
    } else {
      var i :| 0 <= i < |axes| && (axes[i].attributeId == "" || "" in axes[i].values);
      var v := if "" in axes[i].values then "" else axes[i].values[0];
      PickWithPicks(axes, i, v);
      ChoiceIsSigned(axes, PickWith(axes, i, v));
      assert !Filled(PickWith(axes, i, v)[i]);
    }
  }

  /** Axes on which generation succeeds, as far as they are concerned. */
  predicate Fine(axes: seq<Axis>, limit: int) { axes != [] && Sound(axes) && AxesFilled(axes) && Size(axes) <= limit }

  /** Every choice gets a SKU code. */
  ghost predicate AllCoded(n: Naming, prefix: string, axes: seq<Axis>) {
    forall pairs :: Picks(pairs, axes) ==> Code(prefix, TokensOf(n, pairs), n.lib).Some?
  }

  /** A proper prefix, axes that are fine, and a code for every choice. */
  ghost predicate Succeeds(n: Naming, axes: seq<Axis>, limit: int) {
    var prefix := NormalizeSku(n.prefix, n.lib);
    prefix.Some? && Fine(axes, limit) && AllCoded(n, prefix.value, axes)
  }

  /** Generation succeeds exactly with a proper prefix, on sound axes with all ids present and a product
      within the limit, when every choice gets a code. */
  lemma GeneratedIff(n: Naming, axes: seq<Axis>, limit: int)
    ensures Generated(n, axes, limit).Ok? <==> Succeeds(n, axes, limit)
  {
    hide Checked, SpecifiedAll, Product, Sound, AxesFilled, Size, NormalizeSku, Code, TokensOf, Signature, Picks;
    CheckedIff(axes, {}, 1, limit);
    var prefix := NormalizeSku(n.prefix, n.lib);
    if prefix.Some? && axes != [] && Sound(axes) {
      SoundValues(axes);
      AllSignedIff(axes);
      ProductIsAllChoices(axes);
      AllSpecified(n, prefix.value, Product(axes));
      AllSpecifiedIff(n, prefix.value, axes);
    }
  }

  lemma SoundValues(axes: seq<Axis>)
    requires Sound(axes)
    ensures forall i :: 0 <= i < |axes| ==> DistinctValues(axes[i])
  {
  }

  lemma AllSpecifiedIff(n: Naming, prefix: string, axes: seq<Axis>)
    requires Covers(Product(axes), axes)
    ensures (forall k :: 0 <= k < |Product(axes)| ==> Specified(n, prefix, Product(axes)[k]).Ok?)
            <==> AllCoded(n, prefix, axes) && forall pairs :: Picks(pairs, axes) ==> Signature(pairs).Ok?
  {
    hide Product, Signature, Code, TokensOf, Picks;
    var all := Product(axes);
    if forall k :: 0 <= k < |all| ==> Specified(n, prefix, all[k]).Ok? {
      forall pairs | Picks(pairs, axes)
        ensures Specified(n, prefix, pairs).Ok?
      {
        var k :| 0 <= k < |all| && all[k] == pairs;
      }
    }
    if AllCoded(n, prefix, axes) && forall pairs :: Picks(pairs, axes) ==> Signature(pairs).Ok? {
      forall k | 0 <= k < |all|
        ensures Specified(n, prefix, all[k]).Ok?
      {
        assert all[k] in all;
      }
    }
  }

  /** What each variant says of its choice. */
  ghost predicate Describes(spec: Spec, n: Naming, prefix: string, axes: seq<Axis>) {
    && Picks(spec.pairs, axes)
    && Some(spec.code) == Code(prefix, TokensOf(n, spec.pairs), n.lib)
    && spec.signature == Join(Sort(spec.pairs))
  }

  /** The variants of the axes: each choice exactly once, and as it should be. */
  ghost predicate Lists(specs: seq<Spec>, n: Naming, prefix: string, axes: seq<Axis>) {
    && EachOnce(specs, axes)
    && (forall k :: 0 <= k < |specs| ==> Describes(specs[k], n, prefix, axes))
  }

  ghost predicate EachOnce(specs: seq<Spec>, axes: seq<Axis>) {
    && (forall pairs :: Picks(pairs, axes) <==> exists k :: 0 <= k < |specs| && specs[k].pairs == pairs)
    && (forall k, l :: 0 <= k < l < |specs| ==> specs[k].pairs != specs[l].pairs)
  }

  lemma SpecDescribes(n: Naming, prefix: string, axes: seq<Axis>, pairs: seq<Pair>)
    requires Sound(axes) && axes != [] && Picks(pairs, axes) && Specified(n, prefix, pairs).Ok?
    ensures var spec := Specified(n, prefix, pairs).value; spec.pairs == pairs && Describes(spec, n, prefix, axes)
  {
    hide Join, Sort, Code, TokensOf;
    ChoiceIsSigned(axes, pairs);
  }

  lemma SpecsListTheProduct(n: Naming, prefix: string, axes: seq<Axis>)
    requires Sound(axes) && axes != [] && SpecifiedAll(n, prefix, Product(axes)).Ok?
    ensures var specs := SpecifiedAll(n, prefix, Product(axes)).value;
            |specs| == Size(axes) && Lists(specs, n, prefix, axes)
  {
    SoundValues(axes);
    hide SpecifiedAll, Specified, Product, Picks, Describes, Sound, Size, Covers, EachOnce;
    ProductIsAllChoices(axes);
    var all, specs := Product(axes), SpecifiedAll(n, prefix, Product(axes)).value;
    AllSpecified(n, prefix, all);
    forall k | 0 <= k < |specs|
      ensures specs[k].pairs == all[k] && Describes(specs[k], n, prefix, axes)
    {
      SpecDescribes(n, prefix, axes, all[k]);
    }
    EachChoiceIsListed(specs, all, axes);
  }

  lemma EachChoiceIsListed(specs: seq<Spec>, all: seq<seq<Pair>>, axes: seq<Axis>)
    requires |specs| == |all| && forall k :: 0 <= k < |all| ==> specs[k].pairs == all[k]
    requires Covers(all, axes) && forall k, l :: 0 <= k < l < |all| ==> all[k] != all[l]
    ensures EachOnce(specs, axes)
  {
    hide Picks;
    forall pairs
      ensures Picks(pairs, axes) <==> exists k :: 0 <= k < |specs| && specs[k].pairs == pairs
    {
      if Picks(pairs, axes) {
        var k :| 0 <= k < |all| && all[k] == pairs;
        assert specs[k].pairs == pairs;
      }
    }
  }

  /** Then it returns exactly the product of the axis sizes, at most the limit, each choice once. */
  lemma GeneratedIsTheProduct(n: Naming, axes: seq<Axis>, limit: int)
    requires Generated(n, axes, limit).Ok?
    ensures NormalizeSku(n.prefix, n.lib).Some?
    ensures var specs := Generated(n, axes, limit).value;
            |specs| == Size(axes) <= limit && Lists(specs, n, NormalizeSku(n.prefix, n.lib).value, axes)
  {
    hide Checked, SpecifiedAll, Product, Sound, AxesFilled, Size, NormalizeSku, AllCoded, Lists;
    GeneratedIff(n, axes, limit);
    SpecsListTheProduct(n, NormalizeSku(n.prefix, n.lib).value, axes);
  }

  // ---- when codes tell variants apart

  function TokenAt(n: Naming, axis: Axis, v: string): string { Token(n.labels(Pair(axis.attributeId, v)), n.lib) }

  /** Tokens are made of code characters. */
  ghost predicate CodeTokens(n: Naming, axes: seq<Axis>) {
    forall i, v :: 0 <= i < |axes| && v in axes[i].values ==> AllCodeChars(TokenAt(n, axes[i], v))
  }

  /** No token goes on after another of its axis with a dash. */
  ghost predicate DashSafe(n: Naming, axes: seq<Axis>) {
    forall i, v, w :: 0 <= i < |axes| && v in axes[i].values && w in axes[i].values
                      ==> !GoesOn(TokenAt(n, axes[i], v), TokenAt(n, axes[i], w), '-')
  }

  /** Tokens derived from the values are all that. */
  lemma DerivedAreSafe(n: Naming, axes: seq<Axis>)
    requires forall i, v :: 0 <= i < |axes| && v in axes[i].values ==> n.labels(Pair(axes[i].attributeId, v)).skuToken == ""
    ensures CodeTokens(n, axes) && DashSafe(n, axes)
  {
    hide GoesOn;
    forall i, v, w | 0 <= i < |axes| && v in axes[i].values && w in axes[i].values
      ensures AllCodeChars(TokenAt(n, axes[i], v)) && !GoesOn(TokenAt(n, axes[i], v), TokenAt(n, axes[i], w), '-')
    {
      var a := axes[i].attributeId;
      DerivedTokens(n.labels(Pair(a, v)).value, n.labels(Pair(a, w)).value, n.lib);
    }
  }

  /** The tokens of a choice, one by one. */
  lemma ChosenTokens(n: Naming, axes: seq<Axis>, pairs: seq<Pair>)
    requires Picks(pairs, axes)
    ensures |TokensOf(n, pairs)| == |axes|
    ensures forall i :: 0 <= i < |axes| ==> TokensOf(n, pairs)[i] == TokenAt(n, axes[i], pairs[i].valueId)
  {
    hide Token;
    forall i | 0 <= i < |axes|
      ensures TokensOf(n, pairs)[i] == TokenAt(n, axes[i], pairs[i].valueId)
    {
      assert pairs[i] == Pair(axes[i].attributeId, pairs[i].valueId);
    }
  }

  /** Then every choice gets a code: its joined tokens, cut. */
  lemma ChoiceIsCoded(n: Naming, prefix: string, axes: seq<Axis>, pairs: seq<Pair>)
    requires Faithful(n.lib) && IsSku(prefix) && CodeTokens(n, axes) && Picks(pairs, axes)
    ensures Code(prefix, TokensOf(n, pairs), n.lib) == Some(Prefix(FullCode(prefix, TokensOf(n, pairs)), SKU_MAX))
  {
    hide Code, Faithful, TokensOf, TokenAt, AllCodeChars, IsSku;
    ChosenTokens(n, axes, pairs);
    CodeIs(prefix, TokensOf(n, pairs), n.lib);
  }

  lemma TokensGiveCodes(n: Naming, prefix: string, axes: seq<Axis>)
    requires Faithful(n.lib) && IsSku(prefix) && CodeTokens(n, axes)
    ensures AllCoded(n, prefix, axes)
  {
    hide Code, Faithful, TokensOf, CodeTokens, Picks, IsSku;
    forall pairs | Picks(pairs, axes)
      ensures Code(prefix, TokensOf(n, pairs), n.lib).Some?
    {
      ChoiceIsCoded(n, prefix, axes, pairs);
    }
  }

  // ---- where a token can start at the latest

  /** A value of the axis with a longest token. */
  function LongestOf(n: Naming, axis: Axis, k: nat): (v: string)
    requires 0 < k <= |axis.values|
    ensures v in axis.values
    ensures forall i :: 0 <= i < k ==> |TokenAt(n, axis, axis.values[i])| <= |TokenAt(n, axis, v)|
  {
    if k == 1 then axis.values[0]
    else
      var v, w := LongestOf(n, axis, k - 1), axis.values[k - 1];
      if |TokenAt(n, axis, w)| > |TokenAt(n, axis, v)| then w else v
  }

  function Longest(n: Naming, axis: Axis): nat
    requires axis.values != []
  {
    |TokenAt(n, axis, LongestOf(n, axis, |axis.values|))|
  }

  lemma LongestIsLongest(n: Naming, axis: Axis, v: string)
    requires v in axis.values
    ensures |TokenAt(n, axis, v)| <= Longest(n, axis)
  {
    hide TokenAt;
    var i :| 0 <= i < |axis.values| && axis.values[i] == v;
  }

  /** The last place at which a token of the axis can start: after the prefix and the longest token of
      every earlier axis, each with its dash. */
  function Start(n: Naming, prefix: string, axes: seq<Axis>, i: nat): nat
    requires i <= |axes| && forall j :: 0 <= j < |axes| ==> axes[j].values != []
    decreases i
  {
    if i == 0 then |prefix| + 1 else Start(n, prefix, axes, i - 1) + Longest(n, axes[i - 1]) + 1
  }

  /** A token starts there at the latest, and exactly there after longest tokens. */
  lemma {:induction false} StartsBy(n: Naming, prefix: string, axes: seq<Axis>, pairs: seq<Pair>, i: nat)
    requires (forall j :: 0 <= j < |axes| ==> axes[j].values != []) && Picks(pairs, axes) && i <= |axes|
    ensures |TokensOf(n, pairs)| == |axes|
    ensures |Before(prefix + "-", TokensOf(n, pairs), i)| <= Start(n, prefix, axes, i)
    ensures (forall j :: 0 <= j < i ==> pairs[j].valueId == LongestOf(n, axes[j], |axes[j].values|))
            ==> |Before(prefix + "-", TokensOf(n, pairs), i)| == Start(n, prefix, axes, i)
    decreases i
  {
    hide TokenAt, TokensOf, LongestOf;
    ChosenTokens(n, axes, pairs);
    if i > 0 {
      StartsBy(n, prefix, axes, pairs, i - 1);
      LongestIsLongest(n, axes[i - 1], pairs[i - 1].valueId);
    }
  }

  /** The choice with longest tokens before axis `i` and a given value there. */
  function PickLate(n: Naming, axes: seq<Axis>, i: nat, v: string): seq<Pair>
    requires (forall j :: 0 <= j < |axes| ==> axes[j].values != []) && i < |axes|
  {
    seq(|axes|, j requires 0 <= j < |axes| =>
      Pair(axes[j].attributeId,
           if j < i then LongestOf(n, axes[j], |axes[j].values|) else if j == i then v else axes[j].values[0]))
  }

  /** The codes of choices that first differ on axis `i`. */
  lemma CodesPartAt(n: Naming, prefix: string, axes: seq<Axis>, ps: seq<Pair>, qs: seq<Pair>, i: nat)
    requires Faithful(n.lib) && IsSku(prefix) && CodeTokens(n, axes) && DashSafe(n, axes)
    requires Picks(ps, axes) && Picks(qs, axes) && i < |axes| && ps[..i] == qs[..i]
    requires TokenAt(n, axes[i], ps[i].valueId) != TokenAt(n, axes[i], qs[i].valueId)
    ensures |TokensOf(n, ps)| == |axes|
    ensures Code(prefix, TokensOf(n, ps), n.lib) == Code(prefix, TokensOf(n, qs), n.lib)
            <==> |Before(prefix + "-", TokensOf(n, ps), i)|
                 + Common(TokenAt(n, axes[i], ps[i].valueId), TokenAt(n, axes[i], qs[i].valueId)) >= SKU_MAX
  {
    hide Code, Faithful, CodeTokens, TokensOf, TokenAt, FullCode, Common, Before, IsSku, GoesOn, Prefix;
    ChoiceIsCoded(n, prefix, axes, ps);
    ChoiceIsCoded(n, prefix, axes, qs);
    ChosenTokens(n, axes, ps);
    ChosenTokens(n, axes, qs);
    var xs, ys := TokensOf(n, ps), TokensOf(n, qs);
    forall j | 0 <= j < i
      ensures xs[j] == ys[j]
    {
      assert ps[..i][j] == qs[..i][j];
    }
    CutCodesEqualIff(prefix, xs, ys, i);
  }

  /** On every axis different values have different tokens, and these part within the cut wherever they
      can start. */
  ghost predicate TokensTell(n: Naming, prefix: string, axes: seq<Axis>)
    requires forall j :: 0 <= j < |axes| ==> axes[j].values != []
  {
    forall i, v, w :: 0 <= i < |axes| && v in axes[i].values && w in axes[i].values && v != w
                      ==> PartInTime(n, prefix, axes, i, v, w)
  }

  predicate PartInTime(n: Naming, prefix: string, axes: seq<Axis>, i: nat, v: string, w: string)
    requires i < |axes| && forall j :: 0 <= j < |axes| ==> axes[j].values != []
  {
    var x, y := TokenAt(n, axes[i], v), TokenAt(n, axes[i], w);
    x != y && Start(n, prefix, axes, i) + Common(x, y) < SKU_MAX
  }

  lemma FirstDifference(ps: seq<Pair>, qs: seq<Pair>) returns (i: nat)
    requires |ps| == |qs| && ps != qs
    ensures i < |ps| && ps[i] != qs[i] && ps[..i] == qs[..i]
  {
    i := 0;
    while ps[i] == qs[i]
      invariant i < |ps| && ps[..i] == qs[..i] && exists j :: i <= j < |ps| && ps[j] != qs[j]
      decreases |ps| - i
    {
      i := i + 1;
    }
  }

  /** Two values of an axis that do not part in time have two choices with one code. */
  lemma LateValuesShareACode(n: Naming, prefix: string, axes: seq<Axis>, i: nat, v: string, w: string)
    requires Faithful(n.lib) && IsSku(prefix) && CodeTokens(n, axes) && DashSafe(n, axes) && Sound(axes)
    requires i < |axes| && v in axes[i].values && w in axes[i].values && v != w && !PartInTime(n, prefix, axes, i, v, w)
    ensures !CodesDiffer(n, prefix, axes)
  {
    var ps, qs := PickLate(n, axes, i, v), PickLate(n, axes, i, w);
    LatePicks(n, axes, i, v, w);
    SoundAxes(axes);
    hide Code, Faithful, CodeTokens, DashSafe, TokensOf, TokenAt, Common, Before, IsSku, Picks, PickLate, LongestOf, Sound;
    if TokenAt(n, axes[i], v) == TokenAt(n, axes[i], w) {
      SameTokens(n, axes, ps, qs, i);
    } else {
      CodesPartAt(n, prefix, axes, ps, qs, i);
      StartsBy(n, prefix, axes, ps, i);
    }
  }

  lemma LatePicks(n: Naming, axes: seq<Axis>, i: nat, v: string, w: string)
    requires (forall j :: 0 <= j < |axes| ==> axes[j].values != []) && i < |axes|
    requires v in axes[i].values && w in axes[i].values
    ensures var ps, qs := PickLate(n, axes, i, v), PickLate(n, axes, i, w);
            && Picks(ps, axes) && Picks(qs, axes) && ps[i].valueId == v && qs[i].valueId == w && ps[..i] == qs[..i]
            && (forall j :: 0 <= j < |axes| && j != i ==> ps[j] == qs[j])
            && (forall j :: 0 <= j < i ==> ps[j].valueId == LongestOf(n, axes[j], |axes[j].values|))
  {
    hide TokenAt;
  }

  lemma SoundAxes(axes: seq<Axis>)
    requires Sound(axes)
    ensures forall j :: 0 <= j < |axes| ==> axes[j].values != []
  {
  }

  lemma SameTokens(n: Naming, axes: seq<Axis>, ps: seq<Pair>, qs: seq<Pair>, i: nat)
    requires Picks(ps, axes) && Picks(qs, axes) && i < |axes| && forall j :: 0 <= j < |axes| && j != i ==> ps[j] == qs[j]
    requires TokenAt(n, axes[i], ps[i].valueId) == TokenAt(n, axes[i], qs[i].valueId)
    ensures TokensOf(n, ps) == TokensOf(n, qs)
  {
    hide TokenAt, TokensOf;
    ChosenTokens(n, axes, ps);
    ChosenTokens(n, axes, qs);
  }

  /** The codes of all choices differ exactly when tokens tell the values apart in time. */
  lemma CodesDifferIff(n: Naming, prefix: string, axes: seq<Axis>)
    requires Faithful(n.lib) && IsSku(prefix) && CodeTokens(n, axes) && DashSafe(n, axes) && Sound(axes)
    ensures CodesDiffer(n, prefix, axes) <==> TokensTell(n, prefix, axes)
  {
    SoundAxes(axes);
    hide Code, Faithful, CodeTokens, DashSafe, TokensOf, TokenAt, Common, Before, IsSku, Sound;
    if TokensTell(n, prefix, axes) {
      forall ps: seq<Pair>, qs: seq<Pair> | Picks(ps, axes) && Picks(qs, axes) && ps != qs
        ensures Code(prefix, TokensOf(n, ps), n.lib) != Code(prefix, TokensOf(n, qs), n.lib)
      {
        var i := FirstDifference(ps, qs);
        assert PartInTime(n, prefix, axes, i, ps[i].valueId, qs[i].valueId);
        CodesPartAt(n, prefix, axes, ps, qs, i);
        StartsBy(n, prefix, axes, ps, i);
      }
    } else {
      var i, v, w :| 0 <= i < |axes| && v in axes[i].values && w in axes[i].values && v != w
                     && !PartInTime(n, prefix, axes, i, v, w);
      LateValuesShareACode(n, prefix, axes, i, v, w);
    }
  }

  /** Do all choices have different codes? */
  ghost predicate CodesDiffer(n: Naming, prefix: string, axes: seq<Axis>) {
    forall ps, qs :: Picks(ps, axes) && Picks(qs, axes) && ps != qs
                     ==> Code(prefix, TokensOf(n, ps), n.lib) != Code(prefix, TokensOf(n, qs), n.lib)
  }

  lemma ListedCodes(specs: seq<Spec>, n: Naming, prefix: string, axes: seq<Axis>)
    requires Lists(specs, n, prefix, axes)
    ensures (forall k, l :: 0 <= k < l < |specs| ==> specs[k].code != specs[l].code) <==> CodesDiffer(n, prefix, axes)
  {
    hide Picks, Code, TokensOf, Join, Sort;
    if CodesDiffer(n, prefix, axes) {
      forall k, l | 0 <= k < l < |specs|
        ensures specs[k].code != specs[l].code
      {
        assert Describes(specs[k], n, prefix, axes) && Describes(specs[l], n, prefix, axes);
      }
    } else {
      var ps, qs :| Picks(ps, axes) && Picks(qs, axes) && ps != qs
                    && Code(prefix, TokensOf(n, ps), n.lib) == Code(prefix, TokensOf(n, qs), n.lib);
      var k :| 0 <= k < |specs| && specs[k].pairs == ps;
      var l :| 0 <= l < |specs| && specs[l].pairs == qs;
      assert Describes(specs[k], n, prefix, axes) && Describes(specs[l], n, prefix, axes);
      assert specs[k].code == specs[l].code;
      assert k < l || l < k;
    }
  }

  /** So in a generation the codes differ exactly when the tokens tell the values of each axis apart
      before the cut, behind the longest tokens of the earlier axes. */
  lemma GeneratedCodesDifferIff(n: Naming, axes: seq<Axis>, limit: int)
    requires Faithful(n.lib) && Fine(axes, limit) && CodeTokens(n, axes) && DashSafe(n, axes)
    requires NormalizeSku(n.prefix, n.lib).Some?
    ensures Generated(n, axes, limit).Ok?
    ensures var specs := Generated(n, axes, limit).value;
            (forall k, l :: 0 <= k < l < |specs| ==> specs[k].code != specs[l].code)
            <==> TokensTell(n, NormalizeSku(n.prefix, n.lib).value, axes)
  {
    var prefix := NormalizeSku(n.prefix, n.lib).value;
    SoundAxes(axes);
    hide Generated, Faithful, CodeTokens, DashSafe, Sound, AxesFilled, Size, TokensTell, AllCoded, Lists, CodesDiffer;
    TokensGiveCodes(n, prefix, axes);
    GeneratedIff(n, axes, limit);
    GeneratedIsTheProduct(n, axes, limit);
    CodesDifferIff(n, prefix, axes);
    ListedCodes(Generated(n, axes, limit).value, n, prefix, axes);
  }

  lemma {:induction false} StartsAfterPrefix(n: Naming, prefix: string, axes: seq<Axis>, i: nat)
    requires i <= |axes| && forall j :: 0 <= j < |axes| ==> axes[j].values != []
    ensures Start(n, prefix, axes, i) > |prefix|
    decreases i
  {
    if i > 0 {
      StartsAfterPrefix(n, prefix, axes, i - 1);
    }
  }

  /** A prefix of 63 characters or more leaves no room to tell any two values apart. */
  lemma NoRoomForTokens(n: Naming, prefix: string, axes: seq<Axis>, i: nat, v: string, w: string)
    requires |prefix| >= SKU_MAX - 1 && Sound(axes)
    requires i < |axes| && v in axes[i].values && w in axes[i].values && v != w
    ensures !TokensTell(n, prefix, axes)
  {
    hide Common, TokenAt;
    StartsAfterPrefix(n, prefix, axes, i);
    assert !PartInTime(n, prefix, axes, i, v, w);
  }

  /** A product whose prefix has the full 64 characters has one code for all its variants. */
  lemma LongPrefixRepeats(n: Naming, axes: seq<Axis>, limit: int, k: nat)
    requires Faithful(n.lib) && IsSku(n.prefix) && |n.prefix| == SKU_MAX && Fine(axes, limit) && k < Size(axes)
    ensures Generated(n, axes, limit).Ok? && |Generated(n, axes, limit).value| == Size(axes)
    ensures Generated(n, axes, limit).value[k].code == n.prefix
  {
    hide Generated, TokensOf, Code, Sound, AxesFilled, Size, Picks, Join, Sort;
    NormalOfSku(n.prefix, n.lib);
    forall tokens
      ensures Code(n.prefix, tokens, n.lib) == Some(n.prefix)
    {
      LongPrefixIsTheCode(n.prefix, tokens, n.lib);
    }
    GeneratedIff(n, axes, limit);
    GeneratedIsTheProduct(n, axes, limit);
    assert Describes(Generated(n, axes, limit).value[k], n, n.prefix, axes);
  }

  // ---- when signatures tell variants apart

  /** No value id of an axis goes on, after another one of the axis, with a bar; so it is when no value id
      holds a bar at all, as with UUIDs. */
  predicate Separable(axes: seq<Axis>) {
    forall i, v, w :: 0 <= i < |axes| && v in axes[i].values && w in axes[i].values ==> !GoesOn(v, w, '|')
  }

  /** What follows the first pair's text. */
  function AfterFirst(pairs: seq<Pair>): string
    requires pairs != []
  {
    if |pairs| == 1 then "" else "|" + Join(pairs[1..])
  }

  lemma JoinFirst(pairs: seq<Pair>)
    requires pairs != []
    ensures Join(pairs) == pairs[0].attributeId + ":" + pairs[0].valueId + AfterFirst(pairs)
  {
  }

  lemma SameStart(head: string, v: string, r: string, w: string, t: string)
    requires head + v + r == head + w + t
    requires (r == "" || r[0] == '|') && (t == "" || t[0] == '|') && (r == "" <==> t == "")
    requires !GoesOn(v, w, '|') && !GoesOn(w, v, '|')
    ensures v == w && r == t
  {
    var s := head + v + r;
    var n := |head|;
    assert s[n..] == v + r && s[n..] == w + t;
    assert |v| == |w| by {
      if |v| < |w| {
        ShorterGoesOn(v, r, w, t);
      } else if |w| < |v| {
        ShorterGoesOn(w, t, v, r);
      }
    }
    assert v == (v + r)[..|v|] && w == (w + t)[..|w|];
    assert r == (v + r)[|v|..] && t == (w + t)[|w|..];
  }

  lemma ShorterGoesOn(v: string, r: string, w: string, t: string)
    requires v + r == w + t && |v| < |w| && (r == "" || r[0] == '|')
    ensures GoesOn(v, w, '|')
  {
    var s := v + r;
    assert r != "" && s[|v|] == r[0];
    assert s[|v|] == w[|v|];
    assert w[..|v|] == s[..|v|] && s[..|v|] == v;
  }

  lemma {:induction false} JoinIsInjective(xs: seq<Pair>, ys: seq<Pair>)
    requires |xs| == |ys| && Join(xs) == Join(ys)
    requires forall i :: 0 <= i < |xs| ==> xs[i].attributeId == ys[i].attributeId
                                           && !GoesOn(xs[i].valueId, ys[i].valueId, '|') && !GoesOn(ys[i].valueId, xs[i].valueId, '|')
    ensures xs == ys
    decreases |xs|
  {
    if xs != [] {
      hide Join, GoesOn;
      JoinFirst(xs);
      JoinFirst(ys);
      SameStart(xs[0].attributeId + ":", xs[0].valueId, AfterFirst(xs), ys[0].valueId, AfterFirst(ys));
      assert xs == [xs[0]] + xs[1..] && ys == [ys[0]] + ys[1..];
      if |xs| > 1 {
        assert AfterFirst(xs)[1..] == Join(xs[1..]) && AfterFirst(ys)[1..] == Join(ys[1..]);
        JoinIsInjective(xs[1..], ys[1..]);
      }
    }
  }

  function Attributes(pairs: seq<Pair>): seq<Pair> {
    seq(|pairs|, i requires 0 <= i < |pairs| => Pair(pairs[i].attributeId, ""))
  }

  /** Sorted choices of the same axes name the attributes in the same places. */
  lemma SameAttributes(axes: seq<Axis>, ps: seq<Pair>, qs: seq<Pair>)
    requires Sound(axes) && axes != [] && Picks(ps, axes) && Picks(qs, axes)
    ensures |Sort(ps)| == |Sort(qs)| == |axes|
    ensures forall i :: 0 <= i < |axes| ==> Sort(ps)[i].attributeId == Sort(qs)[i].attributeId
  {
    hide Sort, Lex.Less;
    ChoiceIsSigned(axes, ps);
    ChoiceIsSigned(axes, qs);
    SortSorts(ps);
    SortSorts(qs);
    var xs, ys := Attributes(Sort(ps)), Attributes(Sort(qs));
    AttributesOf(axes, ps, Sort(ps));
    AttributesOf(axes, qs, Sort(qs));
    AscendingIsCanonical(xs, ys);
    assert forall i :: 0 <= i < |xs| ==> xs[i].attributeId == Sort(ps)[i].attributeId;
    assert forall i :: 0 <= i < |ys| ==> ys[i].attributeId == Sort(qs)[i].attributeId;
  }

  lemma AttributesOf(axes: seq<Axis>, ps: seq<Pair>, sorted: seq<Pair>)
    requires Picks(ps, axes) && forall p :: p in sorted <==> p in ps
    ensures forall p :: p in Attributes(sorted) <==> p.valueId == "" && exists i :: 0 <= i < |axes| && axes[i].attributeId == p.attributeId
  {
    var attributes := Attributes(sorted);
    forall p
      ensures p in attributes <==> p.valueId == "" && exists i :: 0 <= i < |axes| && axes[i].attributeId == p.attributeId
    {
      if p in attributes {
        var j :| 0 <= j < |sorted| && attributes[j] == p;
        assert sorted[j] in ps;
        var i :| 0 <= i < |ps| && ps[i] == sorted[j];
        assert axes[i].attributeId == p.attributeId;
      }
      if p.valueId == "" && exists i :: 0 <= i < |axes| && axes[i].attributeId == p.attributeId {
        var i :| 0 <= i < |axes| && axes[i].attributeId == p.attributeId;
        assert ps[i] in sorted;
        var j :| 0 <= j < |sorted| && sorted[j] == ps[i];
        assert attributes[j] == p;
      }
    }
  }

  /** Each sorted pair takes a value of its own axis. */
  lemma SortedValues(axes: seq<Axis>, ps: seq<Pair>, i: nat)
    requires Sound(axes) && axes != [] && Picks(ps, axes) && |Sort(ps)| == |axes| && i < |axes|
    ensures exists j :: 0 <= j < |axes| && Sort(ps)[i].attributeId == axes[j].attributeId && Sort(ps)[i].valueId in axes[j].values
  {
    hide Sort;
    ChoiceIsSigned(axes, ps);
    SortSorts(ps);
    assert Sort(ps)[i] in ps;
    var j :| 0 <= j < |ps| && ps[j] == Sort(ps)[i];
    assert axes[j].attributeId == Sort(ps)[i].attributeId;
  }

  lemma SignaturesDetermine(axes: seq<Axis>, ps: seq<Pair>, qs: seq<Pair>)
    requires Sound(axes) && Separable(axes) && axes != [] && Picks(ps, axes) && Picks(qs, axes)
    requires Join(Sort(ps)) == Join(Sort(qs))
    ensures ps == qs
  {
    hide Join, Sort, GoesOn;
    SameAttributes(axes, ps, qs);
    var xs, ys := Sort(ps), Sort(qs);
    forall i | 0 <= i < |axes|
      ensures !GoesOn(xs[i].valueId, ys[i].valueId, '|') && !GoesOn(ys[i].valueId, xs[i].valueId, '|')
    {
      SortedValues(axes, ps, i);
      SortedValues(axes, qs, i);
      var j :| 0 <= j < |axes| && xs[i].attributeId == axes[j].attributeId && xs[i].valueId in axes[j].values;
      var l :| 0 <= l < |axes| && ys[i].attributeId == axes[l].attributeId && ys[i].valueId in axes[l].values;
      assert j == l;
    }
    JoinIsInjective(xs, ys);
    SameSortedSameChoice(axes, ps, qs);
  }

  lemma SameSortedSameChoice(axes: seq<Axis>, ps: seq<Pair>, qs: seq<Pair>)
    requires Sound(axes) && axes != [] && Picks(ps, axes) && Picks(qs, axes) && Sort(ps) == Sort(qs)
    ensures ps == qs
  {
    hide Sort;
    ChoiceIsSigned(axes, ps);
    ChoiceIsSigned(axes, qs);
    SortSorts(ps);
    SortSorts(qs);
    forall i | 0 <= i < |ps|
      ensures ps[i] == qs[i]
    {
      assert ps[i] in qs;
      var j :| 0 <= j < |qs| && qs[j] == ps[i];
      assert axes[i].attributeId == axes[j].attributeId;
    }
  }

  /** Then all signatures of a generation differ. */
  lemma SignaturesDiffer(n: Naming, axes: seq<Axis>, limit: int, k: nat, l: nat)
    requires Succeeds(n, axes, limit) && Separable(axes) && k < l < Size(axes)
    ensures Generated(n, axes, limit).Ok? && |Generated(n, axes, limit).value| == Size(axes)
    ensures Generated(n, axes, limit).value[k].signature != Generated(n, axes, limit).value[l].signature
  {
    hide Join, Sort, Picks, Separable, Generated, Code, TokensOf, NormalizeSku, AllCoded;
    GeneratedIff(n, axes, limit);
    GeneratedIsTheProduct(n, axes, limit);
    var p, q := Generated(n, axes, limit).value[k], Generated(n, axes, limit).value[l];
    assert Describes(p, n, NormalizeSku(n.prefix, n.lib).value, axes) && Describes(q, n, NormalizeSku(n.prefix, n.lib).value, axes);
    if p.signature == q.signature {
      SignaturesDetermine(axes, p.pairs, q.pairs);
    }
  }

  /** Every axis on which a value id goes on after another with a bar, a later attribute and a colon can
      be joined by a second axis so that two choices share a signature. */
  lemma SeparatorsCollide(axis: Axis, v: string, w: string, b: string, u: string, y: string)
    requires DistinctValues(axis) && v in axis.values && w in axis.values && w == v + "|" + b + ":" + u
    requires Lex.Less(axis.attributeId, b) && axis.attributeId != b
    ensures var other := Axis(b, [u + "|" + b + ":" + y, y]);
            var ps, qs := [Pair(axis.attributeId, v), Pair(b, u + "|" + b + ":" + y)], [Pair(axis.attributeId, w), Pair(b, y)];
            && Sound([axis, other]) && Picks(ps, [axis, other]) && Picks(qs, [axis, other])
            && ps[0] != qs[0] && Join(Sort(ps)) == Join(Sort(qs))
  {
    hide Sort, Join, Lex.Less;
    var a, x := axis.attributeId, u + "|" + b + ":" + y;
    TwoSorted(a, b, v, x);
    TwoSorted(a, b, w, y);
    assert |x| > |y| && |w| > |v|;
    assert a + ":" + v + ("|" + (b + ":" + x)) == a + ":" + w + ("|" + (b + ":" + y));
  }

  lemma TwoSorted(a: string, b: string, v: string, w: string)
    requires Lex.Less(a, b) && a != b
    ensures Join(Sort([Pair(a, v), Pair(b, w)])) == a + ":" + v + ("|" + (b + ":" + w))
  {
    hide Lex.Less;
    Lex.Irreflexive(a);
    if Lex.Less(b, a) {
      Lex.Transitive(a, b, a);
    }
    var one, two := [Pair(a, v)], [Pair(a, v), Pair(b, w)];
    assert two[..1] == one && one[..0] == [];
    assert Sort(one) == one;
    assert one[1..] == [];
    assert Sort(two) == [Pair(a, v)] + Insert(Pair(b, w), []) == two;
    assert two[1..] == [Pair(b, w)] && Join([Pair(b, w)]) == b + ":" + w + "";
  }

  // ---- the order of the axes

  /** The same choice, read off in the order of other axes. */
  function Reordered(pairs: seq<Pair>, axes: seq<Axis>): seq<Pair> {
    seq(|axes|, j requires 0 <= j < |axes| => Pair(axes[j].attributeId, ValueOf(pairs, axes[j].attributeId)))
  }

  function ValueOf(pairs: seq<Pair>, attribute: string): string {
    if pairs == [] then ""
    else if pairs[0].attributeId == attribute then pairs[0].valueId
    else ValueOf(pairs[1..], attribute)
  }

  lemma {:induction false} ValueOfPair(pairs: seq<Pair>, i: nat)
    requires DistinctAttributes(pairs) && i < |pairs|
    ensures ValueOf(pairs, pairs[i].attributeId) == pairs[i].valueId
  {
    if i > 0 {
      ValueOfPair(pairs[1..], i - 1);
    }
  }

  ghost predicate SameAxes(xs: seq<Axis>, ys: seq<Axis>) { |xs| == |ys| && forall a :: a in xs <==> a in ys }

  lemma ReorderedPicks(axes: seq<Axis>, others: seq<Axis>, pairs: seq<Pair>)
    requires Sound(axes) && Sound(others) && axes != [] && SameAxes(axes, others) && Picks(pairs, axes)
    ensures Picks(Reordered(pairs, others), others) && Join(Sort(Reordered(pairs, others))) == Join(Sort(pairs))
  {
    hide Join, Sort;
    var re := Reordered(pairs, others);
    ChoiceIsSigned(axes, pairs);
    forall j | 0 <= j < |others|
      ensures re[j] in pairs && re[j].valueId in others[j].values
    {
      assert others[j] in axes;
      var i :| 0 <= i < |axes| && axes[i] == others[j];
      ValueOfPair(pairs, i);
      assert re[j] == pairs[i];
    }
    forall i | 0 <= i < |axes|
      ensures pairs[i] in re
    {
      assert axes[i] in others;
      var j :| 0 <= j < |others| && others[j] == axes[i];
      ValueOfPair(pairs, i);
      assert re[j] == pairs[i];
    }
    assert Picks(re, others);
    ChoiceIsSigned(others, re);
    SortSorts(pairs);
    SortSorts(re);
    AscendingIsCanonical(Sort(pairs), Sort(re));
  }

  /** Naming the axes in another order generates the same signatures. */
  lemma AxisOrderDoesNotMatter(n: Naming, axes: seq<Axis>, others: seq<Axis>, limit: int, k: nat) returns (l: nat)
    requires Succeeds(n, axes, limit) && Succeeds(n, others, limit) && SameAxes(axes, others) && k < Size(axes)
    ensures Generated(n, axes, limit).Ok? && Generated(n, others, limit).Ok? && |Generated(n, axes, limit).value| == Size(axes)
    ensures l < |Generated(n, others, limit).value|
    ensures Generated(n, others, limit).value[l].signature == Generated(n, axes, limit).value[k].signature
  {
    hide Join, Sort, Picks, Generated, Reordered, Code, TokensOf, NormalizeSku, AllCoded;
    GeneratedIff(n, axes, limit);
    GeneratedIff(n, others, limit);
    GeneratedIsTheProduct(n, axes, limit);
    GeneratedIsTheProduct(n, others, limit);
    var prefix := NormalizeSku(n.prefix, n.lib).value;
    var spec := Generated(n, axes, limit).value[k];
    assert Describes(spec, n, prefix, axes);
    ReorderedPicks(axes, others, spec.pairs);
    var re := Reordered(spec.pairs, others);
    l :| 0 <= l < |Generated(n, others, limit).value| && Generated(n, others, limit).value[l].pairs == re;
    assert Describes(Generated(n, others, limit).value[l], n, prefix, others);
  }
}
