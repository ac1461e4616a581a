/** The texts, the order and the refusals of variant generation: tokens, codes and signatures character
    by character, the position of each choice, and the error of a generation that fails, by the first
    thing found wrong with it. */
module VariantAnswers {
  import opened Arith
  import opened Decimals
  import opened Results
  import opened SkuCodes
  import opened Texts
  import opened Variants

  // ---- codes and tokens

  /** The characters of codes, by code point: capital letters and digits, then also dash, dot, slash and
      underscore. */
  lemma CodeCharactersAre(c: char)
    ensures IsAlnum(c) <==> 65 <= c as int <= 90 || 48 <= c as int <= 57
    ensures IsCodeChar(c) <==> IsAlnum(c) || c as int in {45, 46, 47, 95}
  {
  }

  /** A SKU is a letter or digit and then one to 63 code characters; any other text is refused. */
  lemma SkuIff(raw: string, lib: Library)
    ensures var s := lib.upper(Trim(raw));
            && (NormalizeSku(raw, lib).Some? <==>
                  s != "" && IsAlnum(s[0]) && 1 <= |s[1..]| <= 63 && forall i :: 0 <= i < |s[1..]| ==> IsCodeChar(s[1..][i]))
            && (NormalizeSku(raw, lib).Some? ==> NormalizeSku(raw, lib).value == s)
  {
    var s := lib.upper(Trim(raw));
    if s != "" {
      assert s == [s[0]] + s[1..];
    }
  }

  lemma {:induction false} AlnumOf(s: string, t: string)
    ensures OnlyAlnum(s + t) == OnlyAlnum(s) + OnlyAlnum(t)
  {
    hide IsAlnum;
    if s == "" {
      assert s + t == t;
    } else {
      assert (s + t)[0] == s[0] && (s + t)[1..] == s[1..] + t;
      AlnumOf(s[1..], t);
    }
  }

  lemma {:induction false} AlnumKept(s: string)
    ensures (forall i :: 0 <= i < |s| ==> IsAlnum(s[i])) ==> OnlyAlnum(s) == s
    ensures (forall i :: 0 <= i < |s| ==> !IsAlnum(s[i])) ==> OnlyAlnum(s) == ""
  {
    hide IsAlnum;
    if s != "" {
      assert s == [s[0]] + s[1..];
      AlnumKept(s[1..]);
    }
  }

  /** A given token is taken in capitals; otherwise it is the first eight letters and digits of the value,
      or a word that stands for none. */
  lemma TokenIs(l: Label, lib: Library)
    ensures var given, found := lib.upper(l.skuToken), OnlyAlnum(lib.upper(lib.plain(l.value)));
            && (l.skuToken != "" ==> Token(l, lib) == given)
            && (l.skuToken == "" && found == "" ==> Token(l, lib) == "VAL")
            && (l.skuToken == "" && found != "" ==> Token(l, lib) <= found && |Token(l, lib)| == Min(8, |found|))
  {
    hide OnlyAlnum;
  }

  /** The code of a choice: the prefix, then each token behind a dash, as far as 64 characters go. */
  lemma CodeTextIs(prefix: string, tokens: seq<string>, lib: Library)
    requires Faithful(lib) && IsSku(prefix) && forall i :: 0 <= i < |tokens| ==> AllCodeChars(tokens[i])
    ensures var full := prefix + "-" + JoinText(tokens, '-');
            && Code(prefix, tokens, lib).Some?
            && Code(prefix, tokens, lib).value <= full && |Code(prefix, tokens, lib).value| == Min(64, |full|)
  {
    hide Code, JoinText, IsSku, Faithful;
    CodeIs(prefix, tokens, lib);
  }

  // ---- signatures

  function PairTexts(pairs: seq<Pair>): seq<string> {
    seq(|pairs|, i requires 0 <= i < |pairs| => pairs[i].attributeId + ":" + pairs[i].valueId)
  }

  lemma {:induction false} JoinIs(pairs: seq<Pair>)
    ensures Join(pairs) == JoinText(PairTexts(pairs), '|')
  {
    if |pairs| == 1 {
      assert Join(pairs) == Text(pairs[0]) + "";
    } else if pairs != [] {
      JoinIs(pairs[1..]);
      assert PairTexts(pairs)[1..] == PairTexts(pairs[1..]);
      var head, rest := Text(pairs[0]), Join(pairs[1..]);
      assert head + ("|" + rest) == head + "|" + rest;
    }
  }

  /** The signature of a choice is its pairs in the order of their attributes, as `attribute:value` with bars
      between; nothing chosen has a name of its own, and a missing id or a repeated attribute is refused. */
  lemma SignatureIs(pairs: seq<Pair>, sorted: seq<Pair>)
    ensures Signature([]) == Ok("DEFAULT")
    ensures Signature(pairs).Err? <==> (exists i :: 0 <= i < |pairs| && (pairs[i].attributeId == "" || pairs[i].valueId == ""))
                                       || (exists i, j :: 0 <= i < j < |pairs| && pairs[i].attributeId == pairs[j].attributeId)
    ensures Signature(pairs).Err? ==> Signature(pairs).error == InvalidCombination
    ensures (Signature(pairs).Ok? && pairs != [] && Ascending(sorted) && forall p :: p in sorted <==> p in pairs)
            ==> Signature(pairs) == Ok(JoinText(PairTexts(sorted), '|'))
  {
    hide Join, Sort, Ascending;
    if Signature(pairs).Ok? && pairs != [] && Ascending(sorted) && forall p :: p in sorted <==> p in pairs {
      SortSorts(pairs);
      AscendingIsCanonical(sorted, Sort(pairs));
      JoinIs(sorted);
    }
  }

  // ---- the order of the variants

  /** The last axis turns fastest. */
  lemma ProductAt(axes: seq<Axis>, i: nat, j: nat)
    requires axes != [] && i < |Product(axes[..|axes| - 1])| && j < |axes[|axes| - 1].values|
    ensures var n, front := |axes| - 1, Product(axes[..|axes| - 1]);
            var k := i * |axes[n].values| + j;
            0 <= k < |Product(axes)| && Product(axes)[k] == front[i] + [Pair(axes[n].attributeId, axes[n].values[j])]
  {
    hide Product, Quotient, Remainder;
    var n := |axes| - 1;
    ProductStep(axes);
    Merge(i, j, |Product(axes[..n])|, |axes[n].values|);
  }

  lemma ProductStep(axes: seq<Axis>)
    requires axes != []
    ensures Product(axes) == Extend(Product(axes[..|axes| - 1]), axes[|axes| - 1])
  {
  }

  /** Variants come in that order, one for each choice. */
  lemma VariantsAreInOrder(n: Naming, axes: seq<Axis>, limit: int, k: nat)
    requires Generated(n, axes, limit).Ok? && k < |Generated(n, axes, limit).value|
    ensures k < |Product(axes)| && Generated(n, axes, limit).value[k].pairs == Product(axes)[k]
  {
    hide Product, Checked, SpecifiedAll, NormalizeSku, Code, Signature;
    var prefix := NormalizeSku(n.prefix, n.lib).value;
    AllSpecified(n, prefix, Product(axes));
    assert Specified(n, prefix, Product(axes)[k]) == Ok(Generated(n, axes, limit).value[k]);
  }

  // ---- refusals

  /** An axis that cannot be used: its attribute was named before, it has no values, or one twice. */
  predicate BadAxis(axes: seq<Axis>, k: nat)
    requires k < |axes|
  {
    || (exists j :: 0 <= j < k && axes[j].attributeId == axes[k].attributeId)
    || axes[k].values == [] || !DistinctValues(axes[k])
  }

  function Named(axes: seq<Axis>): set<string> { set axis | axis in axes :: axis.attributeId }

  predicate AxisPasses(axes: seq<Axis>, k: nat, limit: int)
    requires k < |axes|
  {
    !BadAxis(axes, k) && Size(axes[..k + 1]) <= limit
  }

  lemma CheckedStep(axes: seq<Axis>, m: nat, limit: int)
    requires m < |axes|
    ensures Checked(axes[m..], Named(axes[..m]), Size(axes[..m]), limit)
            == if BadAxis(axes, m) then Some(InvalidCombination)
               else if Size(axes[..m + 1]) > limit then Some(LimitExceeded)
               else Checked(axes[m + 1..], Named(axes[..m + 1]), Size(axes[..m + 1]), limit)
  {
    hide DistinctValues;
    var rest, seen := axes[m..], Named(axes[..m]);
    assert axes[..m + 1][..m] == axes[..m] && rest[0] == axes[m] && rest[1..] == axes[m + 1..];
    assert axes[m].attributeId in seen <==> exists j :: 0 <= j < m && axes[j].attributeId == axes[m].attributeId;
    assert Named(axes[..m + 1]) == seen + {axes[m].attributeId} by {
      assert axes[..m + 1] == axes[..m] + [axes[m]];
    }
  }

  /** The check stops at the first axis that cannot be used, or that takes the product over the limit. */
  lemma {:induction false} CheckStops(axes: seq<Axis>, m: nat, limit: int) returns (k: nat)
    requires m <= |axes| && Checked(axes[m..], Named(axes[..m]), Size(axes[..m]), limit).Some?
    ensures m <= k < |axes| && forall j :: m <= j < k ==> AxisPasses(axes, j, limit)
    ensures var e := Checked(axes[m..], Named(axes[..m]), Size(axes[..m]), limit).value;
            if BadAxis(axes, k) then e == InvalidCombination else e == LimitExceeded && Size(axes[..k + 1]) > limit
    decreases |axes| - m
  {
    hide Size, Named, BadAxis;
    CheckedStep(axes, m, limit);
    if BadAxis(axes, m) || Size(axes[..m + 1]) > limit {
      k := m;
    } else {
      k := CheckStops(axes, m + 1, limit);
    }
  }

  /** Why a generation is refused, in this order: the prefix, no axes, the first axis that stops the check;
      then, choice by choice in their order, a code that is no SKU or a missing id. */
  lemma RefusalIs(n: Naming, axes: seq<Axis>, limit: int) returns (k: nat)
    requires Generated(n, axes, limit).Err?
    ensures var e, prefix := Generated(n, axes, limit).error, NormalizeSku(n.prefix, n.lib);
            if prefix.None? then e == InvalidSku
            else if axes == [] then e == InvalidCombination
            else if Checked(axes, {}, 1, limit).Some? then
              && k < |axes| && (forall j :: 0 <= j < k ==> AxisPasses(axes, j, limit))
              && (if BadAxis(axes, k) then e == InvalidCombination else e == LimitExceeded && Size(axes[..k + 1]) > limit)
            else
              && k < |Product(axes)| && (forall j :: 0 <= j < k ==> Specified(n, prefix.value, Product(axes)[j]).Ok?)
              && (if Code(prefix.value, TokensOf(n, Product(axes)[k]), n.lib).None? then e == InvalidSku
                  else Signature(Product(axes)[k]) == Err(e))
  {
    hide Checked, Product, NormalizeSku, BadAxis, SpecifiedAll, Size;
    k := 0;
    var prefix := NormalizeSku(n.prefix, n.lib);
    if prefix.Some? && axes != [] {
      if Checked(axes, {}, 1, limit).Some? {
        NothingYet(axes);
        k := CheckStops(axes, 0, limit);
      } else {
        k := FirstFailure(n, prefix.value, Product(axes));
      }
    }
  }

  lemma NothingYet(axes: seq<Axis>)
    ensures Named(axes[..0]) == {} && Size(axes[..0]) == 1 && axes[0..] == axes
  {
  }

  lemma {:induction false} FirstFailure(n: Naming, prefix: string, all: seq<seq<Pair>>) returns (k: nat)
    requires SpecifiedAll(n, prefix, all).Err?
    ensures k < |all| && (forall j :: 0 <= j < k ==> Specified(n, prefix, all[j]).Ok?)
    ensures Specified(n, prefix, all[k]).Err? && Specified(n, prefix, all[k]).error == SpecifiedAll(n, prefix, all).error
  {
    hide Specified;
    var m := |all| - 1;
    if SpecifiedAll(n, prefix, all[..m]).Err? {
      k := FirstFailure(n, prefix, all[..m]);
    } else {
      AllSpecified(n, prefix, all[..m]);
      assert forall j :: 0 <= j < m ==> all[..m][j] == all[j];
      k := m;
    }
  }
}
