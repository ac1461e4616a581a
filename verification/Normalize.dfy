/** The lines of a warehouse reservation request: text in, one line per (warehouse, SKU) out. The result
    does not depend on the order and the splitting of the request, except where two pairs share a
    map key. */
module Normalize {
  import opened Decimals
  import opened Lines

  /** A line as it arrives; no warehouse is the empty string. */
  datatype TextLine = TextLine(warehouse: string, sku: string, qty: string)

  /** The parsed lines, or nothing when there is no line or a quantity is not positive text. */
  function Parsed(lines: seq<TextLine>): Option<seq<Line>> {
    if lines == [] then None else ParsedAll(lines)
  }

  function ParsedLine(line: TextLine): (r: Option<Line>)
    ensures r.Some? ==> r.value.qty > 0 && r.value.key == [line.warehouse, line.sku]
  {
    match ParseMilli(line.qty)
    case None => None
    case Some(q) => if q > 0 then Some(Line([line.warehouse, line.sku], q)) else None
  }

  function ParsedAll(lines: seq<TextLine>): Option<seq<Line>> {
    if lines == [] then Some([]) else
      var front, line := ParsedAll(lines[..|lines| - 1]), ParsedLine(lines[|lines| - 1]);
      if front.Some? && line.Some? then Some(front.value + [line.value]) else None
  }

  lemma {:induction false} ParsedLines(lines: seq<TextLine>)
    requires ParsedAll(lines).Some?
    ensures var r := ParsedAll(lines).value;
            |r| == |lines| && Positive(r) && forall i :: 0 <= i < |lines| ==> r[i].key == [lines[i].warehouse, lines[i].sku]
  {
    hide ParsedLine;
    if lines != [] {
      ParsedLines(lines[..|lines| - 1]);
    }
  }

  predicate Pairs(lines: seq<Line>) { forall i :: 0 <= i < |lines| ==> |lines[i].key| == 2 }

  // ---- the merge key

  /** The map key under which lines are merged. */
  function MergeKey(pair: Key): string
    requires |pair| == 2
  {
    pair[0] + ":" + pair[1]
  }

  /** The first pair is the second with a piece moved over the colon. */
  ghost predicate Slides(a: Key, b: Key)
    requires |a| == 2 && |b| == 2
  {
    exists t :: a[0] == b[0] + ":" + t && b[1] == t + ":" + a[1]
  }

  lemma KeyParts(a: Key)
    requires |a| == 2
    ensures var k := MergeKey(a);
            && |k| == |a[0]| + 1 + |a[1]|
            && k[..|a[0]|] == a[0] && k[|a[0]|] == ':' && k[|a[0]| + 1..] == a[1]
  {
  }

  /** Exactly when two pairs share a map key. */
  lemma MergeKeyIff(a: Key, b: Key)
    requires |a| == 2 && |b| == 2
    ensures MergeKey(a) == MergeKey(b) <==> a == b || Slides(a, b) || Slides(b, a)
  {
    if Slides(a, b) {
      SlidingKeepsTheKey(a, b);
    }
    if Slides(b, a) {
      SlidingKeepsTheKey(b, a);
    }
    if MergeKey(a) == MergeKey(b) {
      KeyParts(a);
      KeyParts(b);
      if |a[0]| == |b[0]| {
        assert a == [a[0], a[1]] && b == [b[0], b[1]];
      } else if |a[0]| > |b[0]| {
        LongerSlides(a, b);
      } else {
        LongerSlides(b, a);
      }
    }
  }

  lemma SlidingKeepsTheKey(a: Key, b: Key)
    requires |a| == 2 && |b| == 2 && Slides(a, b)
    ensures MergeKey(a) == MergeKey(b)
  {
    var t :| a[0] == b[0] + ":" + t && b[1] == t + ":" + a[1];
    assert b[0] + ":" + t + ":" + a[1] == b[0] + ":" + (t + ":" + a[1]);
  }

  lemma LongerSlides(a: Key, b: Key)
    requires |a| == 2 && |b| == 2 && MergeKey(a) == MergeKey(b) && |a[0]| > |b[0]|
    ensures Slides(a, b)
  {
    hide MergeKey;
    KeyParts(a);
    KeyParts(b);
    var k, m, n := MergeKey(a), |b[0]|, |a[0]|;
    var t := k[m + 1..n];
    assert a[0] == k[..n] && k[..n] == k[..m] + [k[m]] + t;
    assert b[1] == k[m + 1..] && k[m + 1..] == t + [k[n]] + k[n + 1..];
    assert a[0] == b[0] + ":" + t && b[1] == t + ":" + a[1];
  }

  /** Pairs whose warehouse is a UUID, or absent, never collide. */
  lemma PlainPairsDiffer(a: Key, b: Key)
    requires |a| == 2 && |b| == 2 && ':' !in a[0] && ':' !in b[0]
    ensures MergeKey(a) == MergeKey(b) <==> a == b
  {
    hide MergeKey, Slides;
    MergeKeyIff(a, b);
    SlidingTakesAColon(a, b);
    SlidingTakesAColon(b, a);
  }

  lemma SlidingTakesAColon(a: Key, b: Key)
    requires |a| == 2 && |b| == 2
    ensures Slides(a, b) ==> ':' in a[0]
  {
    if t :| a[0] == b[0] + ":" + t && b[1] == t + ":" + a[1] {
      assert a[0][|b[0]|] == ':';
    }
  }

  // ---- merging by that key

  /** The pair under which a map key is entered: that of its first line. */
  function FirstPair(lines: seq<Line>, k: string): Key
    requires Pairs(lines)
  {
    if lines == [] then [] else if MergeKey(lines[0].key) == k then lines[0].key else FirstPair(lines[1..], k)
  }

  /** Each line under the pair its map entry carries. */
  function Entered(lines: seq<Line>): seq<Line>
    requires Pairs(lines)
  {
    seq(|lines|, i requires 0 <= i < |lines| => Line(FirstPair(lines, MergeKey(lines[i].key)), lines[i].qty))
  }

  function Normalized(lines: seq<TextLine>): Option<seq<Line>> {
    match Parsed(lines)
    case None => None
    case Some(parsed) => ParsedLines(lines); Some(Canonical(Entered(parsed)))
  }

  /** Do two different pairs share a map key? */
  ghost predicate Collide(lines: seq<Line>)
    requires Pairs(lines)
  {
    exists i, j :: 0 <= i < |lines| && 0 <= j < |lines| && lines[i].key != lines[j].key
                   && MergeKey(lines[i].key) == MergeKey(lines[j].key)
  }

  lemma TwoPairsCollide(q: int, r: int)
    ensures Collide([Line(["a:b", "c"], q), Line(["a", "b:c"], r)])
  {
    var lines := [Line(["a:b", "c"], q), Line(["a", "b:c"], r)];
    assert lines[0].key[0] != lines[1].key[0];
    assert MergeKey(lines[0].key) == "a:b:c" && MergeKey(lines[1].key) == "a:b:c";
  }

  lemma {:induction false} FirstPairIs(lines: seq<Line>, i: nat)
    requires Pairs(lines) && i < |lines|
    ensures var p := FirstPair(lines, MergeKey(lines[i].key));
            |p| == 2 && MergeKey(p) == MergeKey(lines[i].key) && exists j :: 0 <= j <= i && lines[j].key == p
  {
    hide MergeKey;
    if MergeKey(lines[0].key) == MergeKey(lines[i].key) {
      assert lines[0].key == FirstPair(lines, MergeKey(lines[i].key));
    } else {
      FirstPairIs(lines[1..], i - 1);
      var j :| 0 <= j <= i - 1 && lines[1..][j].key == FirstPair(lines, MergeKey(lines[i].key));
      assert lines[j + 1].key == FirstPair(lines, MergeKey(lines[i].key));
    }
  }

  lemma EnteredPairs(lines: seq<Line>)
    requires Pairs(lines)
    ensures Pairs(Entered(lines)) && (Positive(lines) ==> Positive(Entered(lines)))
    ensures forall i :: 0 <= i < |lines| ==> MergeKey(Entered(lines)[i].key) == MergeKey(lines[i].key)
  {
    hide MergeKey;
    forall i | 0 <= i < |lines|
      ensures |Entered(lines)[i].key| == 2 && MergeKey(Entered(lines)[i].key) == MergeKey(lines[i].key)
    {
      FirstPairIs(lines, i);
    }
  }

  lemma EnteredWithoutCollision(lines: seq<Line>)
    requires Pairs(lines) && !Collide(lines)
    ensures Entered(lines) == lines
  {
    hide MergeKey;
    forall i | 0 <= i < |lines|
      ensures FirstPair(lines, MergeKey(lines[i].key)) == lines[i].key
    {
      FirstPairIs(lines, i);
    }
  }

  /** A line entered under another pair than its own is a collision, and every collision has one. */
  lemma CollisionIsEntered(lines: seq<Line>) returns (i: nat)
    requires Pairs(lines) && Collide(lines)
    ensures i < |lines| && Entered(lines)[i].key != lines[i].key
  {
    hide MergeKey;
    var j, l :| 0 <= j < |lines| && 0 <= l < |lines| && lines[j].key != lines[l].key
                && MergeKey(lines[j].key) == MergeKey(lines[l].key);
    i := if Entered(lines)[j].key != lines[j].key then j else l;
  }

  /** A pair that is not the first of its map key is gone from the entries. */
  lemma LaterPairIsGone(lines: seq<Line>, i: nat)
    requires Pairs(lines) && i < |lines| && Entered(lines)[i].key != lines[i].key
    ensures lines[i].key !in Keys(Entered(lines))
  {
    hide MergeKey, FirstPair;
    EnteredPairs(lines);
    forall j | 0 <= j < |lines|
      ensures Entered(lines)[j].key != lines[i].key
    {
      assert MergeKey(lines[j].key) == MergeKey(lines[i].key) ==> Entered(lines)[j].key == Entered(lines)[i].key;
    }
  }

  /** Entries never collide among themselves. */
  lemma EntriesDoNotCollide(lines: seq<Line>)
    requires Pairs(lines)
    ensures Pairs(Entered(lines)) && !Collide(Entered(lines))
  {
    hide MergeKey, FirstPair;
    EnteredPairs(lines);
    var out := Entered(lines);
    forall i, j | 0 <= i < |out| && 0 <= j < |out| && MergeKey(out[i].key) == MergeKey(out[j].key)
      ensures out[i].key == out[j].key
    {
      assert MergeKey(lines[i].key) == MergeKey(lines[j].key);
    }
  }

  /** The text form of normalised lines, as they are normalised a second time. */
  function ToText(lines: seq<Line>): seq<TextLine>
    requires forall i :: 0 <= i < |lines| ==> |lines[i].key| == 2
  {
    seq(|lines|, i requires 0 <= i < |lines| => TextLine(lines[i].key[0], lines[i].key[1], FormatMilli(lines[i].qty)))
  }

  lemma {:induction false} ParsedOfText(lines: seq<Line>)
    requires Positive(lines) && forall i :: 0 <= i < |lines| ==> |lines[i].key| == 2
    ensures ParsedAll(ToText(lines)) == Some(lines)
  {
    hide ParseMilli, FormatMilli;
    if lines != [] {
      var front, last := lines[..|lines| - 1], lines[|lines| - 1];
      ParsedOfText(front);
      assert ToText(lines)[..|lines| - 1] == ToText(front);
      ParseOfFormat(last.qty);
      assert last.key == [last.key[0], last.key[1]];
      assert lines == front + [last];
    }
  }

  lemma CanonicalPairs(lines: seq<Line>)
    requires Pairs(lines)
    ensures Pairs(Canonical(lines)) && (!Collide(lines) ==> !Collide(Canonical(lines)))
  {
    hide MergeKey, KeyLess, Canonical;
    var out := Canonical(lines);
    CanonicalIsSorted(lines);
    forall i | 0 <= i < |out|
      ensures exists j :: 0 <= j < |lines| && lines[j].key == out[i].key
    {
      assert out[i].key in Keys(out);
    }
  }

  /** Normal lines are positive, strictly sorted pairs that do not collide. */
  lemma NormalizedKeys(lines: seq<TextLine>)
    requires Normalized(lines).Some?
    ensures var out := Normalized(lines).value;
            out != [] && Positive(out) && Sorted(out) && Pairs(out) && !Collide(out)
  {
    hide KeyLess, ParsedLine, MergeKey, Entered, Canonical;
    ParsedLines(lines);
    var parsed := Parsed(lines).value;
    EnteredPairs(parsed);
    EntriesDoNotCollide(parsed);
    var entered := Entered(parsed);
    CanonicalIsSorted(entered);
    CanonicalIsPositive(entered);
    CanonicalPairs(entered);
    EnteredLength(parsed);
    assert entered[0].key in Keys(entered);
  }

  lemma EnteredLength(lines: seq<Line>)
    requires Pairs(lines)
    ensures |Entered(lines)| == |lines|
  {
  }

  /** The normal form is the canonical form of what is asked, exactly when no two pairs collide. */
  lemma NormalizedIff(lines: seq<TextLine>)
    requires Normalized(lines).Some?
    ensures Parsed(lines).Some? && Pairs(Parsed(lines).value)
    ensures Normalized(lines) == Some(Canonical(Parsed(lines).value)) <==> !Collide(Parsed(lines).value)
  {
    hide KeyLess, ParsedLine, MergeKey, FirstPair, Canonical;
    ParsedLines(lines);
    var parsed := Parsed(lines).value;
    if Collide(parsed) {
      var i := CollisionIsEntered(parsed);
      LaterPairIsGone(parsed, i);
      CanonicalIsSorted(parsed);
      CanonicalIsSorted(Entered(parsed));
      assert parsed[i].key in Keys(parsed);
    } else {
      EnteredWithoutCollision(parsed);
    }
  }

  /** Equal totals per (warehouse, SKU) give the same strictly sorted lines, whatever the order, the
      splitting and the spelling of the numbers, and different totals give different lines, when no
      pairs collide. */
  lemma NormalizedIsCanonical(a: seq<TextLine>, b: seq<TextLine>)
    requires Normalized(a).Some? && Normalized(b).Some?
    ensures Parsed(a).Some? && Pairs(Parsed(a).value) && Parsed(b).Some? && Pairs(Parsed(b).value)
    ensures Normalized(a) == Normalized(b) <==> SameTotals(Entered(Parsed(a).value), Entered(Parsed(b).value))
    ensures !Collide(Parsed(a).value) && !Collide(Parsed(b).value) ==>
              (Normalized(a) == Normalized(b) <==> SameTotals(Parsed(a).value, Parsed(b).value))
  {
    hide ParsedLine, KeyLess, Canonical, MergeKey, Entered, Collide;
    ParsedLines(a);
    ParsedLines(b);
    var x, y := Parsed(a).value, Parsed(b).value;
    EnteredPairs(x);
    EnteredPairs(y);
    CanonicalIffSameDemand(Entered(x), Entered(y));
    PositiveDemand(Entered(x), Entered(y));
    if !Collide(x) && !Collide(y) {
      EnteredWithoutCollision(x);
      EnteredWithoutCollision(y);
    }
  }

  ghost predicate SameTotals(x: seq<Line>, y: seq<Line>) {
    forall k: Key :: Total(x, k) == Total(y, k)
  }

  lemma PositiveDemand(x: seq<Line>, y: seq<Line>)
    requires Positive(x) && Positive(y)
    ensures SameDemand(x, y) <==> SameTotals(x, y)
  {
    forall k: Key
      ensures k in Keys(x) <==> Total(x, k) != 0
      ensures k in Keys(y) <==> Total(y, k) != 0
    {
      TotalIsPositive(x, k);
      TotalIsPositive(y, k);
    }
    if SameDemand(x, y) {
      forall k: Key
        ensures Total(x, k) == Total(y, k)
      {
        assert k in Keys(x) <==> k in Keys(y);
      }
      assert SameTotals(x, y);
    }
    if SameTotals(x, y) {
      forall k: Key
        ensures k in Keys(x) <==> k in Keys(y)
      {
        assert Total(x, k) == Total(y, k);
      }
      assert Keys(x) == Keys(y);
    }
  }

  /** Sorted lines without collisions are their own normal form. */
  lemma NormalizedOfText(out: seq<Line>)
    requires out != [] && Positive(out) && Sorted(out) && Pairs(out) && !Collide(out)
    ensures Normalized(ToText(out)) == Some(out)
  {
    hide ParseMilli, KeyLess, FormatMilli, MergeKey, Collide;
    ParsedOfText(out);
    EnteredWithoutCollision(out);
    CanonicalOfSorted(out);
  }

  /** A request's lines read off one by one. */
  lemma {:induction false} ParsedIff(lines: seq<TextLine>)
    ensures ParsedAll(lines).Some? <==> forall i :: 0 <= i < |lines| ==> ParsedLine(lines[i]).Some?
    ensures ParsedAll(lines).Some? ==>
              && |ParsedAll(lines).value| == |lines|
              && forall i :: 0 <= i < |lines| ==> ParsedLine(lines[i]) == Some(ParsedAll(lines).value[i])
  {
    hide ParsedLine;
    if lines != [] {
      var n := |lines| - 1;
      ParsedIff(lines[..n]);
      assert forall i :: 0 <= i < n ==> lines[..n][i] == lines[i];
    }
  }

  function ToFront<T>(s: seq<T>, i: nat): seq<T>
    requires i < |s|
  {
    [s[i]] + s[..i] + s[i + 1..]
  }

  lemma ParsedToFront(lines: seq<TextLine>, i: nat)
    requires ParsedAll(lines).Some? && i < |lines|
    ensures |ParsedAll(lines).value| == |lines| && ParsedAll(ToFront(lines, i)) == Some(ToFront(ParsedAll(lines).value, i))
  {
    hide ParsedLine, ParsedAll;
    ParsedIff(lines);
    var moved := ToFront(lines, i);
    ParsedIff(moved);
    forall j | 0 <= j < |moved|
      ensures ParsedLine(moved[j]) == Some(ToFront(ParsedAll(lines).value, i)[j])
    {
    }
    assert ParsedAll(moved).value == ToFront(ParsedAll(lines).value, i);
  }

  lemma TotalToFront(lines: seq<Line>, i: nat)
    requires i < |lines|
    ensures SameTotals(lines, ToFront(lines, i))
  {
    hide Total;
    forall k: Key
      ensures Total(lines, k) == Total(ToFront(lines, i), k)
    {
      var front, line, back := lines[..i], [lines[i]], lines[i + 1..];
      assert lines == front + line + back;
      TotalConcat(front + line, back, k);
      TotalConcat(front, line, k);
      TotalConcat(line + front, back, k);
      TotalConcat(line, front, k);
    }
  }

  lemma FirstStays(lines: seq<Line>)
    requires Pairs(lines) && lines != []
    ensures lines[0].key in Keys(Entered(lines))
  {
    assert Entered(lines)[0].key == lines[0].key;
  }

  /** Moving a line that lost its pair to the front brings the pair back. */
  lemma MovedLineShows(lines: seq<TextLine>)
    requires Normalized(lines).Some? && Parsed(lines).Some? && Pairs(Parsed(lines).value) && Collide(Parsed(lines).value)
    ensures exists b :: SameRequest(lines, b) && Normalized(b) != Normalized(lines)
  {
    hide KeyLess, ParsedLine, ParsedAll, MergeKey, FirstPair, Entered, Canonical, Collide, SameTotals;
    ParsedLines(lines);
    var x := Parsed(lines).value;
    var i := CollisionIsEntered(x);
    LaterPairIsGone(x, i);
    var b, y := ToFront(lines, i), ToFront(x, i);
    ParsedToFront(lines, i);
    ParsedLines(b);
    TotalToFront(x, i);
    FirstStays(y);
    CanonicalIsSorted(Entered(x));
    CanonicalIsSorted(Entered(y));
    assert SameRequest(lines, b) && Normalized(b) != Normalized(lines);
  }

  /** Do two requests ask the same total of every (warehouse, SKU)? */
  ghost predicate SameRequest(a: seq<TextLine>, b: seq<TextLine>) {
    Parsed(a).Some? && Parsed(b).Some? && SameTotals(Parsed(a).value, Parsed(b).value)
  }

  lemma SameTotalsSameCollisions(x: seq<Line>, y: seq<Line>)
    requires Positive(x) && Positive(y) && Pairs(x) && Pairs(y) && SameTotals(x, y) && Collide(y)
    ensures Collide(x)
  {
    hide MergeKey, Total, SameTotals;
    PositiveDemand(x, y);
    var i, j :| 0 <= i < |y| && 0 <= j < |y| && y[i].key != y[j].key && MergeKey(y[i].key) == MergeKey(y[j].key);
    assert y[i].key in Keys(x) && y[j].key in Keys(x);
    var l :| 0 <= l < |x| && x[l].key == y[i].key;
    var m :| 0 <= m < |x| && x[m].key == y[j].key;
  }

  /** Every request for the same totals, in whatever order and splitting, normalises alike, exactly
      when no two pairs of it collide. */
  lemma OrderMattersIff(a: seq<TextLine>)
    requires Normalized(a).Some?
    ensures Parsed(a).Some? && Pairs(Parsed(a).value)
    ensures (forall b :: SameRequest(a, b) ==> Normalized(b) == Normalized(a)) <==> !Collide(Parsed(a).value)
  {
    hide ParsedLine, ParsedAll, Entered, Canonical, Collide, SameTotals;
    ParsedLines(a);
    if Collide(Parsed(a).value) {
      MovedLineShows(a);
    } else {
      forall b | SameRequest(a, b)
        ensures Normalized(b) == Normalized(a)
      {
        ParsedLines(b);
        if Collide(Parsed(b).value) {
          SameTotalsSameCollisions(Parsed(a).value, Parsed(b).value);
        }
        NormalizedIsCanonical(a, b);
      }
    }
  }

  /** Normalising normalised lines changes nothing. */
  lemma NormalizedTwice(lines: seq<TextLine>)
    requires Normalized(lines).Some?
    ensures var out := Normalized(lines).value; Pairs(out) && Normalized(ToText(out)) == Some(out)
  {
    hide Normalized, Collide;
    NormalizedKeys(lines);
    NormalizedOfText(Normalized(lines).value);
  }

  // ---- the loop

  /** The map holds the total of each entry so far, under its key. */
  ghost predicate MergedOk(merged: map<string, Line>, entered: seq<Line>) {
    && Pairs(entered)
    && (forall p :: p in Keys(entered) ==> |p| == 2 && MergeKey(p) in merged && merged[MergeKey(p)].key == p)
    && (forall k :: k in merged ==> merged[k].key in Keys(entered) && |merged[k].key| == 2 && k == MergeKey(merged[k].key)
                                    && merged[k].qty == Total(entered, merged[k].key))
  }

  lemma {:induction false} FirstPairAppend(lines: seq<Line>, line: Line, k: string)
    requires Pairs(lines) && |line.key| == 2
    ensures Pairs(lines + [line])
    ensures (exists i :: 0 <= i < |lines| && MergeKey(lines[i].key) == k) ==> FirstPair(lines + [line], k) == FirstPair(lines, k)
    ensures MergeKey(line.key) == k && (forall i :: 0 <= i < |lines| ==> MergeKey(lines[i].key) != k)
            ==> FirstPair(lines + [line], k) == line.key
  {
    hide MergeKey;
    if lines == [] {
      assert lines + [line] == [line];
    } else {
      FirstPairAppend(lines[1..], line, k);
      assert (lines + [line])[1..] == lines[1..] + [line];
      assert forall i :: 0 < i < |lines| ==> lines[i] == lines[1..][i - 1];
      assert forall i :: 0 <= i < |lines| - 1 ==> lines[1..][i] == lines[i + 1];
    }
  }

  /** One line more enters under its own pair, or under that of its map key. */
  lemma EnteredAppend(lines: seq<Line>, line: Line)
    requires Pairs(lines) && |line.key| == 2
    ensures Pairs(lines + [line])
    ensures Entered(lines + [line]) == Entered(lines) + [Line(FirstPair(lines + [line], MergeKey(line.key)), line.qty)]
  {
    hide MergeKey, FirstPair;
    var longer := lines + [line];
    forall i | 0 <= i < |lines|
      ensures FirstPair(longer, MergeKey(lines[i].key)) == FirstPair(lines, MergeKey(lines[i].key))
    {
      FirstPairAppend(lines, line, MergeKey(lines[i].key));
    }
    FirstPairAppend(lines, line, MergeKey(line.key));
  }

  lemma EntryOfKey(merged: map<string, Line>, lines: seq<Line>, line: Line)
    requires Pairs(lines) && |line.key| == 2 && MergedOk(merged, Entered(lines))
    ensures Pairs(lines + [line])
    ensures var k := MergeKey(line.key);
            FirstPair(lines + [line], k) == if k in merged then merged[k].key else line.key
  {
    hide MergeKey, FirstPair;
    var k := MergeKey(line.key);
    FirstPairAppend(lines, line, k);
    EnteredPairs(lines);
    if k in merged {
      var i :| 0 <= i < |lines| && Entered(lines)[i].key == merged[k].key;
      assert MergeKey(lines[i].key) == k;
    } else {
      forall i | 0 <= i < |lines|
        ensures MergeKey(lines[i].key) != k
      {
        assert Entered(lines)[i].key in Keys(Entered(lines));
      }
    }
  }

  lemma MergeOne(merged: map<string, Line>, entered: seq<Line>, pair: Key, q: int)
    requires MergedOk(merged, entered) && |pair| == 2
    ensures var k := MergeKey(pair);
            var entry := Line(if k in merged then merged[k].key else pair, (if k in merged then merged[k].qty else 0) + q);
            MergedOk(merged[k := entry], entered + [Line(entry.key, q)])
  {
    hide MergeKey, Total, Keys;
    var k := MergeKey(pair);
    var key := if k in merged then merged[k].key else pair;
    KeysAppend(entered, Line(key, q));
    forall x
      ensures Total(entered + [Line(key, q)], x) == Total(entered, x) + if x == key then q else 0
    {
      TotalConcat(entered, [Line(key, q)], x);
      TotalOfOne(Line(key, q), x);
    }
    if k !in merged {
      TotalElsewhere(entered, pair);
    }
  }

  /** `normalizeReservationLines` */
  method NormalizeLines(lines: seq<TextLine>) returns (out: Option<seq<Line>>)
    ensures out == Normalized(lines)
  {
    hide ParseMilli, Canonical, MergedOk, MergeKey, Entered, FirstPair;
    if |lines| == 0 {
      return None;
    }
    var merged: map<string, Line> := map[];
    ghost var parsed: seq<Line> := [];
    EmptyMergedOk();
    for n := 0 to |lines|
      invariant ParsedAll(lines[..n]) == Some(parsed) && Pairs(parsed) && MergedOk(merged, Entered(parsed))
    {
      assert lines[..n + 1][..n] == lines[..n];
      var q := ParseMilli(lines[n].qty);
      if q.None? || q.value <= 0 {
        LaterFails(lines, n);
        return None;
      }
      var pair := [lines[n].warehouse, lines[n].sku];
      var k := MergeKey(pair);
      EnteredAppend(parsed, Line(pair, q.value));
      EntryOfKey(merged, parsed, Line(pair, q.value));
      MergeOne(merged, Entered(parsed), pair, q.value);
      if k in merged {
        merged := merged[k := Line(merged[k].key, merged[k].qty + q.value)];
      } else {
        merged := merged[k := Line(pair, q.value)];
      }
      parsed := parsed + [Line(pair, q.value)];
    }
    assert lines[..|lines|] == lines;
    var sorted := SortLines(merged, Entered(parsed));
    out := Some(sorted);
  }

  lemma EmptyMergedOk()
    ensures Pairs([]) && MergedOk(map[], Entered([]))
  {
  }

  lemma {:induction false} LaterFails(lines: seq<TextLine>, n: nat)
    requires n < |lines| && (ParseMilli(lines[n].qty).None? || ParseMilli(lines[n].qty).value <= 0)
    ensures ParsedAll(lines).None?
  {
    if n < |lines| - 1 {
      LaterFails(lines[..|lines| - 1], n);
    }
  }

  /** The merged entries in (warehouse, SKU) order. */
  method SortLines(merged: map<string, Line>, ghost entered: seq<Line>) returns (out: seq<Line>)
    requires MergedOk(merged, entered)
    ensures out == Canonical(entered)
  {
    hide KeyLess, Total, MergeKey;
    var byKey: map<Key, int> := map[];
    var rest := merged.Keys;
    while rest != {}
      invariant rest <= merged.Keys
      invariant byKey.Keys == set k | k in merged.Keys - rest :: merged[k].key
      invariant forall x :: x in byKey ==> byKey[x] == Total(entered, x)
    {
      var k :| k in rest;
      byKey := byKey[merged[k].key := merged[k].qty];
      rest := rest - {k};
    }
    forall p | p in Keys(entered)
      ensures p in byKey
    {
      assert MergeKey(p) in merged.Keys - rest;
    }
    assert byKey.Keys == Keys(entered);
    out := SortEntries(byKey);
    forall k | k in Keys(out)
      ensures Total(out, k) == Total(entered, k)
    {
      var i :| 0 <= i < |out| && out[i].key == k;
      TotalOfSorted(out, i);
    }
    CanonicalKeepsDemand(entered);
    CanonicalIsSorted(entered);
    SortedDemandIsUnique(out, Canonical(entered));
  }
}
