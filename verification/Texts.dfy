/** Pieces of text: prefixes, splitting and joining, and the characters of codes.

    Joined texts are taken apart in two ways: by the first separator, when no piece holds one, and by the
    first place where two of them part, when no piece goes on after another with a separator. The
    second also covers texts that are cut. */
module Texts {
  import opened Decimals

  predicate IsAlnum(c: char) { 'A' <= c <= 'Z' || '0' <= c <= '9' }

  /** `[A-Z0-9._/-]` */
  predicate IsCodeChar(c: char) { IsAlnum(c) || c in {'.', '_', '/', '-'} }

  predicate AllCodeChars(s: string) { forall i :: 0 <= i < |s| ==> IsCodeChar(s[i]) }

  /** `slice(0, n)` */
  function Prefix(s: string, n: nat): string { if |s| <= n then s else s[..n] }

  lemma CodeIsTrimmed(s: string)
    requires AllCodeChars(s)
    ensures Trim(s) == s
  {
    if s != "" {
      assert IsCodeChar(s[0]) && IsCodeChar(s[|s| - 1]);
    }
  }

  // ---- texts that begin alike

  /** Does the second text go on after the first with the separator? */
  predicate GoesOn(v: string, w: string, sep: char) { |v| < |w| && w[..|v|] == v && w[|v|] == sep }

  /** How many characters two texts share at the start. */
  function Common(x: string, y: string): (c: nat)
    ensures c <= |x| && c <= |y| && x[..c] == y[..c] && (c < |x| && c < |y| ==> x[c] != y[c])
  {
    if x == "" || y == "" || x[0] != y[0] then 0
    else
      var c := Common(x[1..], y[1..]);
      assert x[..c + 1] == [x[0]] + x[1..][..c] && y[..c + 1] == [y[0]] + y[1..][..c];
      c + 1
  }

  /** Nothing, or more after a separator. */
  predicate Follows(r: string, sep: char) { r == "" || r[0] == sep }

  /** Two texts with a common head and different next pieces, cut: they are equal exactly when the cut
      comes before the pieces part. */
  lemma CutEqualIff(head: string, t: string, r: string, u: string, s: string, sep: char, max: nat)
    requires t != u && !GoesOn(t, u, sep) && !GoesOn(u, t, sep) && Follows(r, sep) && Follows(s, sep)
    ensures Prefix(head + t + r, max) == Prefix(head + u + s, max) <==> |head| + Common(t, u) >= max
  {
    hide Common;
    var c := Common(t, u);
    var x, y, p := head + t + r, head + u + s, |head| + c;
    assert x[..p] == head + t[..c] && y[..p] == head + u[..c];
    if p >= max {
      assert x[..p][..max] == x[..max] && y[..p][..max] == y[..max];
      PrefixIs(x, max);
      PrefixIs(y, max);
    } else {
      PartAt(head, t, r, u, s, sep, max);
    }
  }

  lemma PrefixIs(x: string, max: nat)
    ensures |x| >= max ==> Prefix(x, max) == x[..max]
  {
  }

  /** Within the cut, the place where the pieces part shows. */
  lemma PartAt(head: string, t: string, r: string, u: string, s: string, sep: char, max: nat)
    requires t != u && !GoesOn(t, u, sep) && !GoesOn(u, t, sep) && Follows(r, sep) && Follows(s, sep)
    requires |head| + Common(t, u) < max
    ensures Prefix(head + t + r, max) != Prefix(head + u + s, max)
  {
    hide Common;
    var c := Common(t, u);
    var x, y, p := head + t + r, head + u + s, |head| + c;
    assert t[..c] == u[..c];
    assert c < |t| ==> x[p] == t[c];
    assert c < |u| ==> y[p] == u[c];
    if c == |t| {
      assert t[..c] == t && u[..c] == t && c < |u|;
      assert |x| == p || x[p] == sep;
    } else if c == |u| {
      assert u[..c] == u && t[..c] == u;
      assert |y| == p || y[p] == sep;
    }
    CharOfPrefix(x, max, p);
    CharOfPrefix(y, max, p);
  }

  lemma CharOfPrefix(x: string, max: nat, p: nat)
    requires p < max
    ensures p < |x| <==> p < |Prefix(x, max)|
    ensures p < |x| ==> Prefix(x, max)[p] == x[p]
  {
  }

  // ---- splitting and joining

  function Split(s: string, sep: char): (parts: seq<string>)
    ensures parts != []
    decreases |s|
  {
    var i := IndexOf(s, sep);
    if i == |s| then [s] else [s[..i]] + Split(s[i + 1..], sep)
  }

  function JoinText(parts: seq<string>, sep: char): string {
    if parts == [] then "" else if |parts| == 1 then parts[0] else parts[0] + [sep] + JoinText(parts[1..], sep)
  }

  lemma {:induction false} SplitOfJoin(parts: seq<string>, sep: char)
    requires parts != [] && forall i :: 0 <= i < |parts| ==> sep !in parts[i]
    ensures Split(JoinText(parts, sep), sep) == parts
  {
    var s, first := JoinText(parts, sep), parts[0];
    if |parts| == 1 {
      Absent(first, sep);
      assert parts == [first];
    } else {
      var rest := JoinText(parts[1..], sep);
      SplitOfJoin(parts[1..], sep);
      SplitFirst(first, rest, sep);
      assert s == first + [sep] + rest;
      assert parts == [first] + parts[1..];
    }
  }

  lemma SplitFirst(first: string, rest: string, sep: char)
    requires sep !in first
    ensures Split(first + [sep] + rest, sep) == [first] + Split(rest, sep)
  {
    var s := first + [sep] + rest;
    assert s[..|first|] == first && s[|first|] == sep && s[|first| + 1..] == rest;
    IndexOfUnique(s, sep, |first|);
  }

  lemma Absent(s: string, sep: char)
    requires sep !in s
    ensures IndexOf(s, sep) == |s| && Split(s, sep) == [s]
  {
  }
}
