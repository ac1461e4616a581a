/** SKU codes: their normal form, and the codes of generated variants. A code is a prefix and one token
    for each chosen value, joined by dashes and cut to 64 characters; what the cut does to two
    codes is said exactly. */
module SkuCodes {
  import opened Decimals
  import opened Texts

  /** Library text functions: `plain` takes accents off (`normalize('NFD')`, marks removed, the barred d
      replaced), `upper` is `toUpperCase`. */
  datatype Library = Library(plain: string -> string, upper: string -> string)

  /** All that is used of them: upper-casing leaves code characters alone. */
  ghost predicate Faithful(lib: Library) { forall s :: AllCodeChars(s) ==> lib.upper(s) == s }

  const SKU_MAX := 64
  const TOKEN_MAX := 8

  /** `^[A-Z0-9][A-Z0-9._/-]{1,63}$` */
  predicate IsSku(s: string) { 2 <= |s| <= SKU_MAX && IsAlnum(s[0]) && AllCodeChars(s) }

  /** `normalizeSku`; nothing is the error. */
  function NormalizeSku(raw: string, lib: Library): Option<string> {
    var s := lib.upper(Trim(raw));
    if IsSku(s) then Some(s) else None
  }

  /** A SKU is its own normal form. */
  lemma NormalOfSku(s: string, lib: Library)
    requires Faithful(lib) && IsSku(s)
    ensures NormalizeSku(s, lib) == Some(s)
  {
    CodeIsTrimmed(s);
  }

  // ---- tokens

  function OnlyAlnum(s: string): (r: string)
    ensures forall i :: 0 <= i < |r| ==> IsAlnum(r[i])
  {
    if s == "" then "" else (if IsAlnum(s[0]) then [s[0]] else "") + OnlyAlnum(s[1..])
  }

  /** `toSkuToken` */
  function TokenOf(value: string, lib: Library): (r: string)
    ensures 1 <= |r| <= TOKEN_MAX && forall i :: 0 <= i < |r| ==> IsAlnum(r[i])
  {
    var token := Prefix(OnlyAlnum(lib.upper(lib.plain(value))), TOKEN_MAX);
    if token == "" then "VAL" else token
  }

  /** An attribute value: what it is called, and the token given for it, if any. */
  datatype Label = Label(value: string, skuToken: string)

  function Token(l: Label, lib: Library): string {
    if l.skuToken != "" then lib.upper(l.skuToken) else TokenOf(l.value, lib)
  }

  /** A derived token is made of code characters, and no token goes on after another with a dash. */
  lemma DerivedTokens(v: string, w: string, lib: Library)
    ensures AllCodeChars(TokenOf(v, lib)) && !GoesOn(TokenOf(v, lib), TokenOf(w, lib), '-')
  {
  }

  // ---- codes

  function FullCode(prefix: string, tokens: seq<string>): string { prefix + "-" + JoinText(tokens, '-') }

  /** The code of a variant: cut to 64 characters and normalised. */
  function Code(prefix: string, tokens: seq<string>, lib: Library): Option<string> {
    NormalizeSku(Prefix(FullCode(prefix, tokens), SKU_MAX), lib)
  }

  lemma {:induction false} JoinOfClean(tokens: seq<string>)
    requires forall i :: 0 <= i < |tokens| ==> AllCodeChars(tokens[i])
    ensures AllCodeChars(JoinText(tokens, '-'))
  {
    if |tokens| > 1 {
      JoinOfClean(tokens[1..]);
    }
  }

  /** With a SKU before and code characters in the tokens, the code is what is left after the cut. */
  lemma CodeIs(prefix: string, tokens: seq<string>, lib: Library)
    requires Faithful(lib) && IsSku(prefix) && forall i :: 0 <= i < |tokens| ==> AllCodeChars(tokens[i])
    ensures Code(prefix, tokens, lib) == Some(Prefix(FullCode(prefix, tokens), SKU_MAX))
  {
    hide NormalizeSku, Faithful;
    JoinOfClean(tokens);
    NormalOfSku(Prefix(FullCode(prefix, tokens), SKU_MAX), lib);
  }

  /** What precedes token `i`. */
  function Before(head: string, tokens: seq<string>, i: nat): string
    requires i <= |tokens|
    decreases i
  {
    if i == 0 then head else Before(head, tokens, i - 1) + tokens[i - 1] + "-"
  }

  function After(tokens: seq<string>, i: nat): (r: string)
    requires i < |tokens|
    ensures Follows(r, '-')
  {
    if i == |tokens| - 1 then "" else "-" + JoinText(tokens[i + 1..], '-')
  }

  /** A joined code taken apart at one of its tokens. */
  lemma {:induction false} CodeAt(head: string, tokens: seq<string>, i: nat)
    requires i < |tokens|
    ensures head + JoinText(tokens, '-') == Before(head, tokens, i) + tokens[i] + After(tokens, i)
  {
    hide JoinText;
    if i == 0 {
      JoinFrom(tokens, 0);
      assert tokens[0..] == tokens;
      assert head + (tokens[0] + After(tokens, 0)) == head + tokens[0] + After(tokens, 0);
    } else {
      CodeAt(head, tokens, i - 1);
      NextToken(Before(head, tokens, i - 1), tokens, i);
    }
  }

  lemma JoinFrom(tokens: seq<string>, i: nat)
    requires i < |tokens|
    ensures JoinText(tokens[i..], '-') == tokens[i] + After(tokens, i)
  {
    var rest := tokens[i..];
    assert rest[0] == tokens[i] && rest[1..] == tokens[i + 1..];
    if |rest| > 1 {
      var more := JoinText(rest[1..], '-');
      assert JoinText(rest, '-') == tokens[i] + ['-'] + more;
      assert tokens[i] + ['-'] + more == tokens[i] + ("-" + more);
    } else {
      assert tokens[i] + "" == tokens[i];
    }
  }

  lemma NextToken(before: string, tokens: seq<string>, i: nat)
    requires 0 < i < |tokens|
    ensures before + tokens[i - 1] + After(tokens, i - 1) == before + tokens[i - 1] + "-" + tokens[i] + After(tokens, i)
  {
    JoinFrom(tokens, i);
    hide JoinText;
    var b, t, u, r := before + tokens[i - 1], "-", tokens[i], After(tokens, i);
    assert b + (t + (u + r)) == b + t + u + r;
  }

  lemma {:induction false} SameBefore(head: string, xs: seq<string>, ys: seq<string>, i: nat)
    requires i <= |xs| && i <= |ys| && forall j :: 0 <= j < i ==> xs[j] == ys[j]
    ensures Before(head, xs, i) == Before(head, ys, i)
    decreases i
  {
    if i > 0 {
      SameBefore(head, xs, ys, i - 1);
    }
  }

  /** Codes of tokens that first differ at `i` are equal after the cut exactly when the cut comes before
      these tokens part. */
  lemma CutCodesEqualIff(prefix: string, xs: seq<string>, ys: seq<string>, i: nat)
    requires i < |xs| && i < |ys| && (forall j :: 0 <= j < i ==> xs[j] == ys[j]) && xs[i] != ys[i]
    requires !GoesOn(xs[i], ys[i], '-') && !GoesOn(ys[i], xs[i], '-')
    ensures Prefix(FullCode(prefix, xs), SKU_MAX) == Prefix(FullCode(prefix, ys), SKU_MAX)
            <==> |Before(prefix + "-", xs, i)| + Common(xs[i], ys[i]) >= SKU_MAX
  {
    hide JoinText, Before, After, Common, Prefix;
    CodeAt(prefix + "-", xs, i);
    CodeAt(prefix + "-", ys, i);
    SameBefore(prefix + "-", xs, ys, i);
    CutEqualIff(Before(prefix + "-", xs, i), xs[i], After(xs, i), ys[i], After(ys, i), '-', SKU_MAX);
  }

  /** A prefix of full length is all that remains. */
  lemma LongPrefixIsTheCode(prefix: string, tokens: seq<string>, lib: Library)
    requires Faithful(lib) && IsSku(prefix) && |prefix| == SKU_MAX
    ensures Code(prefix, tokens, lib) == Some(prefix)
  {
    assert Prefix(FullCode(prefix, tokens), SKU_MAX) == prefix;
    NormalOfSku(prefix, lib);
  }
}
