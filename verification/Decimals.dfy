/** Decimal text: digit strings, and the three-decimal quantities ("NUMERIC(18,3)") that the
    stock services pass around as text.

    Which texts are accepted is said exactly, and every quantity survives printing and parsing. */
module Decimals {

  datatype Option<+T> = None | Some(value: T)

  // ---- digit strings (`BigInt(text)` and `toString()`)

  predicate IsDigit(c: char) { '0' <= c <= '9' }

  predicate AllDigits(s: string) { forall i :: 0 <= i < |s| ==> IsDigit(s[i]) }

  function DigitChar(d: nat): char
    requires d < 10
  {
    ('0' as int + d) as char
  }

  function DigitValue(c: char): nat
    requires IsDigit(c)
  {
    c as int - '0' as int
  }

  function Print(n: nat): (s: string)
    ensures |s| > 0 && AllDigits(s)
    ensures n > 0 ==> s[0] != '0'
  {
    if n < 10 then [DigitChar(n)] else Print(n / 10) + [DigitChar(n % 10)]
  }

  function Value(s: string): nat
    requires AllDigits(s)
  {
    if s == "" then 0 else 10 * Value(s[..|s| - 1]) + DigitValue(s[|s| - 1])
  }

  lemma {:induction false} ValueOfPrint(n: nat)
    ensures Value(Print(n)) == n
  {
    if n >= 10 {
      var s := Print(n);
      assert s[..|s| - 1] == Print(n / 10);
      ValueOfPrint(n / 10);
    }
  }

  lemma PrintIsInjective(a: nat, b: nat)
    requires Print(a) == Print(b)
    ensures a == b
  {
    ValueOfPrint(a);
    ValueOfPrint(b);
  }

  function Zeros(k: nat): (s: string)
    ensures |s| == k && AllDigits(s)
  {
    seq(k, i => '0')
  }

  function PadStart(s: string, width: nat): string {
    if |s| >= width then s else Zeros(width - |s|) + s
  }

  function PadEnd(s: string, width: nat): string {
    if |s| >= width then s else s + Zeros(width - |s|)
  }

  lemma {:induction false} LeadingZeros(k: nat, s: string)
    requires AllDigits(s)
    ensures AllDigits(Zeros(k) + s) && Value(Zeros(k) + s) == Value(s)
    decreases |s|, k
  {
    var t := Zeros(k) + s;
    if s != "" {
      assert t[..|t| - 1] == Zeros(k) + s[..|s| - 1];
      LeadingZeros(k, s[..|s| - 1]);
    } else if k > 0 {
      assert t == Zeros(k) && t[..k - 1] == Zeros(k - 1) + s;
      LeadingZeros(k - 1, s);
    }
  }

  /** A number below 10^width printed and padded has exactly that width. */
  lemma {:induction false} PrintWidth(n: nat, width: nat)
    requires width > 0 && n < Pow10(width)
    ensures |Print(n)| <= width
  {
    if n >= 10 {
      PrintWidth(n / 10, width - 1);
    }
  }

  function Pow10(k: nat): (p: nat)
    ensures p > 0
  {
    if k == 0 then 1 else 10 * Pow10(k - 1)
  }

  // ---- text helpers

  /** The characters `String.prototype.trim` removes. */
  predicate IsSpace(c: char) {
    c in {'\t', '\n', '\U{000B}', '\U{000C}', '\r', ' ', '\U{00A0}', '\U{1680}', '\U{2028}', '\U{2029}', '\U{202F}',
          '\U{205F}', '\U{3000}', '\U{FEFF}'}
    || '\U{2000}' <= c <= '\U{200A}'
  }

  function Trim(s: string): string {
    if s == "" then ""
    else if IsSpace(s[0]) then Trim(s[1..])
    else if IsSpace(s[|s| - 1]) then Trim(s[..|s| - 1])
    else s
  }

  /** The position of the first `c`, or the length when there is none. */
  function IndexOf(s: string, c: char): (i: nat)
    ensures i <= |s| && c !in s[..i] && (i < |s| ==> s[i] == c)
  {
    if s == "" || s[0] == c then 0 else 1 + IndexOf(s[1..], c)
  }

  lemma IndexOfUnique(s: string, c: char, i: nat)
    requires i < |s| && s[i] == c && c !in s[..i]
    ensures IndexOf(s, c) == i
  {
  }

  // ---- quantities with three decimals

  const SCALE := 1000

  /** The whole part of the accepted text: `0|[1-9]\d*`. */
  predicate IsWhole(s: string) {
    s != "" && AllDigits(s) && (s[0] == '0' ==> |s| == 1)
  }

  /** `(0|[1-9]\d*)(?:\.(\d{1,3}))?`, in thousandths. */
  function ParseBody(body: string): Option<int> {
    var dot := IndexOf(body, '.');
    var whole := body[..dot];
    var frac := if dot < |body| then body[dot + 1..] else "";
    if !IsWhole(whole) || !AllDigits(frac) || |frac| > 3 || (dot < |body| && frac == "") then None
    else Some(Value(whole) * SCALE + Value(PadEnd(frac, 3)))
  }

  /** The trimmed text, with an optional minus sign. */
  function ParseMilli(text: string): Option<int> {
    var s := Trim(text);
    var negative := s != "" && s[0] == '-';
    match ParseBody(if negative then s[1..] else s)
    case None => None
    case Some(abs) => Some(if negative then -abs else abs)
  }

  function FormatMilli(milli: int): string {
    var abs := if milli < 0 then -milli else milli;
    (if milli < 0 then "-" else "") + Print(abs / SCALE) + "." + PadStart(Print(abs % SCALE), 3)
  }

  lemma FractionText(r: nat)
    requires r < SCALE
    ensures var f := PadStart(Print(r), 3); |f| == 3 && AllDigits(f) && Value(f) == r
  {
    assert Pow10(3) == SCALE;
    PrintWidth(r, 3);
    LeadingZeros(3 - |Print(r)|, Print(r));
    ValueOfPrint(r);
  }

  lemma BodyOfText(whole: string, frac: string)
    requires IsWhole(whole) && AllDigits(frac) && |frac| == 3
    ensures ParseBody(whole + "." + frac) == Some(Value(whole) * SCALE + Value(frac))
  {
    hide Value;
    var body := whole + "." + frac;
    assert body[..|whole|] == whole && body[|whole| + 1..] == frac;
    IndexOfUnique(body, '.', |whole|);
  }

  /** Text in the accepted shape with three decimals parses to what its digits say. */
  lemma ParseOfText(sign: string, whole: string, frac: string)
    requires sign == "" || sign == "-"
    requires IsWhole(whole) && AllDigits(frac) && |frac| == 3
    ensures var abs := Value(whole) * SCALE + Value(frac);
            ParseMilli(sign + whole + "." + frac) == Some(if sign == "-" then -abs else abs)
  {
    hide Value, ParseBody, IsSpace;
    var s, body := sign + whole + "." + frac, whole + "." + frac;
    BodyOfText(whole, frac);
    assert s == sign + body;
    assert Trim(s) == s by {
      assert !IsSpace(s[0]) && !IsSpace(s[|s| - 1]) by {
        NotSpace(s[0]);
        NotSpace(s[|s| - 1]);
      }
    }
    assert sign == "-" ==> s[1..] == body;
    assert sign == "" ==> s == body && s[0] == whole[0];
  }

  lemma NotSpace(c: char)
    requires IsDigit(c) || c == '-'
    ensures !IsSpace(c)
  {
  }

  /** Every quantity survives being printed and parsed, negative ones too. */
  lemma ParseOfFormat(milli: int)
    ensures ParseMilli(FormatMilli(milli)) == Some(milli)
  {
    hide ParseMilli, PadStart;
    var abs := if milli < 0 then -milli else milli;
    assert IsWhole(Print(abs / SCALE)) by {
      assert Print(0) == "0";
    }
    FractionText(abs % SCALE);
    ValueOfPrint(abs / SCALE);
    ParseOfText(if milli < 0 then "-" else "", Print(abs / SCALE), PadStart(Print(abs % SCALE), 3));
  }

  /** Distinct quantities print differently. */
  lemma FormatIsInjective(a: int, b: int)
    requires FormatMilli(a) == FormatMilli(b)
    ensures a == b
  {
    ParseOfFormat(a);
    ParseOfFormat(b);
  }

  // ---- exactly which texts are accepted

  /** The white space and line ends of ECMAScript, by code point. */
  lemma SpacesAre(c: char)
    ensures IsSpace(c) <==> c as int in {0x9, 0xA, 0xB, 0xC, 0xD, 0x20, 0xA0, 0x1680, 0x2028, 0x2029, 0x202F, 0x205F, 0x3000, 0xFEFF,
                                         0x2000, 0x2001, 0x2002, 0x2003, 0x2004, 0x2005, 0x2006, 0x2007, 0x2008, 0x2009, 0x200A}
  {
  }

  predicate AllSpace(s: string) { forall i :: 0 <= i < |s| ==> IsSpace(s[i]) }

  /** Trimming takes the white space off both ends and nothing else. */
  lemma {:induction false} TrimIs(before: string, s: string, after: string)
    requires AllSpace(before) && AllSpace(after) && (s != "" ==> !IsSpace(s[0]) && !IsSpace(s[|s| - 1]))
    ensures Trim(before + s + after) == s
    decreases |before| + |after|
  {
    hide IsSpace;
    var t := before + s + after;
    if before != "" {
      assert t[0] == before[0] && t[1..] == before[1..] + s + after;
      TrimIs(before[1..], s, after);
    } else if s == "" && after != "" {
      assert t[0] == after[0] && t[1..] == "" + "" + after[1..];
      TrimIs("", "", after[1..]);
    } else if after != "" {
      var n := |after| - 1;
      assert t[|t| - 1] == after[n] && t[..|t| - 1] == "" + s + after[..n];
      TrimIs("", s, after[..n]);
    } else {
      assert t == s;
    }
  }

  lemma TenfoldEnd(s: string, k: nat)
    requires AllDigits(s) && k <= 3
    ensures AllDigits(s + Zeros(k)) && Value(s + Zeros(k)) == Value(s) * Pow10(k)
  {
    assert Pow10(0) == 1 && Pow10(1) == 10 && Pow10(2) == 100 && Pow10(3) == 1000;
    if k == 0 {
      assert s + Zeros(0) == s;
    } else {
      TenfoldEnd(s, k - 1);
      var t := s + Zeros(k);
      assert t[..|t| - 1] == s + Zeros(k - 1);
    }
  }

  /** A whole part, and perhaps a dot with one to three digits. */
  predicate IsBody(body: string, whole: string, frac: string) {
    IsWhole(whole) && AllDigits(frac) && |frac| <= 3 && body == if frac == "" then whole else whole + "." + frac
  }

  /** Such text, with an optional minus sign and white space around, is what its digits say. */
  lemma AcceptedText(before: string, sign: string, body: string, after: string, whole: string, frac: string)
    requires (sign == "" || sign == "-") && IsBody(body, whole, frac) && AllSpace(before) && AllSpace(after)
    ensures var abs := Value(whole) * 1000 + Value(frac) * Pow10(3 - |frac|);
            ParseMilli(before + (sign + body) + after) == Some(if sign == "-" then -abs else abs)
  {
    hide Value, ParseBody, IsSpace, AllSpace, Trim;
    AcceptedBody(body, whole, frac);
    var s := sign + body;
    assert sign == "-" ==> s[1..] == body;
    assert sign == "" ==> s == body;
    NotSpace(s[0]);
    NotSpace(s[|s| - 1]);
    TrimIs(before, s, after);
  }

  lemma AcceptedBody(body: string, whole: string, frac: string)
    requires IsBody(body, whole, frac)
    ensures ParseBody(body) == Some(Value(whole) * 1000 + Value(frac) * Pow10(3 - |frac|))
  {
    hide Value;
    TenfoldEnd(frac, 3 - |frac|);
    assert frac + Zeros(3 - |frac|) == PadEnd(frac, 3);
    if frac == "" {
      assert forall i :: 0 <= i < |body| ==> body[i] != '.';
      assert IndexOf(body, '.') == |body| && body[..|body|] == body;
    } else {
      assert body[..|whole|] == whole && body[|whole| + 1..] == frac;
      IndexOfUnique(body, '.', |whole|);
    }
  }

  /** And no other text is accepted. */
  lemma OnlyAcceptedText(text: string) returns (sign: string, body: string, whole: string, frac: string)
    requires ParseMilli(text).Some?
    ensures (sign == "" || sign == "-") && IsBody(body, whole, frac) && Trim(text) == sign + body
  {
    hide Trim, ParseBody, IsBody;
    var s := Trim(text);
    sign := if s != "" && s[0] == '-' then "-" else "";
    body := if sign == "-" then s[1..] else s;
    assert s == sign + body;
    whole, frac := OnlyAcceptedBody(body);
  }

  lemma OnlyAcceptedBody(body: string) returns (whole: string, frac: string)
    requires ParseBody(body).Some?
    ensures IsBody(body, whole, frac)
  {
    hide Value, IsDigit;
    var dot := IndexOf(body, '.');
    whole, frac := body[..dot], if dot < |body| then body[dot + 1..] else "";
    assert dot < |body| ==> body == body[..dot] + [body[dot]] + body[dot + 1..];
  }
}
