/** The text form of a cursor: `key:value` pairs joined by commas, numbers in decimal, dates as their
    milliseconds, strings in URI component encoding. Base64 around it is taken as
    lossless. */
module CursorText {
  import opened Decimals
  import opened Paginator
  import opened Texts
  import opened UriText
  import D = Decimals

  /** The declared type of an entity's property. */
  datatype Kind = NumberKey | StringKey | DateKey

  function KindOf(v: Value): Kind {
    match v
    case Num(_) => NumberKey
    case Text(_) => StringKey
    case Moment(_) => DateKey
  }

  // ---- numbers

  function PrintInt(n: int): string { if n < 0 then "-" + Print(-n) else Print(n) }

  function DigitPrefix(s: string): (r: string)
    ensures AllDigits(r) && (AllDigits(s) ==> r == s)
  {
    if s == "" || !IsDigit(s[0]) then "" else [s[0]] + DigitPrefix(s[1..])
  }

  /** `parseInt`: a sign, then as many digits as there are; nothing for text without a digit. */
  function ParseInt(text: string): Option<int> {
    var s := Trim(text);
    var signed := s != "" && (s[0] == '-' || s[0] == '+');
    var digits := DigitPrefix(if signed then s[1..] else s);
    if digits == "" then None
    else
      var n: int := D.Value(digits);
      Some(if s[0] == '-' then -n else n)
  }

  lemma ParseOfPrint(n: int)
    ensures ParseInt(PrintInt(n)) == Some(n)
    ensures PrintInt(n)[0] == '-' <==> n < 0
    ensures ',' !in PrintInt(n) && ':' !in PrintInt(n)
  {
    hide D.Value, IsSpace, Print, DigitPrefix;
    var abs := if n < 0 then -n else n;
    var digits, s := Print(abs), PrintInt(n);
    ValueOfPrint(abs);
    NotSpace(s[0]);
    NotSpace(s[|s| - 1]);
    assert Trim(s) == s;
    assert n < 0 ==> s[1..] == digits;
  }

  // ---- values

  function EncodeValue(v: Value): string {
    match v
    case Num(n) => PrintInt(n)
    case Text(s) => EncodeUri(s)
    case Moment(us) => PrintInt(us / 1000)
  }

  function DecodeValue(kind: Kind, raw: string): Option<Value> {
    match kind
    case StringKey =>
      var s := DecodeUri(raw);
      if s.None? then None else Some(Text(s.value))
    case NumberKey =>
      var n := ParseInt(raw);
      if n.None? then None else Some(Num(n.value))
    case DateKey =>
      var ms := ParseInt(raw);
      if ms.None? then None else Some(Moment(1000 * ms.value))
  }

  lemma ValueSurvives(v: Value)
    ensures DecodeValue(KindOf(v), EncodeValue(v)) == Some(Cut(v))
    ensures ',' !in EncodeValue(v) && ':' !in EncodeValue(v)
  {
    hide ParseInt, PrintInt, EncodeUri, DecodeUri;
    match v
    case Num(n) => ParseOfPrint(n);
    case Text(s) => DecodeOfEncodeUri(s);
    case Moment(us) => ParseOfPrint(us / 1000);
  }

  // ---- cursors

  function Column(name: string, v: Value): string { name + ":" + EncodeValue(v) }

  function Columns(names: seq<string>, row: Row): seq<string>
    requires |names| == |row|
  {
    seq(|row|, i requires 0 <= i < |row| => Column(names[i], row[i]))
  }

  /** `encode` */
  function Encode(names: seq<string>, row: Row): string
    requires |names| == |row|
  {
    JoinText(Columns(names, row), ',')
  }

  /** One column of `decode`: an unknown key, or a number or date without digits, is an error. */
  function DecodeColumn(kinds: map<string, Kind>, column: string): Option<(string, Value)> {
    var parts := Split(column, ':');
    if parts[0] !in kinds then None
    else
      var raw := if |parts| > 1 then parts[1] else "undefined";
      var v := DecodeValue(kinds[parts[0]], raw);
      if v.None? then None else Some((parts[0], v.value))
  }

  function DecodeColumns(kinds: map<string, Kind>, columns: seq<string>): Option<map<string, Value>> {
    if columns == [] then Some(map[])
    else
      var n := |columns| - 1;
      var before, last := DecodeColumns(kinds, columns[..n]), DecodeColumn(kinds, columns[n]);
      if before.None? || last.None? then None else Some(before.value[last.value.0 := last.value.1])
  }

  /** `decode` */
  function Decode(kinds: map<string, Kind>, text: string): Option<map<string, Value>> {
    DecodeColumns(kinds, Split(text, ','))
  }

  /** The pagination keys a cursor carries, up to the first it lacks. */
  function Carried(m: map<string, Value>, names: seq<string>): Row {
    if names == [] || names[0] !in m then [] else [m[names[0]]] + Carried(m, names[1..])
  }

  lemma {:induction false} CarriedAll(m: map<string, Value>, names: seq<string>, key: Row)
    requires |names| == |key| && forall i :: 0 <= i < |names| ==> names[i] in m && m[names[i]] == key[i]
    ensures Carried(m, names) == key
  {
    if names != [] {
      CarriedAll(m, names[1..], key[1..]);
    }
  }

  ghost predicate Names(names: seq<string>) {
    && (forall i :: 0 <= i < |names| ==> ',' !in names[i] && ':' !in names[i])
    && (forall i, j :: 0 <= i < j < |names| ==> names[i] != names[j])
  }

  lemma ColumnSurvives(kinds: map<string, Kind>, name: string, v: Value)
    requires ',' !in name && ':' !in name && name in kinds && kinds[name] == KindOf(v)
    ensures ',' !in Column(name, v)
    ensures DecodeColumn(kinds, Column(name, v)) == Some((name, Cut(v)))
  {
    hide EncodeValue, DecodeValue;
    ValueSurvives(v);
    var raw := EncodeValue(v);
    SplitFirst(name, raw, ':');
    Absent(raw, ':');
    assert name + ":" + raw == name + [':'] + raw;
    assert [name] + [raw] == [name, raw];
  }

  /** A column without a colon is read as the text that JavaScript prints for a missing value. */
  lemma ColumnWithoutColon(kinds: map<string, Kind>, name: string)
    requires ':' !in name && name in kinds
    ensures DecodeColumn(kinds, name) == match kinds[name] case StringKey => Some((name, Text("undefined"))) case _ => None
  {
    hide DecodeUri, IsSpace, D.Value;
    Absent(name, ':');
    var missing := "undefined";
    PlainIsKept(missing);
    LettersAreNoSpace(missing);
  }

  lemma LettersAreNoSpace(s: string)
    requires s == "undefined"
    ensures Trim(s) == s && DigitPrefix(s) == ""
  {
  }

  /** The map holds the truncated value of every key, and nothing else. */
  ghost predicate Holding(m: map<string, Value>, names: seq<string>, row: Row) {
    && |names| == |row|
    && (forall k :: k in m <==> k in names)
    && forall i :: 0 <= i < |row| ==> names[i] in m && m[names[i]] == Cut(row[i])
  }

  lemma {:induction false} ColumnsSurvive(kinds: map<string, Kind>, names: seq<string>, row: Row)
    requires Names(names) && |names| == |row|
    requires forall i :: 0 <= i < |row| ==> names[i] in kinds && kinds[names[i]] == KindOf(row[i])
    ensures var m := DecodeColumns(kinds, Columns(names, row)); m.Some? && Holding(m.value, names, row)
  {
    hide Column, DecodeColumn, Cut, Columns, Holding;
    ColumnsFront(names, row);
    if row == [] {
      NothingHeld(names, row);
    } else {
      var n := |row| - 1;
      ColumnsSurvive(kinds, names[..n], row[..n]);
      ColumnSurvives(kinds, names[n], row[n]);
      OneColumnMore(DecodeColumns(kinds, Columns(names[..n], row[..n])).value, names, row);
    }
  }

  lemma ColumnsFront(names: seq<string>, row: Row)
    requires |names| == |row|
    ensures var all := Columns(names, row);
            && |all| == |row|
            && (row != [] ==> var n := |row| - 1; all[..n] == Columns(names[..n], row[..n]) && all[n] == Column(names[n], row[n]))
  {
    hide Column;
  }

  lemma NothingHeld(names: seq<string>, row: Row)
    requires |names| == |row| == 0
    ensures Holding(map[], names, row)
  {
  }

  lemma OneColumnMore(m: map<string, Value>, names: seq<string>, row: Row)
    requires Names(names) && |names| == |row| > 0 && Holding(m, names[..|row| - 1], row[..|row| - 1])
    ensures Holding(m[names[|row| - 1] := Cut(row[|row| - 1])], names, row)
  {
    hide Cut;
    var n := |row| - 1;
    assert names == names[..n] + [names[n]];
    assert forall i :: 0 <= i < n ==> names[..n][i] == names[i] && row[..n][i] == row[i];
  }

  /** A row's cursor, written out and read back, is its key: strings and numbers as they are, dates in
      whole milliseconds. */
  lemma DecodeOfEncode(kinds: map<string, Kind>, names: seq<string>, row: Row)
    requires Names(names) && |names| == |row| > 0
    requires forall i :: 0 <= i < |row| ==> names[i] in kinds && kinds[names[i]] == KindOf(row[i])
    ensures var m := Decode(kinds, Encode(names, row));
            m.Some? && (forall k :: k in m.value <==> k in names) && Carried(m.value, names) == Key(row)
  {
    hide Column, DecodeColumns, DecodeColumn;
    var columns := Columns(names, row);
    ColumnsSurvive(kinds, names, row);
    forall i | 0 <= i < |columns|
      ensures ',' !in columns[i]
    {
      ColumnSurvives(kinds, names[i], row[i]);
    }
    SplitOfJoin(columns, ',');
    CarriedAll(Decode(kinds, Encode(names, row)).value, names, Key(row));
  }
}
