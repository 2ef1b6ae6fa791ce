/**
 The canonical text of `experiment_records.canonical_text`: a printer for booleans, integers,
 strings, lists and tables on which every preregistration digest rests.

 A Python `dict` remembers the order in which its keys were inserted, so a table is a sequence of
 entries here. What two values mean, independently of that order, is a `Document`, in which a table
 is a map.
 */
module CanonicalJson {
  import opened Basics

  datatype Entry<+T> = Entry(key: string, value: T)

  /** `Unsupported` stands for every Python type that has no canonical text (a float, a date, None). */
  datatype Value =
    | Bool(flag: bool)
    | Int(number: int)
    | Str(text: string)
    | List(items: seq<Value>)
    | Table(entries: seq<Entry<Value>>)
    | Unsupported

  datatype Document =
    | DBool(flag: bool)
    | DInt(number: int)
    | DStr(text: string)
    | DList(items: seq<Document>)
    | DTable(content: map<string, Document>)

  // ---------------------------------------------------------------- values and their meaning

  ghost predicate DistinctKeys<T>(es: seq<Entry<T>>) {
    forall i, j | 0 <= i < j < |es| :: es[i].key != es[j].key
  }

  /** What every Python value satisfies: no dict, at any depth, holds a key twice. */
  ghost predicate WellFormed(v: Value) {
    match v
    case List(items) => forall i | 0 <= i < |items| :: WellFormed(items[i])
    case Table(entries) =>
      DistinctKeys(entries) && forall i | 0 <= i < |entries| :: WellFormed(entries[i].value)
    case _ => true
  }

  predicate IsAscii(s: string) {
    forall i | 0 <= i < |s| :: s[i] < 128 as char
  }

  /** Neither `raise ValueError` nor `key.encode("ascii")` is reached on `v`. */
  predicate HasText(v: Value) {
    match v
    case List(items) => forall i | 0 <= i < |items| :: HasText(items[i])
    case Table(entries) =>
      forall i | 0 <= i < |entries| :: IsAscii(entries[i].key) && HasText(entries[i].value)
    case Unsupported => false
    case _ => true
  }

  /** A dict built by inserting the entries in order: a later value of a key replaces the earlier. */
  function MapOf<T>(es: seq<Entry<T>>): map<string, T> {
    if es == [] then map[] else MapOf(es[..|es| - 1])[es[|es| - 1].key := es[|es| - 1].value]
  }

  function Meaning(v: Value): Document
    requires HasText(v)
  {
    match v
    case Bool(flag) => DBool(flag)
    case Int(number) => DInt(number)
    case Str(text) => DStr(text)
    case List(items) =>
      DList(seq(|items|, i requires 0 <= i < |items| => Meaning(items[i])))
    case Table(entries) =>
      DTable(MapOf(seq(|entries|, i requires 0 <= i < |entries| => Entry(entries[i].key, Meaning(entries[i].value)))))
  }

  // ---------------------------------------------------------------- the printer

  /** Ascending order of the keys' bytes; on ASCII keys a byte is a character. */
  predicate KeyLess(a: string, b: string) {
    |b| != 0 && (|a| == 0 || a[0] < b[0] || (a[0] == b[0] && KeyLess(a[1..], b[1..])))
  }

  function InsertEntry<T>(e: Entry<T>, es: seq<Entry<T>>): seq<Entry<T>> {
    if es == [] || !KeyLess(es[0].key, e.key) then [e] + es else [es[0]] + InsertEntry(e, es[1..])
  }

  /** `sorted(value.items(), key=...)`. */
  function SortEntries<T(!new)>(es: seq<Entry<T>>): (sorted: seq<Entry<T>>)
    ensures multiset(sorted) == multiset(es)
    ensures forall e :: e in sorted <==> e in es
  {
    if es == [] then []
    else
      InsertKeepsEntries(es[0], SortEntries(es[1..]));
      assert es == [es[0]] + es[1..];
      var sorted := InsertEntry(es[0], SortEntries(es[1..]));
      assert forall e :: e in sorted <==> e in multiset(sorted);
      sorted
  }

  lemma InsertKeepsEntries<T>(e: Entry<T>, es: seq<Entry<T>>)
    ensures multiset(InsertEntry(e, es)) == multiset(es) + multiset{e}
  {
    if es == [] || !KeyLess(es[0].key, e.key) {
    } else {
      assert es == [es[0]] + es[1..];
    }
  }

  function Digit(d: nat): char
    requires d < 10
  {
    '0' + d as char
  }

  function NatText(n: nat): string {
    if n < 10 then [Digit(n)] else NatText(n / 10) + [Digit(n % 10)]
  }

  function IntText(n: int): string {
    if n < 0 then "-" + NatText(-n) else NatText(n)
  }

  /** `str.replace` of one character. */
  function Replace(s: string, c: char, with: string): string {
    if s == "" then "" else (if s[0] == c then with else [s[0]]) + Replace(s[1..], c, with)
  }

  function StringText(s: string): string {
    "\"" + Replace(Replace(s, '\\', "\\\\"), '"', "\\\"") + "\""
  }

  function Join(texts: seq<string>): string {
    if texts == [] then "" else if |texts| == 1 then texts[0] else texts[0] + "," + Join(texts[1..])
  }

  function Text(v: Value): string
    requires HasText(v)
  {
    match v
    case Bool(flag) => if flag then "true" else "false"
    case Int(number) => IntText(number)
    case Str(text) => StringText(text)
    case List(items) =>
      "[" + Join(seq(|items|, i requires 0 <= i < |items| => Text(items[i]))) + "]"
    case Table(entries) =>
      var sorted := SortEntries(entries);
      assert forall i | 0 <= i < |sorted| :: sorted[i] in entries;
      "{" + Join(seq(|sorted|, i requires 0 <= i < |sorted| =>
                   StringText(sorted[i].key) + ":" + Text(sorted[i].value))) + "}"
  }

  datatype Error = ValueError

  /** `canonical_text`, its error path included (`UnicodeEncodeError` is a `ValueError`). */
  function CanonicalText(v: Value): Result<string, Error> {
    if HasText(v) then Ok(Text(v)) else Err(ValueError)
  }


  // ---------------------------------------------------------------- a reader for the text

  /** A character after which a printed number cannot go on. */
  predicate Stops(rest: string) {
    rest == "" || !('0' <= rest[0] <= '9')
  }

  function ReadNat(s: string, read: nat): (nat, string) {
    if Stops(s) then (read, s) else ReadNat(s[1..], 10 * read + (s[0] - '0') as nat)
  }

  /** Reads up to the closing quote; the opening one has been consumed. */
  function ReadString(s: string): (r: Option<(string, string)>)
    ensures r.Some? ==> |r.value.1| < |s|
  {
    if s == "" then None
    else if s[0] == '"' then Some(("", s[1..]))
    else if s[0] == '\\' then
      if |s| < 2 then None else Prepend(s[1], ReadString(s[2..]))
    else Prepend(s[0], ReadString(s[1..]))
  }

  function Prepend(c: char, r: Option<(string, string)>): Option<(string, string)> {
    if r.Some? then Some(([c] + r.value.0, r.value.1)) else None
  }

  /** The document at the start of `s` and what follows it. */
  function Read(s: string): (r: Option<(Document, string)>)
    ensures r.Some? ==> |r.value.1| < |s|
    decreases |s|, 1
  {
    if s == "" then None
    else if "true" <= s then Some((DBool(true), s[4..]))
    else if "false" <= s then Some((DBool(false), s[5..]))
    else if s[0] == '"' then
      var r := ReadString(s[1..]);
      if r.Some? then Some((DStr(r.value.0), r.value.1)) else None
    else if s[0] == '[' then
      if 1 < |s| && s[1] == ']' then Some((DList([]), s[2..]))
      else
        var r := ReadItems(s[1..]);
        if r.Some? then Some((DList(r.value.0), r.value.1)) else None
    else if s[0] == '{' then
      if 1 < |s| && s[1] == '}' then Some((DTable(map[]), s[2..]))
      else
        var r := ReadEntries(s[1..]);
        if r.Some? then Some((DTable(MapOf(r.value.0)), r.value.1)) else None
    else if s[0] == '-' then
      if Stops(s[1..]) then None
      else
        ReadNatConsumes(s[1..], 0);
        var r := ReadNat(s[1..], 0);
        Some((DInt(0 - r.0 as int), r.1))
    else if Stops(s) then None
    else
      ReadNatConsumes(s, 0);
      var r := ReadNat(s, 0);
      Some((DInt(r.0), r.1))
  }

  lemma ReadNatConsumes(s: string, read: nat)
    ensures |ReadNat(s, read).1| <= |s|
    ensures !Stops(s) ==> |ReadNat(s, read).1| < |s|
  {
  }

  /** One or more documents between commas, and the closing bracket. */
  function ReadItems(s: string): (r: Option<(seq<Document>, string)>)
    ensures r.Some? ==> |r.value.1| < |s|
    decreases |s|, 2
  {
    var first := Read(s);
    if first.None? || first.value.1 == "" then None
    else if first.value.1[0] == ']' then Some(([first.value.0], first.value.1[1..]))
    else if first.value.1[0] == ',' then
      var others := ReadItems(first.value.1[1..]);
      if others.None? then None else Some(([first.value.0] + others.value.0, others.value.1))
    else None
  }

  /** One or more `"key":document` between commas, and the closing brace. */
  function ReadEntries(s: string): (r: Option<(seq<Entry<Document>>, string)>)
    ensures r.Some? ==> |r.value.1| < |s|
    decreases |s|, 2
  {
    var first := ReadEntry(s);
    if first.None? || first.value.1 == "" then None
    else if first.value.1[0] == '}' then Some(([first.value.0], first.value.1[1..]))
    else if first.value.1[0] == ',' then
      var others := ReadEntries(first.value.1[1..]);
      if others.None? then None else Some(([first.value.0] + others.value.0, others.value.1))
    else None
  }

  function ReadEntry(s: string): (r: Option<(Entry<Document>, string)>)
    ensures r.Some? ==> |r.value.1| < |s|
    decreases |s|, 1
  {
    if s == "" || s[0] != '"' then None
    else
      var key := ReadString(s[1..]);
      if key.None? || key.value.1 == "" || key.value.1[0] != ':' then None
      else
        var item := Read(key.value.1[1..]);
        if item.None? then None else Some((Entry(key.value.0, item.value.0), item.value.1))
  }

  /** The reader recovers exactly what was printed, whatever may follow it. */
  function Parse(s: string): Option<Document> {
    var r := Read(s);
    if r.Some? && r.value.1 == "" then Some(r.value.0) else None
  }

  // ---------------------------------------------------------------- numbers and strings

  lemma {:induction false} ReadNatText(n: nat, rest: string)
    ensures !Stops(NatText(n) + rest)
    ensures ReadNat(NatText(n) + rest, 0) == ReadNat(rest, n)
  {
    if n < 10 {
      assert (NatText(n) + rest)[1..] == rest;
    } else {
      var tail := [Digit(n % 10)] + rest;
      ReadNatText(n / 10, tail);
      assert NatText(n) + rest == NatText(n / 10) + tail;
      assert tail[1..] == rest;
    }
  }

  /** What both replacements write for one character. */
  function EscapeChar(c: char): string {
    if c == '\\' then "\\\\" else if c == '"' then "\\\"" else [c]
  }

  function Escape(s: string): string {
    if s == "" then "" else EscapeChar(s[0]) + Escape(s[1..])
  }

  lemma {:induction false} ReplaceConcat(a: string, b: string, c: char, with: string)
    ensures Replace(a + b, c, with) == Replace(a, c, with) + Replace(b, c, with)
  {
    if a == "" {
      assert a + b == b;
    } else {
      ReplaceConcat(a[1..], b, c, with);
      assert (a + b)[0] == a[0] && (a + b)[1..] == a[1..] + b;
      Regroup(if a[0] == c then with else [a[0]], Replace(a[1..], c, with), Replace(b, c, with));
    }
  }

  lemma Regroup<T>(a: seq<T>, b: seq<T>, c: seq<T>)
    ensures (a + b) + c == a + (b + c)
  {
  }

  /** Escaping the backslashes first and the quotes second escapes each character once. */
  lemma {:induction false} ReplacementsEscape(s: string)
    ensures Replace(Replace(s, '\\', "\\\\"), '"', "\\\"") == Escape(s)
  {
    if s != "" {
      ReplacementsEscape(s[1..]);
      var head := if s[0] == '\\' then "\\\\" else [s[0]];
      var tail := Replace(s[1..], '\\', "\\\\");
      assert Replace(s, '\\', "\\\\") == head + tail;
      ReplaceConcat(head, tail, '"', "\\\"");
      ReplaceHead(s[0]);
    }
  }

  lemma ReplaceHead(c: char)
    ensures Replace(if c == '\\' then "\\\\" else [c], '"', "\\\"") == EscapeChar(c)
  {
    if c == '\\' {
      assert Replace("\\\\"[1..], '"', "\\\"") == "\\";
    }
  }

  lemma {:induction false} ReadEscaped(s: string, rest: string)
    ensures ReadString(Escape(s) + (['"'] + rest)) == Some((s, rest))
  {
    if s == "" {
      assert Escape(s) + (['"'] + rest) == ['"'] + rest;
    } else {
      ReadEscaped(s[1..], rest);
      Regroup(EscapeChar(s[0]), Escape(s[1..]), ['"'] + rest);
      ReadEscapedChar(s[0], Escape(s[1..]) + (['"'] + rest));
      assert s == [s[0]] + s[1..];
    }
  }

  lemma ReadEscapedChar(c: char, tail: string)
    ensures ReadString(EscapeChar(c) + tail) == Prepend(c, ReadString(tail))
  {
    var printed := EscapeChar(c) + tail;
    if c == '\\' || c == '"' {
      assert printed[0] == '\\' && printed[1] == c && printed[2..] == tail;
    } else {
      assert printed[0] == c && printed[1..] == tail;
    }
  }
}
