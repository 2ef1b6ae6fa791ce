/**
 The canonical text is one-to-one: a reader recovers the document from it, two values share a text
 exactly when they mean the same document, and the order in which a table was filled never shows.
 */
module CanonicalRoundTrip {
  import opened Basics
  import opened CanonicalJson

  /** Whatever follows `t` (but a digit), reading `t` yields `d` and stops at its end. */
  ghost predicate Reads(t: string, d: Document) {
    forall rest {:trigger ReadsBefore(t, d, rest)} | Stops(rest) :: ReadsBefore(t, d, rest)
  }

  ghost predicate ReadsBefore(t: string, d: Document, rest: string) {
    Read(t + rest) == Some((d, rest))
  }

  lemma ReadsStart(t: string, d: Document)
    requires Reads(t, d)
    ensures t != "" && t[0] != ']'
  {
    assert ReadsBefore(t, d, "");
    assert t + "" == t;
  }

  // ---------------------------------------------------------------- entries and maps

  lemma {:induction false} MapOfLooksUp<T>(es: seq<Entry<T>>, i: nat)
    requires DistinctKeys(es) && i < |es|
    ensures es[i].key in MapOf(es) && MapOf(es)[es[i].key] == es[i].value
  {
    if i < |es| - 1 {
      MapOfLooksUp(es[..|es| - 1], i);
    }
  }

  lemma {:induction false} MapOfHolds<T>(es: seq<Entry<T>>, k: string) returns (i: nat)
    requires DistinctKeys(es) && k in MapOf(es)
    ensures i < |es| && es[i].key == k && MapOf(es)[k] == es[i].value
  {
    if k == es[|es| - 1].key {
      i := |es| - 1;
    } else {
      i := MapOfHolds(es[..|es| - 1], k);
    }
  }

  /** The map of a dict does not depend on the order its entries were inserted in. */
  lemma MapOfReordered<T(!new)>(es: seq<Entry<T>>, fs: seq<Entry<T>>)
    requires DistinctKeys(es) && DistinctKeys(fs)
    requires forall e :: e in es <==> e in fs
    ensures MapOf(es) == MapOf(fs)
  {
    forall k | k in MapOf(es)
      ensures k in MapOf(fs) && MapOf(fs)[k] == MapOf(es)[k]
    {
      var i := MapOfHolds(es, k);
      assert es[i] in fs;
      var j :| 0 <= j < |fs| && fs[j] == es[i];
      MapOfLooksUp(fs, j);
    }
    forall k | k in MapOf(fs)
      ensures k in MapOf(es)
    {
      var i := MapOfHolds(fs, k);
      assert fs[i] in es;
      var j :| 0 <= j < |es| && es[j] == fs[i];
      MapOfLooksUp(es, j);
    }
  }

  lemma DistinctAfterSorting<T(!new)>(es: seq<Entry<T>>)
    requires DistinctKeys(es)
    ensures DistinctKeys(SortEntries(es))
  {
    var sorted := SortEntries(es);
    forall i, j | 0 <= i < j < |sorted|
      ensures sorted[i].key != sorted[j].key
    {
      if sorted[i].key == sorted[j].key {
        assert sorted[i] in es && sorted[j] in es;
        var a :| 0 <= a < |es| && es[a] == sorted[i];
        var b :| 0 <= b < |es| && es[b] == sorted[j];
        assert a == b;
        TwiceInMultiset(sorted, i, j);
        OnceInMultiset(es, a);
        assert false;
      }
    }
  }

  lemma TwiceInMultiset<T>(xs: seq<T>, i: nat, j: nat)
    requires i < j < |xs| && xs[i] == xs[j]
    ensures multiset(xs)[xs[i]] >= 2
  {
    assert xs == xs[..i] + [xs[i]] + xs[i + 1..j] + [xs[j]] + xs[j + 1..];
  }

  lemma OnceInMultiset<T>(es: seq<Entry<T>>, a: nat)
    requires DistinctKeys(es) && a < |es|
    ensures multiset(es)[es[a]] == 1
  {
    assert es == es[..a] + [es[a]] + es[a + 1..];
    assert es[a] !in es[..a] && es[a] !in es[a + 1..];
  }

  // ---------------------------------------------------------------- reading lists and tables

  lemma JoinMore(ts: seq<string>, rest: string)
    requires |ts| > 1
    ensures Join(ts) + rest == ts[0] + ("," + (Join(ts[1..]) + rest))
  {
    Regroup(ts[0] + ",", Join(ts[1..]), rest);
    Regroup(ts[0], ",", Join(ts[1..]) + rest);
  }

  lemma LastItem(t: string, d: Document, rest: string)
    requires Reads(t, d)
    ensures ReadItems(t + ("]" + rest)) == Some(([d], rest))
  {
    assert ReadsBefore(t, d, "]" + rest);
    assert ("]" + rest)[1..] == rest;
  }

  lemma OneMoreItem(t: string, d: Document, tail: string, ds: seq<Document>, rest: string)
    requires Reads(t, d) && ReadItems(tail) == Some((ds, rest))
    ensures ReadItems(t + ("," + tail)) == Some(([d] + ds, rest))
  {
    assert ReadsBefore(t, d, "," + tail);
    assert ("," + tail)[1..] == tail;
  }

  lemma {:induction false} ReadJoined(ts: seq<string>, ds: seq<Document>, rest: string)
    requires |ts| == |ds| > 0
    requires forall i | 0 <= i < |ts| :: Reads(ts[i], ds[i])
    ensures ReadItems(Join(ts) + ("]" + rest)) == Some((ds, rest))
  {
    if |ts| == 1 {
      LastItem(ts[0], ds[0], rest);
      assert ds == [ds[0]];
    } else {
      ReadJoined(ts[1..], ds[1..], rest);
      JoinMore(ts, "]" + rest);
      OneMoreItem(ts[0], ds[0], Join(ts[1..]) + ("]" + rest), ds[1..], rest);
      assert ds == [ds[0]] + ds[1..];
    }
  }

  /** `t` is the text of the entry `e`, in which `item` is the text of its value. */
  ghost predicate EntryReads(t: string, item: string, e: Entry<Document>) {
    t == StringText(e.key) + ":" + item && Reads(item, e.value)
  }

  lemma KeyReads(key: string, tail: string)
    ensures StringText(key) != "" && StringText(key)[0] == '"'
    ensures ReadString((StringText(key) + tail)[1..]) == Some((key, tail))
  {
    ReplacementsEscape(key);
    ReadEscaped(key, tail);
    assert (StringText(key) + tail)[1..] == Escape(key) + (['"'] + tail);
  }

  lemma ReadsEntry(t: string, item: string, e: Entry<Document>, rest: string)
    requires EntryReads(t, item, e) && Stops(rest)
    ensures ReadEntry(t + rest) == Some((e, rest))
  {
    var tail := ":" + (item + rest);
    assert t + rest == StringText(e.key) + tail;
    KeyReads(e.key, tail);
    assert tail[1..] == item + rest;
    assert ReadsBefore(item, e.value, rest);
  }

  lemma LastEntry(t: string, item: string, e: Entry<Document>, rest: string)
    requires EntryReads(t, item, e)
    ensures ReadEntries(t + ("}" + rest)) == Some(([e], rest))
  {
    ReadsEntry(t, item, e, "}" + rest);
    assert ("}" + rest)[1..] == rest;
  }

  lemma OneMoreEntry(t: string, item: string, e: Entry<Document>, tail: string, es: seq<Entry<Document>>, rest: string)
    requires EntryReads(t, item, e) && ReadEntries(tail) == Some((es, rest))
    ensures ReadEntries(t + ("," + tail)) == Some(([e] + es, rest))
  {
    ReadsEntry(t, item, e, "," + tail);
    assert ("," + tail)[1..] == tail;
  }

  lemma {:induction false} ReadJoinedEntries(
    ts: seq<string>, items: seq<string>, es: seq<Entry<Document>>, rest: string)
    requires |ts| == |items| == |es| > 0
    requires forall i | 0 <= i < |ts| :: EntryReads(ts[i], items[i], es[i])
    ensures ReadEntries(Join(ts) + ("}" + rest)) == Some((es, rest))
  {
    if |ts| == 1 {
      LastEntry(ts[0], items[0], es[0], rest);
      assert es == [es[0]];
    } else {
      ReadJoinedEntries(ts[1..], items[1..], es[1..], rest);
      JoinMore(ts, "}" + rest);
      OneMoreEntry(ts[0], items[0], es[0], Join(ts[1..]) + ("}" + rest), es[1..], rest);
      assert es == [es[0]] + es[1..];
    }
  }

  lemma ReadsBool(flag: bool, rest: string)
    ensures ReadsBefore(Text(Bool(flag)), DBool(flag), rest)
  {
    var printed := Text(Bool(flag)) + rest;
    if flag {
      assert printed[..4] == "true" && printed[4..] == rest;
    } else {
      assert printed[0] == 'f';
      assert printed[..5] == "false" && printed[5..] == rest;
    }
  }

  lemma ReadsInt(number: int, rest: string)
    requires Stops(rest)
    ensures ReadsBefore(Text(Int(number)), DInt(number), rest)
  {
    var magnitude: nat := if number < 0 then -number else number;
    ReadNatText(magnitude, rest);
    var printed := IntText(number) + rest;
    if number < 0 {
      assert printed[0] == '-' && printed[1..] == NatText(magnitude) + rest;
    } else {
      assert !Stops(printed);
    }
  }

  lemma ReadsString(text: string, rest: string)
    ensures ReadsBefore(Text(Str(text)), DStr(text), rest)
  {
    KeyReads(text, rest);
    assert (StringText(text) + rest)[0] == '"';
  }

  lemma ReadsScalar(v: Value)
    requires v.Bool? || v.Int? || v.Str?
    ensures Reads(Text(v), Meaning(v))
  {
    forall rest | Stops(rest)
      ensures ReadsBefore(Text(v), Meaning(v), rest)
    {
      match v
      case Bool(flag) => ReadsBool(flag, rest);
      case Int(number) => ReadsInt(number, rest);
      case Str(text) => ReadsString(text, rest);
    }
  }

  lemma ReadsNonemptyList(body: string, ds: seq<Document>, rest: string)
    requires body != "" && body[0] != ']'
    requires ReadItems(body + ("]" + rest)) == Some((ds, rest))
    ensures Read("[" + (body + ("]" + rest))) == Some((DList(ds), rest))
  {
    var printed := "[" + (body + ("]" + rest));
    assert printed[0] == '[' && printed[1] == body[0];
    assert printed[1..] == body + ("]" + rest);
  }

  lemma Between(open: string, body: string, close: string, rest: string)
    ensures open + body + close + rest == open + (body + (close + rest))
  {
    Regroup(open + body, close, rest);
    Regroup(open, body, close + rest);
  }

  lemma ReadsList(ts: seq<string>, ds: seq<Document>)
    requires |ts| == |ds|
    requires forall i | 0 <= i < |ts| :: Reads(ts[i], ds[i])
    ensures Reads("[" + Join(ts) + "]", DList(ds))
  {
    forall rest | Stops(rest)
      ensures ReadsBefore("[" + Join(ts) + "]", DList(ds), rest)
    {
      ReadsListBefore(ts, ds, rest);
    }
  }

  lemma ReadsListBefore(ts: seq<string>, ds: seq<Document>, rest: string)
    requires |ts| == |ds|
    requires forall i | 0 <= i < |ts| :: Reads(ts[i], ds[i])
    ensures ReadsBefore("[" + Join(ts) + "]", DList(ds), rest)
  {
    Between("[", Join(ts), "]", rest);
    if ts == [] {
      ReadsEmptyList(rest);
      assert ds == [];
    } else {
      ReadJoined(ts, ds, rest);
      ReadsStart(ts[0], ds[0]);
      assert Join(ts)[0] == ts[0][0];
      ReadsNonemptyList(Join(ts), ds, rest);
    }
  }

  lemma ReadsEmptyList(rest: string)
    ensures Read("[" + ("" + ("]" + rest))) == Some((DList([]), rest))
  {
    var printed := "[" + ("" + ("]" + rest));
    assert printed[0] == '[' && printed[1] == ']' && printed[2..] == rest;
  }

  lemma OpensTable(t: string, item: string, e: Entry<Document>)
    requires EntryReads(t, item, e)
    ensures t != "" && t[0] == '"'
  {
    KeyReads(e.key, "");
  }

  lemma ReadsNonemptyTable(body: string, es: seq<Entry<Document>>, rest: string)
    requires body != "" && body[0] == '"'
    requires ReadEntries(body + ("}" + rest)) == Some((es, rest))
    ensures Read("{" + (body + ("}" + rest))) == Some((DTable(MapOf(es)), rest))
  {
    var printed := "{" + (body + ("}" + rest));
    assert printed[0] == '{' && printed[1] == body[0];
    assert printed[1..] == body + ("}" + rest);
  }

  lemma ReadsTable(ts: seq<string>, items: seq<string>, es: seq<Entry<Document>>)
    requires |ts| == |items| == |es|
    requires forall i | 0 <= i < |ts| :: EntryReads(ts[i], items[i], es[i])
    ensures Reads("{" + Join(ts) + "}", DTable(MapOf(es)))
  {
    forall rest | Stops(rest)
      ensures ReadsBefore("{" + Join(ts) + "}", DTable(MapOf(es)), rest)
    {
      ReadsTableBefore(ts, items, es, rest);
    }
  }

  lemma ReadsTableBefore(ts: seq<string>, items: seq<string>, es: seq<Entry<Document>>, rest: string)
    requires |ts| == |items| == |es|
    requires forall i | 0 <= i < |ts| :: EntryReads(ts[i], items[i], es[i])
    ensures ReadsBefore("{" + Join(ts) + "}", DTable(MapOf(es)), rest)
  {
    Between("{", Join(ts), "}", rest);
    if ts == [] {
      ReadsEmptyTable(rest);
      assert es == [];
    } else {
      ReadJoinedEntries(ts, items, es, rest);
      OpensTable(ts[0], items[0], es[0]);
      assert Join(ts)[0] == ts[0][0];
      ReadsNonemptyTable(Join(ts), es, rest);
    }
  }

  lemma ReadsEmptyTable(rest: string)
    ensures Read("{" + ("" + ("}" + rest))) == Some((DTable(map[]), rest))
  {
    var printed := "{" + ("" + ("}" + rest));
    assert printed[0] == '{' && printed[1] == '}' && printed[2..] == rest;
  }

  /** The documents of a table's entries, in the order of the entries. */
  function Documents(es: seq<Entry<Value>>): seq<Entry<Document>>
    requires forall i | 0 <= i < |es| :: HasText(es[i].value)
  {
    seq(|es|, i requires 0 <= i < |es| => Entry(es[i].key, Meaning(es[i].value)))
  }

  lemma DocumentsReordered(es: seq<Entry<Value>>, fs: seq<Entry<Value>>)
    requires forall i | 0 <= i < |es| :: HasText(es[i].value)
    requires forall i | 0 <= i < |fs| :: HasText(fs[i].value)
    requires DistinctKeys(es) && DistinctKeys(fs)
    requires forall e :: e in es <==> e in fs
    ensures MapOf(Documents(es)) == MapOf(Documents(fs))
  {
    DocumentsInclude(es, fs);
    DocumentsInclude(fs, es);
    MapOfReordered(Documents(es), Documents(fs));
  }

  lemma DocumentsInclude(es: seq<Entry<Value>>, fs: seq<Entry<Value>>)
    requires forall i | 0 <= i < |es| :: HasText(es[i].value)
    requires forall i | 0 <= i < |fs| :: HasText(fs[i].value)
    requires forall e :: e in es ==> e in fs
    ensures forall d :: d in Documents(es) ==> d in Documents(fs)
  {
    forall d | d in Documents(es)
      ensures d in Documents(fs)
    {
      var i :| 0 <= i < |es| && Documents(es)[i] == d;
      assert es[i] in fs;
      var j :| 0 <= j < |fs| && fs[j] == es[i];
      assert Documents(fs)[j] == d;
    }
  }

  /** The sorted entries of a table: still entries of it, distinct, with the same map. */
  lemma SortedTable(v: Value)
    requires v.Table? && WellFormed(v) && HasText(v)
    ensures var sorted := SortEntries(v.entries);
            && (forall i | 0 <= i < |sorted| ::
                  sorted[i] in v.entries && HasText(sorted[i].value) && WellFormed(sorted[i].value))
            && DistinctKeys(sorted)
            && Meaning(v) == DTable(MapOf(Documents(sorted)))
  {
    var sorted := SortEntries(v.entries);
    forall i | 0 <= i < |sorted|
      ensures sorted[i] in v.entries && HasText(sorted[i].value) && WellFormed(sorted[i].value)
    {
      assert sorted[i] in v.entries;
    }
    DistinctAfterSorting(v.entries);
    DocumentsReordered(v.entries, sorted);
    assert Meaning(v) == DTable(MapOf(Documents(v.entries)));
  }

  lemma ListReads(v: Value)
    requires v.List? && HasText(v)
    requires forall i | 0 <= i < |v.items| :: Reads(Text(v.items[i]), Meaning(v.items[i]))
    ensures Reads(Text(v), Meaning(v))
  {
    var ts := seq(|v.items|, i requires 0 <= i < |v.items| => Text(v.items[i]));
    var ds := seq(|v.items|, i requires 0 <= i < |v.items| => Meaning(v.items[i]));
    ReadsList(ts, ds);
    assert Text(v) == "[" + Join(ts) + "]";
  }

  lemma TableReads(v: Value)
    requires v.Table? && WellFormed(v) && HasText(v)
    requires forall i | 0 <= i < |v.entries| :: Reads(Text(v.entries[i].value), Meaning(v.entries[i].value))
    ensures Reads(Text(v), Meaning(v))
  {
    SortedTable(v);
    var sorted := SortEntries(v.entries);
    var items := seq(|sorted|, i requires 0 <= i < |sorted| => Text(sorted[i].value));
    var ts := seq(|sorted|, i requires 0 <= i < |sorted| => StringText(sorted[i].key) + ":" + Text(sorted[i].value));
    var es := Documents(sorted);
    forall i | 0 <= i < |sorted|
      ensures EntryReads(ts[i], items[i], es[i])
    {
      assert sorted[i] in v.entries;
    }
    ReadsTable(ts, items, es);
    assert Text(v) == "{" + Join(ts) + "}";
  }

  /** Printing and reading back yields the value that was printed. */
  lemma {:induction false} ReadsText(v: Value)
    requires WellFormed(v) && HasText(v)
    ensures Reads(Text(v), Meaning(v))
  {
    match v
    case List(items) =>
      forall i | 0 <= i < |items|
        ensures Reads(Text(items[i]), Meaning(items[i]))
      {
        ReadsText(items[i]);
      }
      ListReads(v);
    case Table(entries) =>
      forall i | 0 <= i < |entries|
        ensures Reads(Text(entries[i].value), Meaning(entries[i].value))
      {
        ReadsText(entries[i].value);
      }
      TableReads(v);
    case _ =>
      ReadsScalar(v);
  }

  /** `Parse` inverts the printer on every value that has a text. */
  lemma ParseInvertsText(v: Value)
    requires WellFormed(v)
    ensures CanonicalText(v).Ok? ==> Parse(CanonicalText(v).value) == Some(Meaning(v))
  {
    if HasText(v) {
      ReadsText(v);
      assert ReadsBefore(Text(v), Meaning(v), "");
      assert Text(v) + "" == Text(v);
    }
  }

  // ---------------------------------------------------------------- one text per document

  ghost predicate StrictlySorted<T>(es: seq<Entry<T>>) {
    forall i, j | 0 <= i < j < |es| :: KeyLess(es[i].key, es[j].key)
  }

  lemma KeyLessTransitive(a: string, b: string, c: string)
    requires KeyLess(a, b) && KeyLess(b, c)
    ensures KeyLess(a, c)
  {
  }

  lemma KeyLessTotal(a: string, b: string)
    ensures KeyLess(a, b) || a == b || KeyLess(b, a)
    ensures !KeyLess(a, a)
    ensures !(KeyLess(a, b) && KeyLess(b, a))
  {
    if a != "" && b != "" && a[0] == b[0] {
      KeyLessTotal(a[1..], b[1..]);
      assert a == [a[0]] + a[1..] && b == [b[0]] + b[1..];
    }
    if a != "" {
      KeyLessTotal(a[1..], a[1..]);
    }
  }

  lemma {:induction false} InsertSorted<T>(e: Entry<T>, es: seq<Entry<T>>)
    requires StrictlySorted(es)
    requires forall i | 0 <= i < |es| :: es[i].key != e.key
    ensures StrictlySorted(InsertEntry(e, es))
    ensures forall i | 0 <= i < |InsertEntry(e, es)| :: InsertEntry(e, es)[i] == e || InsertEntry(e, es)[i] in es
  {
    if es == [] {
    } else if !KeyLess(es[0].key, e.key) {
      KeyLessTotal(e.key, es[0].key);
      forall i | 0 <= i < |es|
        ensures KeyLess(e.key, es[i].key)
      {
        if i > 0 {
          KeyLessTransitive(e.key, es[0].key, es[i].key);
        }
      }
    } else {
      InsertSorted(e, es[1..]);
    }
  }

  /** The printer emits a table's entries in strictly ascending order of their keys. */
  lemma {:induction false} SortEntriesSorts<T(!new)>(es: seq<Entry<T>>)
    requires DistinctKeys(es)
    ensures StrictlySorted(SortEntries(es))
  {
    if es != [] {
      var rest := SortEntries(es[1..]);
      SortEntriesSorts(es[1..]);
      forall i | 0 <= i < |rest|
        ensures rest[i].key != es[0].key
      {
        assert rest[i] in es[1..];
      }
      InsertSorted(es[0], rest);
    }
  }

  /** A map is listed in strictly ascending order of its keys in one way only. */
  lemma {:induction false} SortedOnce<T>(es: seq<Entry<T>>, fs: seq<Entry<T>>)
    requires StrictlySorted(es) && StrictlySorted(fs)
    requires MapOf(es) == MapOf(fs)
    ensures es == fs
  {
    SortedIsDistinct(es);
    SortedIsDistinct(fs);
    if es == [] || fs == [] {
      if fs != [] {
        MapOfLooksUp(fs, 0);
      } else if es != [] {
        MapOfLooksUp(es, 0);
      }
    } else {
      LastKeysAgree(es, fs);
      var k := es[|es| - 1].key;
      MapOfLooksUp(es, |es| - 1);
      MapOfLooksUp(fs, |fs| - 1);
      WithoutLast(es);
      WithoutLast(fs);
      SortedOnce(es[..|es| - 1], fs[..|fs| - 1]);
      assert es == es[..|es| - 1] + [es[|es| - 1]];
      assert fs == fs[..|fs| - 1] + [fs[|fs| - 1]];
    }
  }

  lemma SortedIsDistinct<T>(es: seq<Entry<T>>)
    requires StrictlySorted(es)
    ensures DistinctKeys(es)
  {
    forall i, j | 0 <= i < j < |es|
      ensures es[i].key != es[j].key
    {
      KeyLessTotal(es[i].key, es[j].key);
    }
  }

  lemma WithoutLast<T>(es: seq<Entry<T>>)
    requires es != [] && DistinctKeys(es)
    ensures MapOf(es[..|es| - 1]) == MapOf(es) - {es[|es| - 1].key}
  {
    var init, k := es[..|es| - 1], es[|es| - 1].key;
    if k in MapOf(init) {
      var i := MapOfHolds(init, k);
    }
  }

  lemma LastKeysAgree<T>(es: seq<Entry<T>>, fs: seq<Entry<T>>)
    requires es != [] && fs != []
    requires StrictlySorted(es) && StrictlySorted(fs) && DistinctKeys(es) && DistinctKeys(fs)
    requires MapOf(es) == MapOf(fs)
    ensures es[|es| - 1].key == fs[|fs| - 1].key
  {
    var a, b := es[|es| - 1].key, fs[|fs| - 1].key;
    MapOfLooksUp(es, |es| - 1);
    MapOfLooksUp(fs, |fs| - 1);
    var i := MapOfHolds(fs, a);
    var j := MapOfHolds(es, b);
    if a != b {
      assert KeyLess(fs[i].key, b) && KeyLess(es[j].key, a);
      KeyLessTotal(a, b);
    }
  }

  lemma SortedDocuments(v: Value)
    requires v.Table? && WellFormed(v) && HasText(v)
    ensures var sorted := SortEntries(v.entries);
            && (forall i | 0 <= i < |sorted| :: HasText(sorted[i].value))
            && StrictlySorted(Documents(sorted))
  {
    SortedTable(v);
    SortEntriesSorts(v.entries);
    var sorted := SortEntries(v.entries);
    forall i, j | 0 <= i < j < |sorted|
      ensures KeyLess(Documents(sorted)[i].key, Documents(sorted)[j].key)
    {
      assert KeyLess(sorted[i].key, sorted[j].key);
    }
  }

  lemma SameListText(v: Value, w: Value)
    requires v.List? && w.List? && HasText(v) && HasText(w) && |v.items| == |w.items|
    requires forall i | 0 <= i < |v.items| :: Text(v.items[i]) == Text(w.items[i])
    ensures Text(v) == Text(w)
  {
    assert seq(|v.items|, i requires 0 <= i < |v.items| => Text(v.items[i]))
        == seq(|w.items|, i requires 0 <= i < |w.items| => Text(w.items[i]));
  }

  lemma SameTableText(v: Value, w: Value)
    requires v.Table? && w.Table? && HasText(v) && HasText(w)
    requires var vs, ws := SortEntries(v.entries), SortEntries(w.entries);
             && |vs| == |ws|
             && (forall i | 0 <= i < |vs| :: HasText(vs[i].value) && HasText(ws[i].value))
             && forall i | 0 <= i < |vs| :: vs[i].key == ws[i].key && Text(vs[i].value) == Text(ws[i].value)
    ensures Text(v) == Text(w)
  {
    var vs, ws := SortEntries(v.entries), SortEntries(w.entries);
    assert seq(|vs|, i requires 0 <= i < |vs| => StringText(vs[i].key) + ":" + Text(vs[i].value))
        == seq(|ws|, i requires 0 <= i < |ws| => StringText(ws[i].key) + ":" + Text(ws[i].value));
  }

  /** Tables of one meaning list the same keys in the same order, with values of one meaning. */
  lemma SameSortedEntries(v: Value, w: Value)
    requires v.Table? && w.Table? && WellFormed(v) && HasText(v) && WellFormed(w) && HasText(w)
    requires Meaning(v) == Meaning(w)
    ensures var vs, ws := SortEntries(v.entries), SortEntries(w.entries);
            && |vs| == |ws|
            && (forall i | 0 <= i < |vs| :: vs[i] in v.entries && WellFormed(vs[i].value) && HasText(vs[i].value))
            && (forall i | 0 <= i < |ws| :: WellFormed(ws[i].value) && HasText(ws[i].value))
            && forall i | 0 <= i < |vs| :: vs[i].key == ws[i].key && Meaning(vs[i].value) == Meaning(ws[i].value)
  {
    SortedTable(v);
    SortedTable(w);
    SortedDocuments(v);
    SortedDocuments(w);
    var vs, ws := SortEntries(v.entries), SortEntries(w.entries);
    SortedOnce(Documents(vs), Documents(ws));
    assert |vs| == |Documents(vs)| == |Documents(ws)| == |ws|;
    forall i | 0 <= i < |vs|
      ensures vs[i].key == ws[i].key && Meaning(vs[i].value) == Meaning(ws[i].value)
    {
      assert Documents(vs)[i] == Documents(ws)[i];
    }
  }

  /** Values that mean one document have one text, whatever order their tables were filled in. */
  lemma {:induction false} MeaningFixesText(v: Value, w: Value)
    requires WellFormed(v) && HasText(v) && WellFormed(w) && HasText(w)
    requires Meaning(v) == Meaning(w)
    ensures Text(v) == Text(w)
  {
    match v
    case List(items) =>
      forall i | 0 <= i < |items|
        ensures Text(items[i]) == Text(w.items[i])
      {
        assert Meaning(v).items[i] == Meaning(w).items[i];
        MeaningFixesText(items[i], w.items[i]);
      }
      SameListText(v, w);
    case Table(entries) =>
      SameSortedEntries(v, w);
      var vs, ws := SortEntries(entries), SortEntries(w.entries);
      forall i | 0 <= i < |vs|
        ensures Text(vs[i].value) == Text(ws[i].value)
      {
        MeaningFixesText(vs[i].value, ws[i].value);
      }
      SameTableText(v, w);
    case _ =>
  }

  /** Two values share a canonical text exactly when they mean the same document. */
  lemma TextIsOneToOne(v: Value, w: Value)
    requires WellFormed(v) && HasText(v) && WellFormed(w) && HasText(w)
    ensures Text(v) == Text(w) <==> Meaning(v) == Meaning(w)
  {
    ParseInvertsText(v);
    ParseInvertsText(w);
    if Meaning(v) == Meaning(w) {
      MeaningFixesText(v, w);
    }
  }
}
