/**
 `canonical_value_problem` and `preregistration_canonical`: what a preregistration table must hold for its canonical
 text to be the one RFC 8785 prescribes.
 */
module Preregistration {
  import opened Basics
  import opened CanonicalJson
  import CanonicalRoundTrip
  import opened Rfc8785

  const MAX_CANONICAL_INTEGER := 9007199254740991

  datatype Problem = OutsideRange | OutsideAscii | ElementOutsideRange(index: nat) | ElementOutsideAscii(index: nat)
                   | MixedList | NoCanonicalText

  datatype Refusal = BadKey(key: string) | BadValue(key: string, problem: Problem)

  predicate IsPrintableAscii(s: string) {
    forall i | 0 <= i < |s| :: ' ' <= s[i] <= '~'
  }

  predicate InRange(n: int) {
    -MAX_CANONICAL_INTEGER <= n <= MAX_CANONICAL_INTEGER
  }

  predicate AllInts(items: seq<Value>) {
    forall i | 0 <= i < |items| :: items[i].Int?
  }

  predicate AllStrings(items: seq<Value>) {
    forall i | 0 <= i < |items| :: items[i].Str?
  }

  function IntElementProblem(items: seq<Value>, from: nat): Option<Problem>
    requires from <= |items| && AllInts(items)
    decreases |items| - from
  {
    if from == |items| then None
    else if !InRange(items[from].number) then Some(ElementOutsideRange(from))
    else IntElementProblem(items, from + 1)
  }

  function StringElementProblem(items: seq<Value>, from: nat): Option<Problem>
    requires from <= |items| && AllStrings(items)
    decreases |items| - from
  {
    if from == |items| then None
    else if !IsPrintableAscii(items[from].text) then Some(ElementOutsideAscii(from))
    else StringElementProblem(items, from + 1)
  }

  function ValueProblem(v: Value): Option<Problem> {
    match v
    case Bool(_) => None
    case Int(n) => if InRange(n) then None else Some(OutsideRange)
    case Str(s) => if IsPrintableAscii(s) then None else Some(OutsideAscii)
    case List(items) =>
      if AllInts(items) then IntElementProblem(items, 0)
      else if AllStrings(items) then StringElementProblem(items, 0)
      else Some(MixedList)
    case Table(_) => Some(NoCanonicalText)
    case Unsupported => Some(NoCanonicalText)
  }

  /** The values a preregistration may hold, said without the search for a problem. */
  ghost predicate Registrable(v: Value) {
    match v
    case Bool(_) => true
    case Int(n) => InRange(n)
    case Str(s) => IsPrintableAscii(s)
    case List(items) =>
      || (forall i | 0 <= i < |items| :: items[i].Int? && InRange(items[i].number))
      || (forall i | 0 <= i < |items| :: items[i].Str? && IsPrintableAscii(items[i].text))
    case _ => false
  }

  lemma {:induction false} IntElements(items: seq<Value>, from: nat)
    requires from <= |items| && AllInts(items)
    ensures IntElementProblem(items, from).None? <==> forall i | from <= i < |items| :: InRange(items[i].number)
    decreases |items| - from
  {
    if from < |items| {
      IntElements(items, from + 1);
    }
  }

  lemma {:induction false} StringElements(items: seq<Value>, from: nat)
    requires from <= |items| && AllStrings(items)
    ensures StringElementProblem(items, from).None? <==>
            forall i | from <= i < |items| :: IsPrintableAscii(items[i].text)
    decreases |items| - from
  {
    if from < |items| {
      StringElements(items, from + 1);
    }
  }

  /** A value has no problem exactly when it is registrable. */
  lemma ProblemFreeIsRegistrable(v: Value)
    ensures ValueProblem(v).None? <==> Registrable(v)
  {
    if v.List? {
      if AllInts(v.items) {
        IntElements(v.items, 0);
        if v.items != [] {
          assert v.items[0].Int?;
        }
      } else if AllStrings(v.items) {
        StringElements(v.items, 0);
        assert exists i :: 0 <= i < |v.items| && !v.items[i].Int?;
      }
    }
  }

  lemma RegistrableHasText(v: Value)
    requires Registrable(v)
    ensures HasText(v) && ControlFree(v) && ExactIntegers(v)
  {
  }

  ghost predicate Accepted(table: seq<Entry<Value>>) {
    forall i | 0 <= i < |table| :: IsPrintableAscii(table[i].key) && Registrable(table[i].value)
  }

  /** The first entry that is refused, and why. */
  ghost predicate Refused(table: seq<Entry<Value>>, at: nat, why: Refusal) {
    && at < |table|
    && Accepted(table[..at])
    && if IsPrintableAscii(table[at].key)
       then ValueProblem(table[at].value).Some? && why == BadValue(table[at].key, ValueProblem(table[at].value).value)
       else why == BadKey(table[at].key)
  }

  /**
   `preregistration_canonical`: the text of a table every entry of which may be registered, which
   is the one RFC 8785 gives it, and the first entry at fault otherwise.
   */
  method PreregistrationCanonical(table: seq<Entry<Value>>) returns (r: Result<string, Refusal>)
    ensures r.Ok? <==> Accepted(table)
    ensures r.Ok? ==> HasText(Table(table)) && r.value == Text(Table(table)) && RfcText(Table(table)) == Some(r.value)
    ensures r.Err? ==> exists at :: Refused(table, at, r.error)
  {
    for n := 0 to |table|
      invariant Accepted(table[..n])
    {
      ProblemFreeIsRegistrable(table[n].value);
      if !IsPrintableAscii(table[n].key) {
        assert Refused(table, n, BadKey(table[n].key));
        return Err(BadKey(table[n].key));
      }
      var problem := ValueProblem(table[n].value);
      if problem.Some? {
        assert Refused(table, n, BadValue(table[n].key, problem.value));
        return Err(BadValue(table[n].key, problem.value));
      }
      assert table[..n + 1] == table[..n] + [table[n]];
    }
    assert table[..|table|] == table;
    AcceptedHasText(table);
    AgreesOnExactIntegers(Table(table));
    return Ok(Text(Table(table)));
  }

  lemma AcceptedHasText(table: seq<Entry<Value>>)
    requires Accepted(table)
    ensures HasText(Table(table)) && ControlFree(Table(table)) && ExactIntegers(Table(table))
  {
    forall i | 0 <= i < |table|
      ensures IsAscii(table[i].key) && HasText(table[i].value) && NoControls(table[i].key)
      ensures ControlFree(table[i].value) && ExactIntegers(table[i].value)
    {
      RegistrableHasText(table[i].value);
    }
  }

  /**
   Two accepted tables have one canonical text, and so one digest, exactly when they are one table:
   the same keys with the same values, in whatever order they were written.
   */
  lemma DigestBindsTable(t: seq<Entry<Value>>, u: seq<Entry<Value>>)
    requires DistinctKeys(t) && DistinctKeys(u) && Accepted(t) && Accepted(u)
    ensures HasText(Table(t)) && HasText(Table(u))
    ensures Text(Table(t)) == Text(Table(u)) <==> forall e :: e in t <==> e in u
  {
    AcceptedHasText(t);
    AcceptedHasText(u);
    AcceptedWellFormed(t);
    AcceptedWellFormed(u);
    CanonicalRoundTrip.TextIsOneToOne(Table(t), Table(u));
    if forall e :: e in t <==> e in u {
      CanonicalRoundTrip.DocumentsReordered(t, u);
    } else if Text(Table(t)) == Text(Table(u)) {
      SameEntries(t, u);
      SameEntries(u, t);
    }
  }

  lemma AcceptedWellFormed(t: seq<Entry<Value>>)
    requires DistinctKeys(t) && Accepted(t)
    ensures WellFormed(Table(t))
  {
  }

  lemma SameEntries(t: seq<Entry<Value>>, u: seq<Entry<Value>>)
    requires DistinctKeys(t) && DistinctKeys(u) && Accepted(t) && Accepted(u)
    requires HasText(Table(t)) && HasText(Table(u)) && Meaning(Table(t)) == Meaning(Table(u))
    ensures forall e :: e in t ==> e in u
  {
    var ts, us := CanonicalRoundTrip.Documents(t), CanonicalRoundTrip.Documents(u);
    forall e | e in t
      ensures e in u
    {
      var i :| 0 <= i < |t| && t[i] == e;
      CanonicalRoundTrip.MapOfLooksUp(ts, i);
      var j := CanonicalRoundTrip.MapOfHolds(us, e.key);
      RegistrableMeaning(e.value, u[j].value);
    }
  }

  /** A registrable value holds no table, so its document is the value itself. */
  lemma RegistrableMeaning(v: Value, w: Value)
    requires Registrable(v) && Registrable(w) && HasText(v) && HasText(w)
    requires Meaning(v) == Meaning(w)
    ensures v == w
  {
    if v.List? {
      forall i | 0 <= i < |v.items|
        ensures v.items[i] == w.items[i]
      {
        assert Meaning(v).items[i] == Meaning(w).items[i];
      }
    }
  }
}
