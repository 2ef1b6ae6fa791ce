/**
 What RFC 8785 (the JSON Canonicalization Scheme) writes, stated on its own terms, and the values on which
 `canonical_text` writes the same.
 */
module Rfc8785 {
  import opened Basics
  import opened CanonicalJson
  import opened CanonicalRoundTrip

  // ---------------------------------------------------------------- strings

  /** Section 3.2.2.2: the two-character escapes, `\u00hh` for other controls, all else as is. */
  function RfcEscapeChar(c: char): string {
    if c == '"' then "\\\""
    else if c == '\\' then "\\\\"
    else if c == 8 as char then "\\b"
    else if c == 9 as char then "\\t"
    else if c == 10 as char then "\\n"
    else if c == 12 as char then "\\f"
    else if c == 13 as char then "\\r"
    else if c < ' ' then "\\u00" + [HexDigit(c as nat / 16), HexDigit(c as nat % 16)]
    else [c]
  }

  function RfcEscape(s: string): string {
    if s == "" then "" else RfcEscapeChar(s[0]) + RfcEscape(s[1..])
  }

  function RfcString(s: string): string {
    "\"" + RfcEscape(s) + "\""
  }

  // ---------------------------------------------------------------- numbers

  /** Up to here every integer is an IEEE-754 double. */
  const EXACT := 0x20_0000_0000_0000

  /** How often `n` must be halved to fit the 53 bits of a significand. */
  function Binades(n: nat): nat {
    if n < EXACT then 0 else 1 + Binades(n / 2)
  }

  function Halved(n: nat, k: nat): nat {
    if k == 0 then n else Halved(n / 2, k - 1)
  }

  function Doubled(n: nat, k: nat): nat {
    if k == 0 then n else 2 * Doubled(n, k - 1)
  }

  /** The doubles around an integer that is none: its first 53 bits, and the next such number. */
  function Below(n: nat): nat {
    Doubled(Halved(n, Binades(n)), Binades(n))
  }

  function Above(n: nat): nat {
    Doubled(Halved(n, Binades(n)) + 1, Binades(n))
  }

  /** The double nearest to an integer, of two the even one. */
  function Nearest(n: nat): nat {
    var down, up := n - Below(n), Above(n) - n;
    if down < up || (down == up && Halved(n, Binades(n)) % 2 == 0) then Below(n) else Above(n)
  }

  /** The largest finite double is below 2^53 times 2^971. */
  predicate IsDouble(n: nat) {
    Binades(n) <= 971 && Below(n) == n
  }

  /** `n` times 10^z. */
  function Raised(n: nat, z: nat): nat {
    if z == 0 then n else 10 * Raised(n, z - 1)
  }

  /** `n` without its last `z` decimal digits. */
  function Cut(n: nat, z: nat): nat {
    if z == 0 then n else Cut(n / 10, z - 1)
  }

  /** The multiple of 10^z next to `n`, on either side, that is read back as `n`; of two the closer, or the even one. */
  function Closest(n: nat, z: nat): Option<nat> {
    var low := Cut(n, z);
    var down, up := n - Raised(low, z), Raised(low + 1, z) - n;
    var below, above := Nearest(Raised(low, z)) == n, Nearest(Raised(low + 1, z)) == n;
    if below && (!above || down < up || (down == up && low % 2 == 0)) then Some(low)
    else if above then Some(low + 1)
    else None
  }

  /** The fewest digits, with the most zeros behind them, that are read back as `n`. */
  function Shortest(n: nat, z: nat): (nat, nat) {
    if z == 0 then (n, 0)
    else match Closest(n, z)
      case Some(s) => (s, z)
      case None => Shortest(n, z - 1)
  }

  function Zeros(z: nat): (zeros: string)
    ensures |zeros| == z
  {
    if z == 0 then "" else Zeros(z - 1) + "0"
  }

  /** Section 3.2.2.3, by ECMAScript's `Number::toString`: plain up to 21 digits, with an exponent beyond. */
  function Layout(digits: string, z: nat): string
    requires digits != ""
  {
    if |digits| + z <= 21 then digits + Zeros(z)
    else [digits[0]] + (if |digits| == 1 then "" else "." + digits[1..]) + "e+" + NatText(|digits| + z - 1)
  }

  function RfcNat(n: nat): string {
    var (s, z) := Shortest(n, |NatText(n)|);
    Layout(NatText(s), z)
  }

  /** An integer that is no double is no number of the standard. */
  function RfcInt(n: int): Option<string> {
    if n == 0 then Some("0")
    else if n > 0 then (if IsDouble(n) then Some(RfcNat(n)) else None)
    else if IsDouble(-n) then Some("-" + RfcNat(-n)) else None
  }

  // ---------------------------------------------------------------- doubles

  lemma {:induction false} DoubledGrows(a: nat, b: nat, k: nat)
    requires a <= b
    ensures Doubled(a, k) <= Doubled(b, k) && (k > 0 ==> 2 * a <= Doubled(a, k))
            && Doubled(2 * a, k) == 2 * Doubled(a, k)
  {
    if k > 0 {
      DoubledGrows(a, b, k - 1);
    }
  }

  lemma {:induction false} HalvedBounds(n: nat, k: nat)
    ensures Doubled(Halved(n, k), k) <= n < Doubled(Halved(n, k) + 1, k)
  {
    if k > 0 {
      HalvedBounds(n / 2, k - 1);
    }
  }

  lemma {:induction false} SignificandIsLong(n: nat)
    ensures n < EXACT <==> Binades(n) == 0
    ensures n >= EXACT ==> 2 * Halved(n, Binades(n)) >= EXACT
  {
    if n >= EXACT {
      SignificandIsLong(n / 2);
    }
  }

  /** Small integers are doubles, large ones stay large, and none is moved by more than its own size. */
  lemma NearestIsNear(n: nat)
    ensures n < EXACT ==> Nearest(n) == n && IsDouble(n)
    ensures n >= EXACT ==> Nearest(n) >= EXACT
    ensures n > 0 ==> Nearest(n) <= 2 * n && n < 2 * Nearest(n)
    ensures IsDouble(n) ==> Nearest(n) == n
  {
    var k, q := Binades(n), Halved(n, Binades(n));
    SignificandIsLong(n);
    HalvedBounds(n, k);
    DoubledGrows(q, q + 1, k);
    if n > 0 {
      DoubledGrows(q + 1, 2 * q, k);
      DoubledGrows(q, q, k);
    }
  }

  // ---------------------------------------------------------------- decimal digits

  lemma {:induction false} CutBounds(n: nat, z: nat)
    ensures Raised(Cut(n, z), z) <= n < Raised(Cut(n, z) + 1, z)
  {
    if z > 0 {
      CutBounds(n / 10, z - 1);
    }
  }

  /** A number that ends in `w` zeros ends in any fewer. */
  lemma {:induction false} FewerZeros(n: nat, z: nat, w: nat)
    requires z <= w && Raised(Cut(n, w), w) == n
    ensures Raised(Cut(n, z), z) == n
  {
    if z > 0 {
      FewerZeros(n / 10, z - 1, w - 1);
    }
  }

  lemma {:induction false} RaisedText(s: nat, z: nat)
    requires s > 0
    ensures Raised(s, z) > 0 && NatText(Raised(s, z)) == NatText(s) + Zeros(z)
  {
    if z > 0 {
      RaisedText(s, z - 1);
    }
  }

  lemma {:induction false} DigitsOnly(n: nat)
    ensures NatText(n) != "" && (n >= 10 <==> |NatText(n)| > 1)
    ensures forall i | 0 <= i < |NatText(n)| :: '0' <= NatText(n)[i] <= '9'
  {
    if n >= 10 {
      DigitsOnly(n / 10);
    }
  }

  lemma NatTextIsOneToOne(m: nat, n: nat)
    requires NatText(m) == NatText(n)
    ensures m == n
  {
    ReadNatText(m, "");
    ReadNatText(n, "");
    assert NatText(m) + "" == NatText(n) + "";
  }

  /** A number whose digits begin another's is that number, or at most a tenth of it. */
  lemma {:induction false} PrefixDivides(m: nat, n: nat)
    requires NatText(m) <= NatText(n)
    ensures m == n || 10 * m <= n
  {
    if |NatText(m)| == |NatText(n)| {
      NatTextIsOneToOne(m, n);
    } else {
      DigitsOnly(m);
      DigitsOnly(n);
      PrefixDivides(m, n / 10);
    }
  }

  lemma {:induction false} TextLength(n: nat, k: nat)
    requires k > 0
    ensures |NatText(n)| <= k <==> n < Raised(1, k)
  {
    DigitsOnly(n);
    RaisedText(1, k - 1);
    if k == 1 {
      assert Raised(1, 0) == 1;
    } else if n >= 10 {
      TextLength(n / 10, k - 1);
    }
  }

  // ---------------------------------------------------------------- the shortest decimal

  /** Neither of the two decimals around `n` that end in `z` zeros is read back as `n`, unless it is `n` itself. */
  predicate NoneShorter(n: nat, z: nat) {
    Raised(Cut(n, z), z) == n || (Nearest(Raised(Cut(n, z), z)) != n && Nearest(Raised(Cut(n, z) + 1, z)) != n)
  }

  /**
   An integer the standard writes digit by digit: a double of at most 21 digits that no shorter decimal stands for.
   */
  predicate Plain(n: nat) {
    IsDouble(n) && |NatText(n)| <= 21 && forall z | 0 <= z <= |NatText(n)| :: NoneShorter(n, z)
  }

  /** The better of the two decimals around `n` that end in `z` zeros, if either is read back as `n`. */
  lemma ClosestFinds(n: nat, z: nat)
    requires IsDouble(n)
    ensures Closest(n, z).None? ==> NoneShorter(n, z) && Raised(Cut(n, z), z) != n
    ensures Closest(n, z).Some? ==>
              var s := Closest(n, z).value;
              && Nearest(Raised(s, z)) == n
              && (s == Cut(n, z) || s == Cut(n, z) + 1)
              && (Raised(Cut(n, z), z) == n ==> s == Cut(n, z))
  {
    NearestIsNear(n);
    CutBounds(n, z);
  }

  /**
   What the search finds: a decimal beside `n` that is read back as `n`, exact where it can be, with the most zeros.
   */
  lemma {:induction false} ShortestFinds(n: nat, z: nat)
    requires IsDouble(n)
    ensures var (s, w) := Shortest(n, z);
            && w <= z
            && Nearest(Raised(s, w)) == n
            && (s == Cut(n, w) || s == Cut(n, w) + 1)
            && (Raised(Cut(n, w), w) == n ==> s == Cut(n, w))
            && (forall v | w < v <= z :: NoneShorter(n, v) && Raised(Cut(n, v), v) != n)
  {
    if z == 0 {
      NearestIsNear(n);
    } else {
      ClosestFinds(n, z);
      if Closest(n, z).None? {
        ShortestFinds(n, z - 1);
      }
    }
  }

  /** Some place both have differs, so whatever follows them they differ. */
  ghost predicate Apart(t: string, u: string) {
    exists i | 0 <= i < |t| && i < |u| :: t[i] != u[i]
  }

  lemma ApartBefore(t: string, after: string, u: string, later: string)
    requires Apart(t, u)
    ensures Apart(t + after, u + later)
  {
    var i :| 0 <= i < |t| && i < |u| && t[i] != u[i];
    assert (t + after)[i] == t[i] && (u + later)[i] == u[i];
  }

  lemma ApartAfter(before: string, t: string, u: string)
    requires Apart(t, u)
    ensures Apart(before + t, before + u)
  {
    var i :| 0 <= i < |t| && i < |u| && t[i] != u[i];
    assert (before + t)[|before| + i] == t[i] && (before + u)[|before| + i] == u[i];
  }

  lemma ApartWithin(before: string, t: string, u: string, after: string)
    requires Apart(t, u)
    ensures Apart(before + t + after, before + u + after)
  {
    ApartAfter(before, t, u);
    ApartBefore(before + t, after, before + u, after);
  }

  lemma ExponentIsApart(n: nat, digits: string, z: nat)
    requires digits != "" && |digits| + z > 21 && n >= 10
    ensures Apart(NatText(n), Layout(digits, z))
  {
    DigitsOnly(n);
    var u := Layout(digits, z);
    assert u[1] == if |digits| == 1 then 'e' else '.';
    assert '0' <= NatText(n)[1] <= '9';
  }

  /** Another decimal that is read back as `n` has other digits, from some place on that both have. */
  lemma OtherDecimalIsApart(n: nat, c: nat)
    requires n > 0 && c > 0 && c != n && Nearest(c) == n
    ensures Apart(NatText(n), NatText(c))
  {
    NearestIsNear(c);
    if NatText(n) <= NatText(c) {
      PrefixDivides(n, c);
    }
    if NatText(c) <= NatText(n) {
      PrefixDivides(c, n);
    }
  }

  /** The standard's text is the printer's where `alike` holds, and otherwise missing or apart from it. */
  ghost predicate Meets(t: string, u: Option<string>, alike: bool) {
    if alike then u == Some(t) else u.None? || Apart(t, u.value)
  }

  lemma {:induction false} RaisedZero(z: nat)
    ensures Raised(0, z) == 0
  {
    if z > 0 {
      RaisedZero(z - 1);
    }
  }

  /** On doubles the standard writes every digit exactly of the plain ones. */
  lemma NatsMeet(n: nat)
    requires n > 0 && IsDouble(n)
    ensures Meets(NatText(n), Some(RfcNat(n)), Plain(n))
  {
    var (s, w) := Shortest(n, |NatText(n)|);
    ShortestFinds(n, |NatText(n)|);
    CutBounds(n, w);
    RaisedZero(w);
    NearestIsNear(0);
    RaisedText(s, w);
    DigitsOnly(s);
    DigitsOnly(n);
    if Raised(s, w) == n {
      NoneShorterThanExact(n, s, w);
      ExactMeets(n, s, w);
    } else {
      assert !NoneShorter(n, w);
      OtherMeets(n, s, w);
    }
  }

  lemma ExactMeets(n: nat, s: nat, w: nat)
    requires n > 0 && s > 0 && IsDouble(n) && Raised(s, w) == n
    requires forall z | 0 <= z <= |NatText(n)| :: NoneShorter(n, z)
    ensures NatText(s) != "" && Meets(NatText(n), Some(Layout(NatText(s), w)), Plain(n))
  {
    RaisedText(s, w);
    DigitsOnly(s);
    DigitsOnly(n);
    if |NatText(n)| > 21 {
      ExponentIsApart(n, NatText(s), w);
    }
  }

  lemma NoneShorterThanExact(n: nat, s: nat, w: nat)
    requires IsDouble(n) && (s, w) == Shortest(n, |NatText(n)|) && Raised(s, w) == n
    ensures forall z | 0 <= z <= |NatText(n)| :: NoneShorter(n, z)
  {
    ShortestFinds(n, |NatText(n)|);
    CutBounds(n, w);
    forall z | 0 <= z <= w
      ensures NoneShorter(n, z)
    {
      FewerZeros(n, z, w);
    }
  }

  lemma OtherMeets(n: nat, s: nat, w: nat)
    requires n > 0 && s > 0 && Raised(s, w) != n && Nearest(Raised(s, w)) == n
    ensures NatText(s) != "" && Apart(NatText(n), Layout(NatText(s), w))
  {
    var c := Raised(s, w);
    RaisedText(s, w);
    DigitsOnly(s);
    NearestIsNear(c);
    if |NatText(s)| + w <= 21 {
      OtherDecimalIsApart(n, c);
    } else {
      ExponentIsApart(n, NatText(s), w);
    }
  }

  // ---------------------------------------------------------------- property names

  /** Section 3.2.3: property names are compared as arrays of UTF-16 code units. */
  function CodeUnits(s: string): seq<nat> {
    if s == "" then []
    else
      var c := s[0] as nat;
      (if c < 0x10000 then [c] else [0xD800 + (c - 0x10000) / 0x400, 0xDC00 + (c - 0x10000) % 0x400])
      + CodeUnits(s[1..])
  }

  predicate UnitsLess(a: seq<nat>, b: seq<nat>) {
    |b| != 0 && (|a| == 0 || a[0] < b[0] || (a[0] == b[0] && UnitsLess(a[1..], b[1..])))
  }

  function RfcInsert<T>(e: Entry<T>, es: seq<Entry<T>>): seq<Entry<T>> {
    if es == [] || !UnitsLess(CodeUnits(es[0].key), CodeUnits(e.key)) then [e] + es
    else [es[0]] + RfcInsert(e, es[1..])
  }

  function RfcSort<T>(es: seq<Entry<T>>): seq<Entry<T>> {
    if es == [] then [] else RfcInsert(es[0], RfcSort(es[1..]))
  }

  lemma RfcSortKeepsEntries<T(!new)>(es: seq<Entry<T>>)
    requires forall i | 0 <= i < |es| :: IsAscii(es[i].key)
    ensures RfcSort(es) == SortEntries(es)
  {
    if es != [] {
      RfcSortKeepsEntries(es[1..]);
      var rest := SortEntries(es[1..]);
      forall i | 0 <= i < |rest|
        ensures IsAscii(rest[i].key)
      {
        assert rest[i] in es[1..];
      }
      RfcInsertAgrees(es[0], rest);
    }
  }

  lemma RfcInsertAgrees<T>(e: Entry<T>, es: seq<Entry<T>>)
    requires IsAscii(e.key) && forall i | 0 <= i < |es| :: IsAscii(es[i].key)
    ensures RfcInsert(e, es) == InsertEntry(e, es)
  {
    if es != [] {
      UnitsAreBytes(es[0].key, e.key);
    }
  }

  /** On ASCII names the order of code units is the order of bytes. */
  lemma UnitsAreBytes(a: string, b: string)
    requires IsAscii(a) && IsAscii(b)
    ensures UnitsLess(CodeUnits(a), CodeUnits(b)) <==> KeyLess(a, b)
  {
    if a != "" && b != "" {
      UnitsAreBytes(a[1..], b[1..]);
      assert CodeUnits(a)[1..] == CodeUnits(a[1..]) && CodeUnits(b)[1..] == CodeUnits(b[1..]);
    }
  }

  // ---------------------------------------------------------------- whole values

  predicate AllGiven(texts: seq<Option<string>>) {
    forall i | 0 <= i < |texts| :: texts[i].Some?
  }

  function Given(texts: seq<Option<string>>): seq<string>
    requires AllGiven(texts)
  {
    seq(|texts|, i requires 0 <= i < |texts| => texts[i].value)
  }

  function Enclosed(open: string, texts: seq<Option<string>>, close: string): Option<string> {
    if AllGiven(texts) then Some(open + Join(Given(texts)) + close) else None
  }

  function RfcEntry(key: string, value: Option<string>): Option<string> {
    if value.Some? then Some(RfcString(key) + ":" + value.value) else None
  }

  /** The text the standard gives a value, if it gives one; a table's names are ASCII here, as `HasText` says. */
  function RfcText(v: Value): Option<string>
    requires HasText(v)
  {
    match v
    case Bool(flag) => Some(if flag then "true" else "false")
    case Int(number) => RfcInt(number)
    case Str(text) => Some(RfcString(text))
    case List(items) =>
      Enclosed("[", seq(|items|, i requires 0 <= i < |items| => RfcText(items[i])), "]")
    case Table(entries) =>
      RfcSortKeepsEntries(entries);
      var sorted := RfcSort(entries);
      assert forall i | 0 <= i < |sorted| :: sorted[i] in entries;
      Enclosed("{", seq(|sorted|, i requires 0 <= i < |sorted| => RfcEntry(sorted[i].key, RfcText(sorted[i].value))),
          "}")
  }

  /** No character the standard escapes and the printer writes as it is. */
  predicate NoControls(s: string) {
    forall i | 0 <= i < |s| :: s[i] >= ' '
  }

  function Magnitude(n: int): nat {
    if n < 0 then -n else n
  }

  /** No string or name holds a control character, and every integer is one the standard writes digit by digit. */
  predicate WrittenAlike(v: Value) {
    match v
    case Int(number) => Plain(Magnitude(number))
    case Str(text) => NoControls(text)
    case List(items) => forall i | 0 <= i < |items| :: WrittenAlike(items[i])
    case Table(entries) =>
      forall i | 0 <= i < |entries| :: NoControls(entries[i].key) && WrittenAlike(entries[i].value)
    case _ => true
  }

  lemma IntsMeet(n: int)
    ensures Meets(IntText(n), RfcInt(n), Plain(Magnitude(n)))
  {
    NearestIsNear(0);
    if n == 0 {
      ZeroIsPlain();
    } else if IsDouble(Magnitude(n)) {
      NatsMeet(Magnitude(n));
      if n < 0 && !Plain(-n) {
        ApartAfter("-", NatText(-n), RfcNat(-n));
      }
    }
  }

  lemma ZeroIsPlain()
    ensures Plain(0)
  {
    ExactIntegersArePlain(0);
  }

  /** Every integer up to 2^53 - 1 is plain. */
  lemma ExactIntegersArePlain(n: nat)
    requires n < EXACT
    ensures Plain(n)
  {
    NearestIsNear(n);
    assert Raised(1, 7) == 10_000_000 && Raised(1, 14) == 100_000_000_000_000;
    TextLength(n, 21);
    forall z | 0 <= z <= |NatText(n)|
      ensures NoneShorter(n, z)
    {
      CutBounds(n, z);
      NearestIsNear(Raised(Cut(n, z), z));
      NearestIsNear(Raised(Cut(n, z) + 1, z));
    }
  }

  // ---------------------------------------------------------------- where the printer meets the standard

  lemma {:induction false} EscapesMeet(s: string)
    ensures Meets(Escape(s), Some(RfcEscape(s)), NoControls(s))
  {
    if s != "" {
      EscapesMeet(s[1..]);
      assert NoControls(s) <==> s[0] >= ' ' && NoControls(s[1..]);
      if s[0] < ' ' {
        ControlIsApart(s);
      } else if !NoControls(s[1..]) {
        LaterControlIsApart(s);
      }
    }
  }

  lemma ControlIsApart(s: string)
    requires s != "" && s[0] < ' '
    ensures Apart(Escape(s), RfcEscape(s))
  {
    assert RfcEscapeChar(s[0])[0] == '\\';
    assert Escape(s)[0] == s[0] && RfcEscape(s)[0] == '\\';
  }

  lemma LaterControlIsApart(s: string)
    requires s != "" && s[0] >= ' ' && Apart(Escape(s[1..]), RfcEscape(s[1..]))
    ensures Apart(Escape(s), RfcEscape(s))
  {
    SameEscape(s[0]);
    ApartAfter(EscapeChar(s[0]), Escape(s[1..]), RfcEscape(s[1..]));
  }

  lemma SameEscape(c: char)
    requires c >= ' '
    ensures RfcEscapeChar(c) == EscapeChar(c)
  {
  }

  lemma StringsMeet(s: string)
    ensures Meets(StringText(s), Some(RfcString(s)), NoControls(s))
  {
    ReplacementsEscape(s);
    EscapesMeet(s);
    if !NoControls(s) {
      ApartWithin("\"", Escape(s), RfcEscape(s), "\"");
    }
  }

  ghost predicate All(alike: seq<bool>) {
    forall i | 0 <= i < |alike| :: alike[i]
  }

  lemma {:induction false} JoinsMeet(ts: seq<string>, us: seq<string>, alike: seq<bool>)
    requires |ts| == |us| == |alike|
    requires forall i | 0 <= i < |ts| :: Meets(ts[i], Some(us[i]), alike[i])
    ensures Meets(Join(ts), Some(Join(us)), All(alike))
  {
    if ts != [] {
      JoinsMeet(ts[1..], us[1..], alike[1..]);
      assert All(alike) <==> alike[0] && All(alike[1..]) by {
        assert alike == [alike[0]] + alike[1..];
      }
      assert Meets(ts[0], Some(us[0]), alike[0]);
      if !alike[0] {
        FirstIsApart(ts, us);
      } else if !All(alike[1..]) {
        LaterIsApart(ts, us);
      }
    }
  }

  lemma FirstIsApart(ts: seq<string>, us: seq<string>)
    requires |ts| == |us| > 0 && Apart(ts[0], us[0])
    ensures Apart(Join(ts), Join(us))
  {
    if |ts| > 1 {
      ApartBefore(ts[0], ",", us[0], ",");
      ApartBefore(ts[0] + ",", Join(ts[1..]), us[0] + ",", Join(us[1..]));
    }
  }

  lemma LaterIsApart(ts: seq<string>, us: seq<string>)
    requires |ts| == |us| > 0 && ts[0] == us[0] && Apart(Join(ts[1..]), Join(us[1..]))
    ensures Apart(Join(ts), Join(us))
  {
    ApartAfter(ts[0] + ",", Join(ts[1..]), Join(us[1..]));
  }

  lemma EnclosedMeets(open: string, ts: seq<string>, us: seq<Option<string>>, close: string, alike: seq<bool>)
    requires |ts| == |us| == |alike|
    requires forall i | 0 <= i < |ts| :: Meets(ts[i], us[i], alike[i])
    ensures Meets(open + Join(ts) + close, Enclosed(open, us, close), All(alike))
  {
    if AllGiven(us) {
      var given := Given(us);
      forall i | 0 <= i < |ts|
        ensures Meets(ts[i], Some(given[i]), alike[i])
      {
        assert us[i] == Some(given[i]);
      }
      JoinsMeet(ts, given, alike);
      if !All(alike) {
        ApartWithin(open, Join(ts), Join(given), close);
      }
    } else {
      var i :| 0 <= i < |us| && us[i].None?;
      assert Meets(ts[i], us[i], alike[i]);
      assert !alike[i];
    }
  }

  lemma EntriesMeet(key: string, t: string, u: Option<string>, alike: bool)
    requires Meets(t, u, alike)
    ensures Meets(StringText(key) + ":" + t, RfcEntry(key, u), NoControls(key) && alike)
  {
    StringsMeet(key);
    if u.Some? {
      if !NoControls(key) {
        ApartBefore(StringText(key), ":", RfcString(key), ":");
        ApartBefore(StringText(key) + ":", t, RfcString(key) + ":", u.value);
      } else if !alike {
        ApartAfter(StringText(key) + ":", t, u.value);
      }
    }
  }

  lemma ListsMeet(v: Value)
    requires v.List? && HasText(v)
    requires forall i | 0 <= i < |v.items| :: Meets(Text(v.items[i]), RfcText(v.items[i]), WrittenAlike(v.items[i]))
    ensures Meets(Text(v), RfcText(v), WrittenAlike(v))
  {
    var ts := seq(|v.items|, i requires 0 <= i < |v.items| => Text(v.items[i]));
    var us := seq(|v.items|, i requires 0 <= i < |v.items| => RfcText(v.items[i]));
    var alike := seq(|v.items|, i requires 0 <= i < |v.items| => WrittenAlike(v.items[i]));
    EnclosedMeets("[", ts, us, "]", alike);
    assert All(alike) <==> WrittenAlike(v) by {
      if WrittenAlike(v) {
        assert forall i | 0 <= i < |v.items| :: alike[i] == WrittenAlike(v.items[i]);
      } else {
        var i :| 0 <= i < |v.items| && !WrittenAlike(v.items[i]);
        assert !alike[i];
      }
    }
  }

  lemma AlikeAfterSorting(es: seq<Entry<Value>>, alike: seq<bool>)
    requires |alike| == |SortEntries(es)|
    requires forall i | 0 <= i < |alike| ::
      alike[i] == (NoControls(SortEntries(es)[i].key) && WrittenAlike(SortEntries(es)[i].value))
    ensures All(alike) <==> WrittenAlike(Table(es))
  {
    var sorted := SortEntries(es);
    if All(alike) {
      forall i | 0 <= i < |es|
        ensures NoControls(es[i].key) && WrittenAlike(es[i].value)
      {
        assert es[i] in sorted;
        var j :| 0 <= j < |sorted| && sorted[j] == es[i];
        assert alike[j];
      }
    }
    if WrittenAlike(Table(es)) {
      forall i | 0 <= i < |alike|
        ensures alike[i]
      {
        assert sorted[i] in es;
      }
    }
  }

  lemma TablesMeet(v: Value)
    requires v.Table? && HasText(v)
    requires forall e | e in v.entries ::
               HasText(e.value) && Meets(Text(e.value), RfcText(e.value), WrittenAlike(e.value))
    ensures Meets(Text(v), RfcText(v), WrittenAlike(v))
  {
    RfcSortKeepsEntries(v.entries);
    var sorted := SortEntries(v.entries);
    assert forall i | 0 <= i < |sorted| :: sorted[i] in v.entries;
    var ts := seq(|sorted|, i requires 0 <= i < |sorted| => StringText(sorted[i].key) + ":" + Text(sorted[i].value));
    var us := seq(|sorted|, i requires 0 <= i < |sorted| => RfcEntry(sorted[i].key, RfcText(sorted[i].value)));
    var alike :=
        seq(|sorted|, i requires 0 <= i < |sorted| => NoControls(sorted[i].key) && WrittenAlike(sorted[i].value));
    forall i | 0 <= i < |sorted|
      ensures Meets(ts[i], us[i], alike[i])
    {
      EntriesMeet(sorted[i].key, Text(sorted[i].value), RfcText(sorted[i].value), WrittenAlike(sorted[i].value));
    }
    EnclosedMeets("{", ts, us, "}", alike);
    AlikeAfterSorting(v.entries, alike);
    assert Text(v) == "{" + Join(ts) + "}";
    assert RfcText(v) == Enclosed("{", us, "}");
  }

  lemma {:induction false} TextsMeet(v: Value)
    requires HasText(v)
    ensures Meets(Text(v), RfcText(v), WrittenAlike(v))
  {
    match v
    case Bool(_) =>
    case Int(number) =>
      IntsMeet(number);
    case Str(text) =>
      StringsMeet(text);
    case List(items) =>
      forall i | 0 <= i < |items|
        ensures Meets(Text(items[i]), RfcText(items[i]), WrittenAlike(items[i]))
      {
        TextsMeet(items[i]);
      }
      ListsMeet(v);
    case Table(entries) =>
      forall e | e in entries
        ensures HasText(e.value) && Meets(Text(e.value), RfcText(e.value), WrittenAlike(e.value))
      {
        var i :| 0 <= i < |entries| && entries[i] == e;
        TextsMeet(entries[i].value);
      }
      TablesMeet(v);
  }

  /**
   The printer writes what the standard writes exactly on the values that hold no control character and no integer
   but those the standard writes digit by digit.
   */
  lemma AgreesWithRfc8785(v: Value)
    requires HasText(v)
    ensures RfcText(v) == Some(Text(v)) <==> WrittenAlike(v)
  {
    TextsMeet(v);
  }

  // ---------------------------------------------------------------- which integers

  predicate ControlFree(v: Value) {
    match v
    case Str(text) => NoControls(text)
    case List(items) => forall i | 0 <= i < |items| :: ControlFree(items[i])
    case Table(entries) =>
      forall i | 0 <= i < |entries| :: NoControls(entries[i].key) && ControlFree(entries[i].value)
    case _ => true
  }

  /** Every integer is at most 2^53 - 1 in magnitude. */
  predicate ExactIntegers(v: Value) {
    match v
    case Int(number) => Magnitude(number) < EXACT
    case List(items) => forall i | 0 <= i < |items| :: ExactIntegers(items[i])
    case Table(entries) => forall i | 0 <= i < |entries| :: ExactIntegers(entries[i].value)
    case _ => true
  }

  lemma {:induction false} ExactIntegersAreAlike(v: Value)
    requires ExactIntegers(v)
    ensures WrittenAlike(v) <==> ControlFree(v)
  {
    match v
    case Int(number) => ExactIntegersArePlain(Magnitude(number));
    case List(items) =>
      forall i | 0 <= i < |items|
        ensures WrittenAlike(items[i]) <==> ControlFree(items[i])
      {
        ExactIntegersAreAlike(items[i]);
      }
    case Table(entries) =>
      forall i | 0 <= i < |entries|
        ensures WrittenAlike(entries[i].value) <==> ControlFree(entries[i].value)
      {
        ExactIntegersAreAlike(entries[i].value);
      }
    case _ =>
  }

  /** Within +-(2^53 - 1) only control characters are written otherwise. */
  lemma AgreesOnExactIntegers(v: Value)
    requires HasText(v) && ExactIntegers(v)
    ensures RfcText(v) == Some(Text(v)) <==> ControlFree(v)
  {
    AgreesWithRfc8785(v);
    ExactIntegersAreAlike(v);
  }

  /** From 10^21 on the standard writes an exponent, or has no such number. */
  lemma LargeIntegersAreNotPlain(n: nat)
    requires n >= 1_000_000_000_000_000_000_000
    ensures !Plain(n)
  {
    assert Raised(1, 7) == 10_000_000 && Raised(1, 14) == 100_000_000_000_000;
    TextLength(n, 21);
  }

  /** Beyond 2^53 no odd integer is a double, so the standard has no such number. */
  lemma OddIntegersAreNoDoubles(n: nat)
    requires n >= EXACT && n % 2 == 1
    ensures RfcInt(n) == None && !Plain(n)
  {
    SignificandIsLong(n);
    var k := Binades(n);
    assert Below(n) == 2 * Doubled(Halved(n, k), k - 1);
  }

  /** Nor is every double plain: 2^60 is written 1152921504606847000. */
  lemma ADoubleWithAShorterText(n: nat)
    requires n == 0x1000_0000_0000_0000
    ensures IsDouble(n) && !Plain(n)
  {
    var s := Cut(n, 3) + 1;
    assert Raised(s, 1) == 10 * s;
    assert Raised(s, 3) == 1_152_921_504_606_847_000;
    EightBinades(n);
    EightBinades(1_152_921_504_606_847_000);
    CutBounds(n, 3);
    TextLength(n, 2);
    assert Raised(1, 2) == 100;
    assert !NoneShorter(n, 3);
  }

  lemma {:induction false} BinadesOf(n: nat, k: nat)
    requires Doubled(EXACT / 2, k) <= n < Doubled(EXACT, k)
    requires n >= EXACT / 2
    ensures Binades(n) == k
  {
    if k > 0 {
      DoubledGrows(EXACT / 2, EXACT, k);
      BinadesOf(n / 2, k - 1);
    }
  }

  lemma EightBinades(n: nat)
    requires 0x1000_0000_0000_0000 <= n < 0x2000_0000_0000_0000
    ensures Binades(n) == 8 && Below(n) == n / 256 * 256 && Above(n) == n / 256 * 256 + 256
    ensures Halved(n, 8) == n / 256
  {
    ThereAreEight(n);
    EightHalvings(n);
    EightDoublings(n / 256);
    EightDoublings(n / 256 + 1);
  }

  lemma EightHalvings(n: nat)
    ensures Halved(n, 8) == n / 256
  {
    HalvedBounds(n, 8);
    EightDoublings(Halved(n, 8));
    EightDoublings(Halved(n, 8) + 1);
  }

  lemma ThereAreEight(n: nat)
    requires 0x1000_0000_0000_0000 <= n < 0x2000_0000_0000_0000
    ensures Binades(n) == 8
  {
    EightDoublings(EXACT / 2);
    EightDoublings(EXACT);
    BinadesOf(n, 8);
  }

  lemma EightDoublings(n: nat)
    ensures Doubled(n, 8) == 256 * n
  {
    assert Doubled(n, 0) == n && Doubled(n, 1) == 2 * n && Doubled(n, 2) == 4 * n;
    assert Doubled(n, 3) == 8 * n && Doubled(n, 4) == 16 * n && Doubled(n, 5) == 32 * n;
    assert Doubled(n, 6) == 64 * n && Doubled(n, 7) == 128 * n;
  }
}
