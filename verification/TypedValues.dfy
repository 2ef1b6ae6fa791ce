/**
 The two equalities of frozen states in `check_research_gates`: `same_value`, which compares two TOML values, and
 `typed`, the encoding whose JSON text is hashed. Proved: `same_value` is an equivalence relation, values with
 equal typed forms are the same value, and for the values a TOML parser makes the converse holds too.
 */
module TypedValues {
  import opened Basics

  // ---------------------------------------------------------------- digits

  function Pow(base: nat, n: nat): nat {
    if n == 0 then 1 else base * Pow(base, n - 1)
  }

  /** The last `width` decimal digits of `n`. */
  function Decimal(width: nat, n: nat): (text: string)
    ensures |text| == width
  {
    if width == 0 then "" else Decimal(width - 1, n / 10) + [HexDigit(n % 10)]
  }

  /** The last `width` hexadecimal digits of `n`. */
  function Hex(width: nat, n: nat): (text: string)
    ensures |text| == width
  {
    if width == 0 then "" else Hex(width - 1, n / 16) + [HexDigit(n % 16)]
  }

  lemma SameLast<T>(xs: seq<T>, x: T, ys: seq<T>, y: T)
    requires xs + [x] == ys + [y]
    ensures xs == ys && x == y
  {
    assert (xs + [x])[|xs|] == x && (ys + [y])[|ys|] == y;
    assert xs == (xs + [x])[..|xs|] && ys == (ys + [y])[..|ys|];
  }

  /** Numbers that fit are told apart by their digits. */
  lemma {:induction false} DecimalIsOneToOne(width: nat, m: nat, n: nat)
    requires m < Pow(10, width) && n < Pow(10, width) && Decimal(width, m) == Decimal(width, n)
    ensures m == n
  {
    if width != 0 {
      SameLast(Decimal(width - 1, m / 10), HexDigit(m % 10), Decimal(width - 1, n / 10), HexDigit(n % 10));
      DecimalIsOneToOne(width - 1, m / 10, n / 10);
    }
  }

  /** The same in base sixteen. */
  lemma {:induction false} HexIsOneToOne(width: nat, m: nat, n: nat)
    requires m < Pow(16, width) && n < Pow(16, width) && Hex(width, m) == Hex(width, n)
    ensures m == n
  {
    if width != 0 {
      SameLast(Hex(width - 1, m / 16), HexDigit(m % 16), Hex(width - 1, n / 16), HexDigit(n % 16));
      HexIsOneToOne(width - 1, m / 16, n / 16);
    }
  }

  // ---------------------------------------------------------------- floats

  const FRACTION := 0x10_0000_0000_0000

  type Exponent = e | 0 <= e < 0x800
  type Fraction = f | 0 <= f < FRACTION

  /** A 64-bit float by the fields of IEEE 754's binary64 format. */
  datatype Double = Double(negative: bool, exponent: Exponent, fraction: Fraction)

  predicate IsNaN(d: Double) {
    d.exponent == 0x7ff && d.fraction != 0
  }

  /**
   The value of a number that is no NaN, without its sign, in units of the smallest subnormal; infinity is above them
   all.
   */
  function Magnitude(d: Double): nat {
    if d.exponent == 0 then d.fraction else (FRACTION + d.fraction) * Pow(2, d.exponent - 1)
  }

  function Signed(d: Double): int {
    if d.negative then 0 - Magnitude(d) else Magnitude(d)
  }

  /** Python's `==` on floats. */
  predicate FloatEquals(a: Double, b: Double) {
    !IsNaN(a) && !IsNaN(b) && Signed(a) == Signed(b)
  }

  function Bits(d: Double): (n: nat)
    ensures n < Pow(16, 16)
  {
    assert Pow(16, 16) == 0x1_0000_0000_0000_0000 by {
      assert Pow(16, 4) == 0x1_0000;
      assert Pow(16, 8) == 0x1_0000_0000;
      assert Pow(16, 12) == 0x1_0000_0000_0000;
    }
    (if d.negative then 0x8000_0000_0000_0000 else 0) + d.exponent * FRACTION + d.fraction
  }

  lemma BitsAreOneToOne(a: Double, b: Double)
    requires Bits(a) == Bits(b)
    ensures a == b
  {
  }

  lemma {:induction false} PowGrows(n: nat, m: nat)
    requires n <= m
    ensures 1 <= Pow(2, n) <= Pow(2, m)
    decreases m - n, n
  {
    if n < m {
      PowGrows(n, m - 1);
    } else if n > 0 {
      PowGrows(n - 1, n - 1);
    }
  }

  lemma Scaled(a: nat, b: nat, p: nat)
    requires a < b && p >= 1
    ensures a * p < b * p
  {
  }

  /** A larger exponent is a larger number. */
  lemma ExponentDominates(a: Double, b: Double)
    requires a.exponent < b.exponent
    ensures Magnitude(a) < Magnitude(b)
  {
    var below, top := Pow(2, b.exponent - 1), FRACTION + b.fraction;
    PowGrows(0, b.exponent - 1);
    assert FRACTION * below <= top * below by {
      Scaled(FRACTION, top + 1, below);
    }
    if a.exponent > 0 {
      PowGrows(a.exponent, b.exponent - 1);
      Scaled(FRACTION + a.fraction, 2 * FRACTION, Pow(2, a.exponent - 1));
      assert 2 * FRACTION * Pow(2, a.exponent - 1) == FRACTION * Pow(2, a.exponent);
    }
  }

  lemma FractionDecides(a: Double, b: Double)
    requires a.exponent == b.exponent && a.fraction < b.fraction
    ensures Magnitude(a) < Magnitude(b)
  {
    if a.exponent > 0 {
      PowGrows(0, a.exponent - 1);
      Scaled(FRACTION + a.fraction, FRACTION + b.fraction, Pow(2, a.exponent - 1));
    }
  }

  /** Numbers of one magnitude have one exponent and one fraction. */
  lemma MagnitudeIsOneToOne(a: Double, b: Double)
    requires Magnitude(a) == Magnitude(b)
    ensures a.exponent == b.exponent && a.fraction == b.fraction
  {
    if a.exponent < b.exponent {
      ExponentDominates(a, b);
    } else if b.exponent < a.exponent {
      ExponentDominates(b, a);
    } else if a.fraction < b.fraction {
      FractionDecides(a, b);
    } else if b.fraction < a.fraction {
      FractionDecides(b, a);
    }
  }

  predicate SameFloat(a: Double, b: Double) {
    (FloatEquals(a, b) || (IsNaN(a) && IsNaN(b))) && a.negative == b.negative
  }

  /** `same_value` keeps every bit of a float but the payload of a NaN. */
  lemma SameFloatKeepsBits(a: Double, b: Double)
    ensures SameFloat(a, b) <==> a == b || (IsNaN(a) && IsNaN(b) && a.negative == b.negative)
  {
    if SameFloat(a, b) && !IsNaN(a) {
      MagnitudeIsOneToOne(a, b);
    }
  }

  // ---------------------------------------------------------------- dates and times

  type Year = y | 1 <= y <= 9999 witness 1
  type Month = m | 1 <= m <= 12 witness 1
  type Day = d | 1 <= d <= 31 witness 1

  datatype Date = Date(year: Year, month: Month, day: Day)

  type Hour = h | 0 <= h < 24
  type Sixtieth = m | 0 <= m < 60
  type Micro = m | 0 <= m < 1_000_000

  datatype Clock = Clock(hour: Hour, minute: Sixtieth, second: Sixtieth, micro: Micro)

  /** Minutes east of UTC, less than a day. */
  type Offset = o | -1440 < o < 1440

  datatype Time = Time(clock: Clock, offset: Option<Offset>)
  datatype DateTime = DateTime(date: Date, clock: Clock, offset: Option<Offset>)

  const DAYS_BEFORE_MONTH := [0, 31, 59, 90, 120, 151, 181, 212, 243, 273, 304, 334]

  function Ordinal(d: Date): int {
    var y := d.year - 1;
    var leap := if d.month > 2 && (d.year % 4 == 0 && (d.year % 100 != 0 || d.year % 400 == 0)) then 1 else 0;
    y * 365 + y / 4 - y / 100 + y / 400 + DAYS_BEFORE_MONTH[d.month - 1] + leap + d.day
  }

  function Micros(c: Clock): int {
    ((c.hour * 60 + c.minute) * 60 + c.second) * 1_000_000 + c.micro
  }

  function Instant(t: DateTime): int
    requires t.offset.Some?
  {
    Ordinal(t.date) * 86_400_000_000 + Micros(t.clock) - t.offset.value * 60_000_000
  }

  /**
   Python's `==` on datetimes: fields at one offset, instants at two, and never one with an offset and one without.
   */
  predicate DateTimeEquals(a: DateTime, b: DateTime) {
    if a.offset == b.offset then a.date == b.date && a.clock == b.clock
    else a.offset.Some? && b.offset.Some? && Instant(a) == Instant(b)
  }

  predicate TimeEquals(a: Time, b: Time) {
    if a.offset == b.offset then a.clock == b.clock
    else a.offset.Some? && b.offset.Some?
         && Micros(a.clock) - a.offset.value * 60_000_000 == Micros(b.clock) - b.offset.value * 60_000_000
  }

  function DateText(d: Date): string {
    Decimal(4, d.year) + "-" + Decimal(2, d.month) + "-" + Decimal(2, d.day)
  }

  function SecondsText(c: Clock): string {
    Decimal(2, c.hour) + ":" + Decimal(2, c.minute) + ":" + Decimal(2, c.second)
  }

  function MicroText(c: Clock): string {
    if c.micro == 0 then "" else "." + Decimal(6, c.micro)
  }

  function OffsetText(o: Option<Offset>): string {
    if o.None? then ""
    else [if o.value < 0 then '-' else '+'] + Decimal(2, Minutes(o.value) / 60) + ":"
         + Decimal(2, Minutes(o.value) % 60)
  }

  function Minutes(o: Offset): nat {
    if o < 0 then -o else o
  }

  function TimeText(t: Time): string {
    SecondsText(t.clock) + (MicroText(t.clock) + OffsetText(t.offset))
  }

  function DateTimeText(t: DateTime): string {
    DateText(t.date) + ("T" + TimeText(Time(t.clock, t.offset)))
  }

  lemma DateTextIsOneToOne(a: Date, b: Date)
    requires DateText(a) == DateText(b)
    ensures a == b
  {
    var x, y := DateText(a), DateText(b);
    assert x[..4] == Decimal(4, a.year) && x[5..7] == Decimal(2, a.month) && x[8..10] == Decimal(2, a.day);
    assert y[..4] == Decimal(4, b.year) && y[5..7] == Decimal(2, b.month) && y[8..10] == Decimal(2, b.day);
    PowersOfTen();
    DecimalIsOneToOne(4, a.year, b.year);
    DecimalIsOneToOne(2, a.month, b.month);
    DecimalIsOneToOne(2, a.day, b.day);
  }

  lemma PowersOfTen()
    ensures Pow(10, 2) == 100 && Pow(10, 4) == 10_000 && Pow(10, 6) == 1_000_000
  {
    assert Pow(10, 2) == 100;
    assert Pow(10, 4) == 10_000;
  }

  lemma OffsetTextIsOneToOne(a: Option<Offset>, b: Option<Offset>)
    requires OffsetText(a) == OffsetText(b)
    ensures a == b
  {
    if a.Some? && b.Some? {
      var m, n := Minutes(a.value), Minutes(b.value);
      var x, y := OffsetText(a), OffsetText(b);
      assert x[0] == (if a.value < 0 then '-' else '+') && y[0] == (if b.value < 0 then '-' else '+');
      assert x[1..3] == Decimal(2, m / 60) && x[4..6] == Decimal(2, m % 60);
      assert y[1..3] == Decimal(2, n / 60) && y[4..6] == Decimal(2, n % 60);
      PowersOfTen();
      DecimalIsOneToOne(2, m / 60, n / 60);
      DecimalIsOneToOne(2, m % 60, n % 60);
    }
  }

  /** What follows the seconds: microseconds when there are any, and the offset when there is one. */
  lemma TailIsOneToOne(a: Clock, o: Option<Offset>, b: Clock, p: Option<Offset>)
    requires MicroText(a) + OffsetText(o) == MicroText(b) + OffsetText(p)
    ensures a.micro == b.micro && o == p
  {
    var x, y := MicroText(a) + OffsetText(o), MicroText(b) + OffsetText(p);
    assert a.micro != 0 ==> x[0] == '.';
    assert b.micro != 0 ==> y[0] == '.';
    assert a.micro == 0 ==> x == OffsetText(o);
    assert b.micro == 0 ==> y == OffsetText(p);
    if a.micro != 0 && b.micro != 0 {
      assert x[1..7] == Decimal(6, a.micro) && y[1..7] == Decimal(6, b.micro);
      assert x[7..] == OffsetText(o) && y[7..] == OffsetText(p);
      PowersOfTen();
      DecimalIsOneToOne(6, a.micro, b.micro);
    }
    OffsetTextIsOneToOne(o, p);
  }

  lemma SecondsAreOneToOne(a: Clock, b: Clock)
    requires SecondsText(a) == SecondsText(b)
    ensures a.hour == b.hour && a.minute == b.minute && a.second == b.second
  {
    var x, y := SecondsText(a), SecondsText(b);
    assert x[..2] == Decimal(2, a.hour) && x[3..5] == Decimal(2, a.minute) && x[6..8] == Decimal(2, a.second);
    assert y[..2] == Decimal(2, b.hour) && y[3..5] == Decimal(2, b.minute) && y[6..8] == Decimal(2, b.second);
    PowersOfTen();
    DecimalIsOneToOne(2, a.hour, b.hour);
    DecimalIsOneToOne(2, a.minute, b.minute);
    DecimalIsOneToOne(2, a.second, b.second);
  }

  lemma TimeTextIsOneToOne(a: Time, b: Time)
    requires TimeText(a) == TimeText(b)
    ensures a == b
  {
    SameSplit(SecondsText(a.clock), MicroText(a.clock) + OffsetText(a.offset),
              SecondsText(b.clock), MicroText(b.clock) + OffsetText(b.offset));
    SecondsAreOneToOne(a.clock, b.clock);
    TailIsOneToOne(a.clock, a.offset, b.clock, b.offset);
  }

  lemma DateTimeTextIsOneToOne(a: DateTime, b: DateTime)
    requires DateTimeText(a) == DateTimeText(b)
    ensures a == b
  {
    SameSplit(DateText(a.date), "T" + TimeText(Time(a.clock, a.offset)),
              DateText(b.date), "T" + TimeText(Time(b.clock, b.offset)));
    SameSplit("T", TimeText(Time(a.clock, a.offset)), "T", TimeText(Time(b.clock, b.offset)));
    DateTextIsOneToOne(a.date, b.date);
    TimeTextIsOneToOne(Time(a.clock, a.offset), Time(b.clock, b.offset));
  }

  lemma SameSplit<T>(a: seq<T>, b: seq<T>, c: seq<T>, d: seq<T>)
    requires |a| == |c| && a + b == c + d
    ensures a == c && b == d
  {
    assert a == (a + b)[..|a|] && c == (c + d)[..|c|];
    assert b == (a + b)[|a|..] && d == (c + d)[|c|..];
  }

  // ---------------------------------------------------------------- values

  datatype Value = Bool(b: bool) | Int(n: int) | Float(x: Double) | Str(s: string)
                 | DateTimeOf(at: DateTime) | DateOf(day: Date) | TimeOf(time: Time)
                 | List(items: seq<Value>) | Table(fields: map<string, Value>)

  /** `same_value`. */
  predicate SameValue(a: Value, b: Value) {
    match (a, b)
    case (Table(f), Table(g)) => f.Keys == g.Keys && forall key | key in f :: SameValue(f[key], g[key])
    case (List(f), List(g)) => |f| == |g| && forall i | 0 <= i < |f| :: SameValue(f[i], g[i])
    case (Float(x), Float(y)) => SameFloat(x, y)
    case (DateTimeOf(t), DateTimeOf(u)) => DateTimeEquals(t, u) && t.offset == u.offset
    case (TimeOf(t), TimeOf(u)) => TimeEquals(t, u) && t.offset == u.offset
    case (Bool(_), Bool(_)) => a == b
    case (Int(_), Int(_)) => a == b
    case (Str(_), Str(_)) => a == b
    case (DateOf(_), DateOf(_)) => a == b
    case _ => false
  }

  /** What `typed` returns: JSON text holds no more than this of it. */
  datatype Form = Text(text: string) | Number(n: int) | Truth(b: bool) | Items(items: seq<Form>)
                | Fields(fields: map<string, Form>)

  /** `typed`. */
  function Typed(v: Value): Form {
    match v
    case Table(fields) => Fields(map key | key in fields :: Typed(fields[key]))
    case List(items) => Items(seq(|items|, i requires 0 <= i < |items| => Typed(items[i])))
    case Float(x) => Items([Text("float"), Text(Hex(16, Bits(x)))])
    case DateTimeOf(t) => Items([Text("datetime"), Text(DateTimeText(t))])
    case DateOf(d) => Items([Text("date"), Text(DateText(d))])
    case TimeOf(t) => Items([Text("time"), Text(TimeText(t))])
    case Bool(b) => Items([Text("bool"), Truth(b)])
    case Int(n) => Items([Text("int"), Number(n)])
    case Str(s) => Items([Text("str"), Text(s)])
  }

  predicate IsScalar(v: Value) {
    !v.List? && !v.Table?
  }

  /** A scalar's form begins with its type's name, and no list's form holds bare text. */
  lemma ScalarsAreNoLists(scalar: Value, list: Value)
    requires IsScalar(scalar) && !IsScalar(list)
    ensures Typed(scalar) != Typed(list)
  {
    assert Typed(scalar).Items? && Typed(scalar).items[0].Text?;
    if list.List? && list.items != [] {
      var first := Typed(list).items[0];
      assert first == Typed(list.items[0]) && !first.Text?;
    }
  }

  lemma ScalarForms(a: Value, b: Value)
    requires IsScalar(a) && IsScalar(b) && Typed(a) == Typed(b)
    ensures a == b
  {
    var f, g := Typed(a).items, Typed(b).items;
    assert f[0] == g[0] && f[1] == g[1];
    match (a, b)
    case (Float(x), Float(y)) =>
      HexIsOneToOne(16, Bits(x), Bits(y));
      BitsAreOneToOne(x, y);
    case (DateTimeOf(t), DateTimeOf(u)) => DateTimeTextIsOneToOne(t, u);
    case (DateOf(d), DateOf(e)) => DateTextIsOneToOne(d, e);
    case (TimeOf(t), TimeOf(u)) => TimeTextIsOneToOne(t, u);
    case _ =>
  }

  /** The encoding is one-to-one: no two values share a typed form. */
  lemma {:induction false} TypedIsOneToOne(a: Value, b: Value)
    requires Typed(a) == Typed(b)
    ensures a == b
  {
    if IsScalar(a) && IsScalar(b) {
      ScalarForms(a, b);
    } else if IsScalar(a) {
      ScalarsAreNoLists(a, b);
    } else if IsScalar(b) {
      ScalarsAreNoLists(b, a);
    } else if a.List? {
      assert |a.items| == |Typed(a).items| == |b.items|;
      forall i | 0 <= i < |a.items|
        ensures a.items[i] == b.items[i]
      {
        assert Typed(a).items[i] == Typed(b).items[i];
        TypedIsOneToOne(a.items[i], b.items[i]);
      }
    } else {
      assert a.fields.Keys == Typed(a).fields.Keys == Typed(b).fields.Keys == b.fields.Keys;
      forall key | key in a.fields
        ensures a.fields[key] == b.fields[key]
      {
        assert Typed(a).fields[key] == Typed(b).fields[key];
        TypedIsOneToOne(a.fields[key], b.fields[key]);
      }
      assert a.fields == b.fields;
    }
  }

  // ---------------------------------------------------------------- an equivalence

  lemma {:induction false} SameValueIsReflexive(a: Value)
    ensures SameValue(a, a)
  {
    match a
    case List(items) =>
      forall i | 0 <= i < |items|
        ensures SameValue(items[i], items[i])
      {
        SameValueIsReflexive(items[i]);
      }
    case Table(fields) =>
      forall key | key in fields
        ensures SameValue(fields[key], fields[key])
      {
        SameValueIsReflexive(fields[key]);
      }
    case _ =>
  }

  lemma {:induction false} SameValueIsSymmetric(a: Value, b: Value)
    requires SameValue(a, b)
    ensures SameValue(b, a)
  {
    match (a, b)
    case (List(f), List(g)) =>
      forall i | 0 <= i < |f|
        ensures SameValue(g[i], f[i])
      {
        SameValueIsSymmetric(f[i], g[i]);
      }
    case (Table(f), Table(g)) =>
      forall key | key in f
        ensures SameValue(g[key], f[key])
      {
        SameValueIsSymmetric(f[key], g[key]);
      }
    case _ =>
  }

  lemma {:induction false} SameValueIsTransitive(a: Value, b: Value, c: Value)
    requires SameValue(a, b) && SameValue(b, c)
    ensures SameValue(a, c)
  {
    match (a, b, c)
    case (List(f), List(g), List(h)) =>
      forall i | 0 <= i < |f|
        ensures SameValue(f[i], h[i])
      {
        SameValueIsTransitive(f[i], g[i], h[i]);
      }
    case (Table(f), Table(g), Table(h)) =>
      forall key | key in f
        ensures SameValue(f[key], h[key])
      {
        SameValueIsTransitive(f[key], g[key], h[key]);
      }
    case _ =>
  }

  // ---------------------------------------------------------------- the two equalities

  /** States `same_value` tells apart are told apart by their typed forms. */
  lemma EqualFormsAreTheSameValue(a: Value, b: Value)
    requires Typed(a) == Typed(b)
    ensures SameValue(a, b)
  {
    TypedIsOneToOne(a, b);
    SameValueIsReflexive(a);
  }

  /** The NaN a TOML parser makes: quiet, with no payload. */
  predicate PlainNaNs(v: Value) {
    match v
    case Float(x) => IsNaN(x) ==> x.fraction == FRACTION / 2
    case List(items) => forall i | 0 <= i < |items| :: PlainNaNs(items[i])
    case Table(fields) => forall key | key in fields :: PlainNaNs(fields[key])
    case _ => true
  }

  lemma {:induction false} SameValuesAreEqual(a: Value, b: Value)
    requires SameValue(a, b) && PlainNaNs(a) && PlainNaNs(b)
    ensures a == b
  {
    match (a, b)
    case (List(f), List(g)) =>
      forall i | 0 <= i < |f|
        ensures f[i] == g[i]
      {
        SameValuesAreEqual(f[i], g[i]);
      }
    case (Table(f), Table(g)) =>
      forall key | key in f
        ensures f[key] == g[key]
      {
        SameValuesAreEqual(f[key], g[key]);
      }
      assert f == g;
    case (Float(x), Float(y)) => SameFloatKeepsBits(x, y);
    case _ =>
  }

  /** On parsed values the digest and the comparison agree. */
  lemma FormsAgreeWithSameValue(a: Value, b: Value)
    requires PlainNaNs(a) && PlainNaNs(b)
    ensures Typed(a) == Typed(b) <==> SameValue(a, b)
  {
    if Typed(a) == Typed(b) {
      EqualFormsAreTheSameValue(a, b);
    }
    if SameValue(a, b) {
      SameValuesAreEqual(a, b);
    }
  }

  /** Two NaNs of one sign and two payloads are one value with two forms, so the converse needs plain NaNs. */
  lemma PayloadsAreToldApart()
    ensures var a, b := Float(Double(false, 0x7ff, 1)), Float(Double(false, 0x7ff, 2));
            SameValue(a, b) && Typed(a) != Typed(b)
  {
    var a, b := Float(Double(false, 0x7ff, 1)), Float(Double(false, 0x7ff, 2));
    if Typed(a) == Typed(b) {
      TypedIsOneToOne(a, b);
    }
  }

  /** One instant at two offsets is one under Python's `==`, and two values here. */
  lemma OneInstantTwoOffsets()
    ensures var noon := DateTime(Date(2024, 3, 1), Clock(12, 0, 0, 0), Some(0));
            var later := DateTime(Date(2024, 3, 1), Clock(13, 0, 0, 0), Some(60));
            && DateTimeEquals(noon, later)
            && !SameValue(DateTimeOf(noon), DateTimeOf(later))
            && Typed(DateTimeOf(noon)) != Typed(DateTimeOf(later))
  {
    var noon := DateTime(Date(2024, 3, 1), Clock(12, 0, 0, 0), Some(0));
    var later := DateTime(Date(2024, 3, 1), Clock(13, 0, 0, 0), Some(60));
    if Typed(DateTimeOf(noon)) == Typed(DateTimeOf(later)) {
      TypedIsOneToOne(DateTimeOf(noon), DateTimeOf(later));
    }
  }
}
