// Points in time and durations as pairs of seconds and attoseconds, with the
// carry rules of Epochstamp and TimeDuration, and the proof that every operation
// used by the ticker is exact on the total number of attoseconds.

module TimeArithmetic {

  const ATTOS_PER_SECOND: nat := 1_000_000_000_000_000_000
  const ATTOS_PER_MICRO: nat := 1_000_000_000_000
  const ATTOS_PER_NANO: nat := 1_000_000_000
  const MICROS_PER_SECOND: nat := 1_000_000
  const TWO_TO_THE_64: nat := 0x1_0000_0000_0000_0000

  datatype Epoch = Epoch(sec: nat, frac: nat) {
    ghost predicate Canonical() {
      frac < ATTOS_PER_SECOND
    }

    ghost function Attos(): nat {
      sec * ATTOS_PER_SECOND + frac
    }

    predicate Before(other: Epoch) {
      sec < other.sec || (sec == other.sec && frac < other.frac)
    }

    // operator+= with its single carry
    function Plus(d: Duration): Epoch {
      var f := frac + d.frac;
      if f >= ATTOS_PER_SECOND then Epoch(sec + d.sec + 1, f - ATTOS_PER_SECOND)
      else Epoch(sec + d.sec, f)
    }

    // getPtime: the timer resolves nanoseconds only
    function Nanos(): nat {
      sec * 1_000_000_000 + frac / ATTOS_PER_NANO
    }
  }

  datatype Duration = Duration(sec: nat, frac: nat) {
    ghost predicate Canonical() {
      frac < ATTOS_PER_SECOND
    }

    ghost function Attos(): nat {
      sec * ATTOS_PER_SECOND + frac
    }

    function Plus(d: Duration): Duration {
      var f := frac + d.frac;
      if f >= ATTOS_PER_SECOND then Duration(sec + d.sec + 1, f - ATTOS_PER_SECOND)
      else Duration(sec + d.sec, f)
    }

    // operator*=: the fraction is multiplied into 128 bits, its lower 64 bits are
    // reduced directly and each unit of the upper 64 bits adds a duration of 2^64
    // attoseconds.
    function Times(factor: nat): Duration
      requires Canonical()
      decreases factor
    {
      var product := frac * factor;
      var low, high := product % TWO_TO_THE_64, product / TWO_TO_THE_64;
      var direct := Duration(sec * factor + low / ATTOS_PER_SECOND, low % ATTOS_PER_SECOND);
      if high == 0 then direct
      else
        HighPartIsSmaller(frac, factor);
        var attos := TWO_TO_THE_64 - 1;
        var overflow := Sanitized(attos / ATTOS_PER_SECOND, attos % ATTOS_PER_SECOND + 1);
        direct.Plus(overflow.Times(high))
    }

    // getTotalSeconds() and getFractions(MICROSEC) combined to whole microseconds
    function WholeMicros(): nat {
      sec * MICROS_PER_SECOND + frac / ATTOS_PER_MICRO
    }
  }

  // The TimeDuration constructor
  function Sanitized(sec: nat, frac: nat): (d: Duration)
    ensures d.Canonical() && d.Attos() == sec * ATTOS_PER_SECOND + frac
  {
    if frac >= ATTOS_PER_SECOND then Duration(sec + frac / ATTOS_PER_SECOND, frac % ATTOS_PER_SECOND)
    else Duration(sec, frac)
  }

  // Epochstamp::operator-, which never goes negative
  function Difference(later: Epoch, earlier: Epoch): Duration
    requires !later.Before(earlier)
    requires earlier.Canonical()
  {
    if later.frac < earlier.frac then
      Sanitized(later.sec - earlier.sec - 1, ATTOS_PER_SECOND - earlier.frac + later.frac)
    else
      Sanitized(later.sec - earlier.sec, later.frac - earlier.frac)
  }

  // Epochstamp::elapsed
  function Elapsed(a: Epoch, b: Epoch): Duration
    requires a.Canonical() && b.Canonical()
  {
    if a.Before(b) then Difference(b, a) else Difference(a, b)
  }

  // The split of a period in microseconds into seconds and attoseconds
  function PeriodDuration(period: nat): Duration {
    Sanitized(period / MICROS_PER_SECOND, period % MICROS_PER_SECOND * ATTOS_PER_MICRO)
  }

  lemma HighPartIsSmaller(frac: nat, factor: nat)
    requires frac < ATTOS_PER_SECOND
    requires frac * factor / TWO_TO_THE_64 > 0
    ensures frac * factor / TWO_TO_THE_64 < factor
  {
    assert frac * factor <= TWO_TO_THE_64 * factor;
    if factor > 0 {
      assert frac * factor < TWO_TO_THE_64 * factor;
    }
  }

  // The lexicographic order of the class is the order of the attoseconds.
  lemma BeforeIsAttosOrder(a: Epoch, b: Epoch)
    requires a.Canonical() && b.Canonical()
    ensures a.Before(b) <==> a.Attos() < b.Attos()
    ensures a == b <==> a.Attos() == b.Attos()
  {}

  lemma ElapsedIsExact(a: Epoch, b: Epoch)
    requires a.Canonical() && b.Canonical()
    ensures Elapsed(a, b).Canonical()
    ensures Elapsed(a, b).Attos() ==
            if a.Attos() < b.Attos() then b.Attos() - a.Attos() else a.Attos() - b.Attos()
  {
    BeforeIsAttosOrder(a, b);
  }

  lemma PlusIsExact(e: Epoch, d: Duration)
    requires e.Canonical() && d.Canonical()
    ensures e.Plus(d).Canonical() && e.Plus(d).Attos() == e.Attos() + d.Attos()
  {}

  lemma PeriodSplitIsExact(period: nat)
    ensures PeriodDuration(period).Canonical()
    ensures PeriodDuration(period).Attos() == period * ATTOS_PER_MICRO
  {}

  // The split into 64-bit halves and the recursion on the upper half lose nothing.
  lemma {:induction false} TimesIsExact(d: Duration, factor: nat)
    requires d.Canonical()
    ensures d.Times(factor).Canonical()
    ensures d.Times(factor).Attos() == d.Attos() * factor
    decreases factor
  {
    var product := d.frac * factor;
    var low, high := product % TWO_TO_THE_64, product / TWO_TO_THE_64;
    var direct := Duration(d.sec * factor + low / ATTOS_PER_SECOND, low % ATTOS_PER_SECOND);
    CarriedIsExact(d.sec * factor, low);
    Distribute(d.sec, d.frac, factor);
    if high != 0 {
      HighPartIsSmaller(d.frac, factor);
      var attos := TWO_TO_THE_64 - 1;
      var overflow := Sanitized(attos / ATTOS_PER_SECOND, attos % ATTOS_PER_SECOND + 1);
      assert overflow.Attos() == TWO_TO_THE_64;
      TimesIsExact(overflow, high);
      SumIsExact(direct, overflow.Times(high));
    }
  }

  lemma SumIsExact(a: Duration, b: Duration)
    requires a.Canonical() && b.Canonical()
    ensures a.Plus(b).Canonical() && a.Plus(b).Attos() == a.Attos() + b.Attos()
  {}

  lemma CarriedIsExact(sec: nat, attos: nat)
    ensures Duration(sec + attos / ATTOS_PER_SECOND, attos % ATTOS_PER_SECOND).Attos()
            == sec * ATTOS_PER_SECOND + attos
  {}

  lemma Distribute(sec: nat, frac: nat, factor: nat)
    ensures (sec * ATTOS_PER_SECOND + frac) * factor == sec * factor * ATTOS_PER_SECOND + frac * factor
  {
    assert sec * ATTOS_PER_SECOND * factor == sec * factor * ATTOS_PER_SECOND;
  }

  // Truncation to microseconds followed by division by a period in microseconds
  // is division of the attoseconds by the period in attoseconds.
  lemma WholeMicrosIsFloor(d: Duration)
    requires d.Canonical()
    ensures d.WholeMicros() == d.Attos() / ATTOS_PER_MICRO
  {
    assert d.Attos() == d.WholeMicros() * ATTOS_PER_MICRO + d.frac % ATTOS_PER_MICRO;
  }

  lemma ProductIsMonotone(x: nat, y: nat, c: nat)
    requires x <= y
    ensures x * c <= y * c
  {}

  // q is the quotient of n by d.
  lemma QuotientIsUnique(n: nat, d: nat, q: nat)
    requires d > 0 && q * d <= n < (q + 1) * d
    ensures n / d == q
  {
    var r := n / d;
    if r < q {
      ProductIsMonotone(r + 1, q, d);
      assert false;
    }
    if q < r {
      ProductIsMonotone(q + 1, r, d);
      assert false;
    }
  }

  lemma FloorOfFloor(n: nat, a: nat, b: nat)
    requires a > 0 && b > 0
    ensures a * b > 0 && n / a / b == n / (a * b)
  {
    var m := n / a;
    var q := m / b;
    FloorBounds(n, a);
    FloorBounds(m, b);
    NestedBounds(n, m, q, a, b);
    QuotientIsUnique(n, a * b, q);
  }

  lemma FloorBounds(n: nat, d: nat)
    requires d > 0
    ensures n / d * d <= n < (n / d + 1) * d
  {}

  lemma NestedBounds(n: nat, m: nat, q: nat, a: nat, b: nat)
    requires a > 0 && b > 0
    requires m * a <= n < (m + 1) * a
    requires q * b <= m < (q + 1) * b
    ensures a * b > 0
    ensures q * (a * b) <= n < (q + 1) * (a * b)
  {
    ProductIsMonotone(q * b, m, a);
    ProductIsMonotone(m + 1, (q + 1) * b, a);
    Reorder(q, a, b);
    Reorder(q + 1, a, b);
  }

  lemma Reorder(q: nat, a: nat, b: nat)
    ensures q * b * a == q * (a * b)
  {}

  lemma NanosIsFloor(e: Epoch)
    requires e.Canonical()
    ensures e.Nanos() == e.Attos() / ATTOS_PER_NANO
  {
    assert e.Attos() == e.Nanos() * ATTOS_PER_NANO + e.frac % ATTOS_PER_NANO;
  }
}
