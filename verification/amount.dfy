/** Exact fixed-point amounts (`crates/statechronicle-core/src/amount.rs`). The value of an
    amount is measured in units of 10^-18, the finest scale there is, so value statements are
    about natural numbers. */
module Amounts {
  import opened Arithmetic
  import opened Bytes
  import opened Options

  const MAX_SCALE: nat := 18
  const MAX_MANTISSA_DIGITS: nat := 39
  const U128_BOUND: nat := 0x1_0000_0000_0000_0000_0000_0000_0000_0000

  type U128 = n: nat | n < U128_BOUND

  datatype Amount = Amount(mantissa: U128, scale: nat)

  /** What every constructor keeps. */
  predicate Valid(a: Amount) { a.scale <= MAX_SCALE }

  type ValidAmount = a: Amount | Valid(a) witness Amount(0, 0)

  function Pow10(k: nat): (p: nat)
    ensures p > 0
  {
    if k == 0 then 1 else 10 * Pow10(k - 1)
  }

  lemma {:induction false} Pow10Add(a: nat, b: nat)
    ensures Pow10(a + b) == Pow10(a) * Pow10(b)
  {
    if a > 0 {
      Pow10Add(a - 1, b);
      assert Pow10(a + b) == 10 * (Pow10(a - 1) * Pow10(b));
    }
  }

  /** The value in units of 10^-18. */
  function Units(a: Amount): nat
    requires Valid(a)
  {
    a.mantissa * Pow10(MAX_SCALE - a.scale)
  }

  // ----- Arithmetic -----

  /** `checked_rescale`: multiplies by ten once for each digit of scale gained. */
  method CheckedRescale(a: Amount, newScale: nat) returns (r: Option<Amount>)
    ensures r == Rescaled(a, newScale)
  {
    ScaleByNone(a.mantissa);
    hide Pow10;
    if newScale == a.scale { return Some(a); }
    if newScale < a.scale { return None; }
    var mantissa: nat := a.mantissa;
    var i := newScale;
    while i > a.scale
      invariant a.scale <= i <= newScale && mantissa < U128_BOUND
      invariant mantissa == a.mantissa * Pow10(newScale - i)
    {
      var next := mantissa * 10;
      ScaleByOne(a.mantissa, newScale - i);
      if next >= U128_BOUND {
        ScaleByMore(a.mantissa, newScale - (i - 1), newScale - a.scale);
        return None;
      }
      mantissa := next;
      i := i - 1;
    }
    return Some(Amount(mantissa, newScale));
  }

  lemma ScaleByNone(m: nat)
    ensures m * Pow10(0) == m
  {
  }

  lemma ScaleByOne(m: nat, k: nat)
    ensures m * Pow10(k) * 10 == m * Pow10(k + 1)
  {
    MulAssoc(m, Pow10(k), 10);
  }

  /** A product that overflows still does after further multiplications. */
  lemma ScaleByMore(m: nat, k: nat, n: nat)
    requires k <= n
    ensures m * Pow10(n) >= m * Pow10(k)
  {
    Pow10Add(k, n - k);
    var p := Pow10(n - k);
    MulAssoc(m, Pow10(k), p);
    ScaledAtLeast(m * Pow10(k), p);
  }

  lemma ScaledAtLeast(x: nat, p: nat)
    requires p > 0
    ensures x * p >= x
  {
  }

  /** Rescaling in one step: defined exactly when it does not lose digits and the mantissa fits. */
  function Rescaled(a: Amount, newScale: nat): Option<Amount> {
    if newScale < a.scale then None
    else if a.mantissa * Pow10(newScale - a.scale) < U128_BOUND
    then Some(Amount(a.mantissa * Pow10(newScale - a.scale), newScale))
    else None
  }

  function MaxScale(a: Amount, b: Amount): nat { if a.scale < b.scale then b.scale else a.scale }

  function CheckedAdd(a: Amount, b: Amount): Option<Amount> {
    var scale := MaxScale(a, b);
    match (Rescaled(a, scale), Rescaled(b, scale))
    case (Some(left), Some(right)) =>
      if left.mantissa + right.mantissa < U128_BOUND then Some(Amount(left.mantissa + right.mantissa, scale)) else None
    case _ => None
  }

  function CheckedSub(a: Amount, b: Amount): Option<Amount> {
    var scale := MaxScale(a, b);
    match (Rescaled(a, scale), Rescaled(b, scale))
    case (Some(left), Some(right)) =>
      if right.mantissa <= left.mantissa then Some(Amount(left.mantissa - right.mantissa, scale)) else None
    case _ => None
  }

  lemma RescaleKeepsUnits(m: nat, from: nat, to: nat)
    requires from <= to <= MAX_SCALE
    ensures m * Pow10(to - from) * Pow10(MAX_SCALE - to) == m * Pow10(MAX_SCALE - from)
  {
    hide Pow10;
    Pow10Add(to - from, MAX_SCALE - to);
    MulAssoc(m, Pow10(to - from), Pow10(MAX_SCALE - to));
  }

  /** Addition is exact, and fails only when the aligned sum does not fit. */
  lemma AddIsExact(a: Amount, b: Amount)
    requires Valid(a) && Valid(b)
    ensures CheckedAdd(a, b).Some? <==>
            a.mantissa * Pow10(MaxScale(a, b) - a.scale) + b.mantissa * Pow10(MaxScale(a, b) - b.scale) < U128_BOUND
    ensures CheckedAdd(a, b).Some? ==>
            Valid(CheckedAdd(a, b).value) && Units(CheckedAdd(a, b).value) == Units(a) + Units(b)
  {
    hide Pow10;
    var s := MaxScale(a, b);
    var left, right := a.mantissa * Pow10(s - a.scale), b.mantissa * Pow10(s - b.scale);
    var p := Pow10(MAX_SCALE - s);
    RescaleKeepsUnits(a.mantissa, a.scale, s);
    RescaleKeepsUnits(b.mantissa, b.scale, s);
    assert Units(a) == left * p && Units(b) == right * p;
    AddAligns(a, b);
    hide CheckedAdd, Rescaled;
    MulAdd(left, right, p);
  }

  lemma AddAligns(a: Amount, b: Amount)
    ensures var s := MaxScale(a, b);
            var left, right := a.mantissa * Pow10(s - a.scale), b.mantissa * Pow10(s - b.scale);
            CheckedAdd(a, b) == if left + right < U128_BOUND then Some(Amount(left + right, s)) else None
  {
    hide Pow10;
    var s := MaxScale(a, b);
    assert a.mantissa * Pow10(s - a.scale) >= 0 && b.mantissa * Pow10(s - b.scale) >= 0;
  }

  /** Subtraction is exact, and fails only on underflow or when the minuend cannot be aligned. */
  lemma SubIsExact(a: Amount, b: Amount)
    requires Valid(a) && Valid(b)
    ensures CheckedSub(a, b).Some? <==>
            && Units(b) <= Units(a)
            && a.mantissa * Pow10(MaxScale(a, b) - a.scale) < U128_BOUND
    ensures CheckedSub(a, b).Some? ==>
            Valid(CheckedSub(a, b).value) && Units(CheckedSub(a, b).value) + Units(b) == Units(a)
  {
    hide Pow10;
    var s := MaxScale(a, b);
    var left, right := a.mantissa * Pow10(s - a.scale), b.mantissa * Pow10(s - b.scale);
    var p := Pow10(MAX_SCALE - s);
    RescaleKeepsUnits(a.mantissa, a.scale, s);
    RescaleKeepsUnits(b.mantissa, b.scale, s);
    assert Units(a) == left * p && Units(b) == right * p;
    SubAligns(a, b);
    hide CheckedSub, Rescaled;
    SubAligned(left, right, p);
  }

  lemma SubAligns(a: Amount, b: Amount)
    ensures var s := MaxScale(a, b);
            var left, right := a.mantissa * Pow10(s - a.scale), b.mantissa * Pow10(s - b.scale);
            CheckedSub(a, b) == if right <= left < U128_BOUND then Some(Amount(left - right, s)) else None
  {
    hide Pow10;
  }

  lemma SubAligned(left: nat, right: nat, p: nat)
    requires p > 0
    ensures right <= left <==> right * p <= left * p
    ensures right <= left ==> (left - right) * p + right * p == left * p
  {
    MulOrder(right, left, p);
    if right <= left { MulAdd(left - right, right, p); }
  }

  // ----- Digit strings -----

  const ZERO_CHAR: byte := 48
  const POINT: byte := 46

  predicate IsDigit(c: byte) { ZERO_CHAR <= c < ZERO_CHAR + 10 }

  ghost predicate AllDigits(s: seq<byte>) { forall i :: 0 <= i < |s| ==> IsDigit(s[i]) }

  /** The number a digit string writes. */
  function Number(s: seq<byte>): int {
    if s == [] then 0 else 10 * Number(s[..|s| - 1]) + (s[|s| - 1] - ZERO_CHAR)
  }

  /** `u128::to_string`. */
  function Decimal(n: nat): (s: seq<byte>)
    ensures s != []
  {
    if n < 10 then [ZERO_CHAR + n] else Decimal(n / 10) + [ZERO_CHAR + n % 10]
  }

  lemma {:induction false} DecimalWrites(n: nat)
    ensures AllDigits(Decimal(n)) && Number(Decimal(n)) == n
    ensures Decimal(n)[0] == ZERO_CHAR ==> n == 0
    ensures n == 0 ==> Decimal(n) == [ZERO_CHAR]
  {
    if n >= 10 {
      DecimalWrites(n / 10);
      var s := Decimal(n);
      assert s[..|s| - 1] == Decimal(n / 10);
    } else {
      var s := Decimal(n);
      assert s[..|s| - 1] == [];
    }
  }

  lemma {:induction false} NumberBound(s: seq<byte>)
    requires AllDigits(s)
    ensures 0 <= Number(s) < Pow10(|s|)
  {
    if s != [] { NumberBound(s[..|s| - 1]); }
  }

  lemma {:induction false} NumberConcat(a: seq<byte>, b: seq<byte>)
    ensures Number(a + b) == Number(a) * Pow10(|b|) + Number(b)
  {
    if b == [] {
      assert a + b == a;
    } else {
      var front := b[..|b| - 1];
      assert (a + b)[..|a + b| - 1] == a + front;
      NumberConcat(a, front);
      assert Number(a + b) == 10 * Number(a + front) + (b[|b| - 1] - ZERO_CHAR);
      assert Pow10(|b|) == 10 * Pow10(|front|);
      ShiftIn(Number(a), Pow10(|front|), Number(front), b[|b| - 1] - ZERO_CHAR);
    }
  }

  lemma ShiftIn(a: int, p: int, b: int, d: int)
    ensures 10 * (a * p + b) + d == a * (10 * p) + (10 * b + d)
  {
    MulAssoc(10, a, p);
    MulAssoc(a, 10, p);
  }

  /** Digit strings of one length write different numbers. */
  lemma {:induction false} NumberInjective(a: seq<byte>, b: seq<byte>)
    requires AllDigits(a) && AllDigits(b) && |a| == |b| && Number(a) == Number(b)
    ensures a == b
  {
    if a != [] {
      NumberInjective(a[..|a| - 1], b[..|b| - 1]);
      assert a == a[..|a| - 1] + [a[|a| - 1]] && b == b[..|b| - 1] + [b[|b| - 1]];
    }
  }

  function ZeroChars(n: nat): (zs: seq<byte>)
    ensures |zs| == n
  {
    if n == 0 then [] else ZeroChars(n - 1) + [ZERO_CHAR]
  }

  lemma {:induction false} NumberZeros(n: nat)
    ensures AllDigits(ZeroChars(n)) && Number(ZeroChars(n)) == 0
  {
    if n > 0 {
      NumberZeros(n - 1);
      assert ZeroChars(n)[..n - 1] == ZeroChars(n - 1);
    }
  }

  // ----- Splitting at the point -----

  /** `decimal_digits`: integer digits and exactly `scale` fraction digits. */
  function DecimalDigits(a: Amount): (seq<byte>, seq<byte>) {
    var digits := Decimal(a.mantissa);
    if a.scale == 0 then (digits, [])
    else if |digits| > a.scale then (digits[..|digits| - a.scale], digits[|digits| - a.scale..])
    else ([ZERO_CHAR], ZeroChars(a.scale - |digits|) + digits)
  }

  /** No superfluous leading zero. */
  ghost predicate Clean(s: seq<byte>) {
    s != [] && AllDigits(s) && (s[0] == ZERO_CHAR ==> s == [ZERO_CHAR])
  }

  lemma DigitsSplit(a: Amount)
    ensures var (i, f) := DecimalDigits(a);
            && Clean(i) && AllDigits(f) && |f| == a.scale
            && Number(i) >= 0 && Number(f) >= 0
            && Number(i) * Pow10(a.scale) + Number(f) == a.mantissa
  {
    hide Pow10, Number, Decimal;
    var digits := Decimal(a.mantissa);
    var (i, f) := DecimalDigits(a);
    DecimalWrites(a.mantissa);
    if a.scale > 0 && |digits| <= a.scale {
      NumberZeros(a.scale - |digits|);
      NumberConcat(ZeroChars(a.scale - |digits|), digits);
      ZeroWrites();
    } else {
      assert digits == i + f;
      NumberConcat(i, f);
    }
    NumberBound(i);
    NumberBound(f);
  }

  lemma ZeroWrites()
    ensures Number([ZERO_CHAR]) == 0
  {
    assert [ZERO_CHAR][..0] == [];
  }

  /** The fraction padded to the finest scale. */
  function Padded(f: seq<byte>): seq<byte>
    requires |f| <= MAX_SCALE
  {
    f + ZeroChars(MAX_SCALE - |f|)
  }

  lemma PaddedWrites(f: seq<byte>)
    requires AllDigits(f) && |f| <= MAX_SCALE
    ensures AllDigits(Padded(f)) && |Padded(f)| == MAX_SCALE
    ensures Number(Padded(f)) == Number(f) * Pow10(MAX_SCALE - |f|)
    ensures 0 <= Number(Padded(f)) < Pow10(MAX_SCALE)
  {
    hide Pow10, Number, ZeroChars;
    NumberZeros(MAX_SCALE - |f|);
    NumberConcat(f, ZeroChars(MAX_SCALE - |f|));
    NumberBound(Padded(f));
  }

  /** The two digit strings carry the whole value. */
  lemma DigitsCarryUnits(a: Amount)
    requires Valid(a)
    ensures var (i, f) := DecimalDigits(a);
            && Clean(i) && AllDigits(f) && |f| <= MAX_SCALE && Number(i) >= 0
            && Units(a) == Number(i) * Pow10(MAX_SCALE) + Number(Padded(f))
  {
    hide Pow10, Number, DecimalDigits, Padded, Clean;
    var (i, f) := DecimalDigits(a);
    DigitsSplit(a);
    PaddedWrites(f);
    var p := Pow10(MAX_SCALE - a.scale);
    Pow10Add(a.scale, MAX_SCALE - a.scale);
    MulAdd(Number(i) * Pow10(a.scale), Number(f), p);
    MulAssoc(Number(i), Pow10(a.scale), p);
  }

  // ----- Comparison -----

  datatype Order = Less | Equal | Greater

  function Compare(a: int, b: int): Order { if a < b then Less else if a == b then Equal else Greater }

  /** `trim_start_matches('0')`. */
  function TrimStart(s: seq<byte>): seq<byte> {
    if s != [] && s[0] == ZERO_CHAR then TrimStart(s[1..]) else s
  }

  /** `str::cmp`. */
  function StrCompare(a: seq<byte>, b: seq<byte>): Order {
    if a == [] || b == [] then Compare(|a|, |b|)
    else if a[0] != b[0] then Compare(a[0], b[0])
    else StrCompare(a[1..], b[1..])
  }

  function DigitAt(f: seq<byte>, k: nat): byte { if k < |f| then f[k] else ZERO_CHAR }

  function Longer(a: seq<byte>, b: seq<byte>): nat { if |a| < |b| then |b| else |a| }

  /** The value order, as rationals: integer part first, then the padded fractions. */
  ghost function ValueOrder(intA: seq<byte>, fracA: seq<byte>, intB: seq<byte>, fracB: seq<byte>): Order
    requires |fracA| <= MAX_SCALE && |fracB| <= MAX_SCALE
  {
    Compare(Number(intA) * Pow10(MAX_SCALE) + Number(Padded(fracA)),
            Number(intB) * Pow10(MAX_SCALE) + Number(Padded(fracB)))
  }

  lemma {:induction false} NumberHead(s: seq<byte>)
    requires s != []
    ensures Number(s) == (s[0] - ZERO_CHAR) * Pow10(|s| - 1) + Number(s[1..])
  {
    assert s == [s[0]] + s[1..];
    NumberConcat([s[0]], s[1..]);
    assert [s[0]][..0] == [];
    assert Number([s[0]]) == s[0] - ZERO_CHAR;
  }

  lemma LeadingDigitDecides(x: int, y: int, p: nat, a: int, b: int)
    requires 0 <= a < p && 0 <= b < p && x < y
    ensures x * p + a < y * p + b
  {
    var d: nat := y - x - 1;
    MulAdd(x, 1 + d, p);
    MulAdd(1, d, p);
    assert d * p >= 0;
  }

  lemma HeadDecides(f: seq<byte>, g: seq<byte>)
    requires AllDigits(f) && AllDigits(g) && |f| == |g| > 0 && f[0] < g[0]
    ensures Number(f) < Number(g)
  {
    hide Number, Pow10;
    NumberHead(f);
    NumberHead(g);
    NumberBound(f[1..]);
    NumberBound(g[1..]);
    LeadingDigitDecides(f[0] - ZERO_CHAR, g[0] - ZERO_CHAR, Pow10(|f| - 1), Number(f[1..]), Number(g[1..]));
  }

  /** On digit strings of one length, string order is numeric order. */
  lemma {:induction false} SameLengthOrder(a: seq<byte>, b: seq<byte>)
    requires AllDigits(a) && AllDigits(b) && |a| == |b|
    ensures StrCompare(a, b) == Compare(Number(a), Number(b))
  {
    if a != [] {
      hide Number, Pow10;
      SameLengthOrder(a[1..], b[1..]);
      if a[0] < b[0] {
        HeadDecides(a, b);
      } else if b[0] < a[0] {
        HeadDecides(b, a);
      } else {
        NumberHead(a);
        NumberHead(b);
      }
    }
  }

  /** A longer string without leading zero writes the larger number. */
  lemma LongerIsLarger(a: seq<byte>, b: seq<byte>)
    requires AllDigits(a) && AllDigits(b) && |a| < |b| && b[0] != ZERO_CHAR
    ensures Number(a) < Number(b)
  {
    NumberBound(a);
    NumberHead(b);
    NumberBound(b[1..]);
    Pow10Monotone(|a|, |b| - 1);
    LeadingDigitDecides(0, b[0] - ZERO_CHAR, Pow10(|b| - 1), Number(a), Number(b[1..]));
  }

  lemma {:induction false} Pow10Monotone(a: nat, b: nat)
    requires a <= b
    ensures Pow10(a) <= Pow10(b)
  {
    if a < b { Pow10Monotone(a, b - 1); }
  }

  lemma {:induction false} TrimStartKeeps(s: seq<byte>)
    requires AllDigits(s)
    ensures AllDigits(TrimStart(s)) && Number(TrimStart(s)) == Number(s)
    ensures TrimStart(s) != [] ==> TrimStart(s)[0] != ZERO_CHAR
  {
    if s != [] && s[0] == ZERO_CHAR {
      NumberHead(s);
      TrimStartKeeps(s[1..]);
    }
  }

  /** The integer digits decide unless they write one number. */
  lemma IntegerOrder(a: seq<byte>, b: seq<byte>)
    requires AllDigits(a) && AllDigits(b)
    ensures var x, y := TrimStart(a), TrimStart(b);
            Compare(Number(a), Number(b)) == if |x| != |y| then Compare(|x|, |y|) else StrCompare(x, y)
  {
    var x, y := TrimStart(a), TrimStart(b);
    TrimStartKeeps(a);
    TrimStartKeeps(b);
    if |x| < |y| { LongerIsLarger(x, y); }
    else if |y| < |x| { LongerIsLarger(y, x); }
    else { SameLengthOrder(x, y); }
  }

  /** Fractions that agree up to `k` are ordered by digit `k`. */
  lemma FractionDecides(f: seq<byte>, g: seq<byte>, k: nat)
    requires AllDigits(f) && AllDigits(g) && |f| == |g| && k < |f| && f[..k] == g[..k] && f[k] < g[k]
    ensures Number(f) < Number(g)
  {
    hide Number, Pow10;
    assert f == f[..k] + f[k..] && g == g[..k] + g[k..];
    NumberConcat(f[..k], f[k..]);
    NumberConcat(g[..k], g[k..]);
    HeadDecides(f[k..], g[k..]);
  }

  /** `cmp_unsigned`: compares without ever multiplying, yet decides the exact value order. */
  method CmpUnsigned(intA: seq<byte>, fracA: seq<byte>, intB: seq<byte>, fracB: seq<byte>) returns (order: Order)
    requires AllDigits(intA) && AllDigits(fracA) && AllDigits(intB) && AllDigits(fracB)
    requires |fracA| <= MAX_SCALE && |fracB| <= MAX_SCALE
    ensures order == ValueOrder(intA, fracA, intB, fracB)
  {
    hide Pow10, Number, Padded, TrimStart, StrCompare, ValueOrder;
    var a, b := TrimStart(intA), TrimStart(intB);
    IntegerOrder(intA, intB);
    PaddedWrites(fracA);
    PaddedWrites(fracB);
    DistinctIntegers(intA, fracA, intB, fracB);
    if |a| != |b| { return Compare(|a|, |b|); }
    var intCmp := StrCompare(a, b);
    if intCmp != Equal { return intCmp; }
    var max := Longer(fracA, fracB);
    var k := 0;
    while k < max
      invariant k <= max
      invariant forall i :: 0 <= i < k ==> DigitAt(fracA, i) == DigitAt(fracB, i)
    {
      var ca, cb := DigitAt(fracA, k), DigitAt(fracB, k);
      if ca != cb {
        FractionOrderAt(fracA, fracB, k);
        return Compare(ca, cb);
      }
      k := k + 1;
    }
    PaddedAgree(fracA, fracB);
    order := Equal;
  }

  lemma DistinctIntegers(intA: seq<byte>, fracA: seq<byte>, intB: seq<byte>, fracB: seq<byte>)
    requires AllDigits(fracA) && AllDigits(fracB) && |fracA| <= MAX_SCALE && |fracB| <= MAX_SCALE
    ensures Number(intA) != Number(intB) ==>
            ValueOrder(intA, fracA, intB, fracB) == Compare(Number(intA), Number(intB))
    ensures Number(intA) == Number(intB) ==>
            ValueOrder(intA, fracA, intB, fracB) == Compare(Number(Padded(fracA)), Number(Padded(fracB)))
  {
    hide Pow10, Number, Padded;
    PaddedWrites(fracA);
    PaddedWrites(fracB);
    var p, x, y := Pow10(MAX_SCALE), Number(Padded(fracA)), Number(Padded(fracB));
    if Number(intA) < Number(intB) { LeadingDigitDecides(Number(intA), Number(intB), p, x, y); }
    if Number(intB) < Number(intA) { LeadingDigitDecides(Number(intB), Number(intA), p, y, x); }
  }

  lemma PaddedIndex(f: seq<byte>, k: nat)
    requires |f| <= MAX_SCALE && k < MAX_SCALE
    ensures Padded(f)[k] == DigitAt(f, k)
  {
    if k >= |f| { ZeroCharsIndex(MAX_SCALE - |f|, k - |f|); }
  }

  lemma {:induction false} ZeroCharsIndex(n: nat, k: nat)
    requires k < n
    ensures ZeroChars(n)[k] == ZERO_CHAR
  {
    if k < n - 1 { ZeroCharsIndex(n - 1, k); }
  }

  lemma PaddedAgree(f: seq<byte>, g: seq<byte>)
    requires |f| <= MAX_SCALE && |g| <= MAX_SCALE
    requires forall i :: 0 <= i < Longer(f, g) ==> DigitAt(f, i) == DigitAt(g, i)
    ensures Padded(f) == Padded(g)
  {
    forall k | 0 <= k < MAX_SCALE ensures Padded(f)[k] == Padded(g)[k] {
      PaddedIndex(f, k);
      PaddedIndex(g, k);
    }
  }

  lemma FractionOrderAt(f: seq<byte>, g: seq<byte>, k: nat)
    requires AllDigits(f) && AllDigits(g) && |f| <= MAX_SCALE && |g| <= MAX_SCALE
    requires k < Longer(f, g) && DigitAt(f, k) != DigitAt(g, k)
    requires forall i :: 0 <= i < k ==> DigitAt(f, i) == DigitAt(g, i)
    ensures Compare(Number(Padded(f)), Number(Padded(g))) == Compare(DigitAt(f, k), DigitAt(g, k))
  {
    hide Pow10, Number, Padded;
    PaddedWrites(f);
    PaddedWrites(g);
    forall i | 0 <= i <= k ensures Padded(f)[i] == DigitAt(f, i) && Padded(g)[i] == DigitAt(g, i) {
      PaddedIndex(f, i);
      PaddedIndex(g, i);
    }
    assert Padded(f)[..k] == Padded(g)[..k];
    if DigitAt(f, k) < DigitAt(g, k) { FractionDecides(Padded(f), Padded(g), k); }
    else { FractionDecides(Padded(g), Padded(f), k); }
  }

  /** `Ord for Amount`: the digit comparison is exact rational order across all scales. */
  method Cmp(a: Amount, b: Amount) returns (order: Order)
    requires Valid(a) && Valid(b)
    ensures order == Compare(Units(a), Units(b))
  {
    hide Pow10, Number, DecimalDigits, Padded, Units;
    var (intA, fracA) := DecimalDigits(a);
    var (intB, fracB) := DecimalDigits(b);
    DigitsCarryUnits(a);
    DigitsCarryUnits(b);
    order := CmpUnsigned(intA, fracA, intB, fracB);
  }

  // ----- Canonical text -----

  /** `trim_end_matches('0')`. */
  function TrimEnd(s: seq<byte>): seq<byte> {
    if s != [] && s[|s| - 1] == ZERO_CHAR then TrimEnd(s[..|s| - 1]) else s
  }

  /** `format_fixed`. */
  function FormatFixed(intPart: seq<byte>, frac: seq<byte>): seq<byte> {
    var f := TrimEnd(frac);
    if f == [] then intPart else intPart + [POINT] + f
  }

  function ToCanonicalString(a: Amount): seq<byte> {
    var digits := Decimal(a.mantissa);
    if a.scale == 0 then digits
    else if |digits| > a.scale then FormatFixed(digits[..|digits| - a.scale], digits[|digits| - a.scale..])
    else FormatFixed([ZERO_CHAR], ZeroChars(a.scale - |digits|) + digits)
  }

  lemma CanonicalIsDigits(a: Amount)
    ensures var (i, f) := DecimalDigits(a); ToCanonicalString(a) == FormatFixed(i, f)
  {
  }

  lemma {:induction false} TrimEndPads(f: seq<byte>)
    requires |f| <= MAX_SCALE
    ensures |TrimEnd(f)| <= |f| && TrimEnd(f) <= f
    ensures Padded(TrimEnd(f)) == Padded(f)
    ensures TrimEnd(f) != [] ==> TrimEnd(f)[|TrimEnd(f)| - 1] != ZERO_CHAR
  {
    hide Padded;
    if f != [] && f[|f| - 1] == ZERO_CHAR {
      TrimEndPads(f[..|f| - 1]);
      ZeroPads(f);
    }
  }

  lemma ZeroPads(f: seq<byte>)
    requires 0 < |f| <= MAX_SCALE && f[|f| - 1] == ZERO_CHAR
    ensures Padded(f[..|f| - 1]) == Padded(f)
  {
    var front := f[..|f| - 1];
    forall k | 0 <= k < MAX_SCALE ensures Padded(front)[k] == Padded(f)[k] {
      PaddedIndex(front, k);
      PaddedIndex(f, k);
    }
    PaddedLength(front);
    PaddedLength(f);
    hide Padded;
  }

  lemma PaddedLength(f: seq<byte>)
    requires |f| <= MAX_SCALE
    ensures |Padded(f)| == MAX_SCALE
  {
  }

  /** Trimmed fractions with one padding are one string. */
  lemma TrimmedUnique(f: seq<byte>, g: seq<byte>)
    requires |f| <= |g| <= MAX_SCALE && Padded(f) == Padded(g)
    requires g != [] ==> g[|g| - 1] != ZERO_CHAR
    ensures f == g
  {
    forall k | 0 <= k < |g| ensures DigitAt(f, k) == g[k] {
      PaddedIndex(f, k);
      PaddedIndex(g, k);
    }
    assert g != [] ==> DigitAt(f, |g| - 1) == g[|g| - 1];
  }

  lemma EuclidUnique(a: int, x: int, b: int, y: int, p: nat)
    requires 0 <= x < p && 0 <= y < p && a * p + x == b * p + y
    ensures a == b && x == y
  {
    if a < b { LeadingDigitDecides(a, b, p, x, y); }
    if b < a { LeadingDigitDecides(b, a, p, y, x); }
  }

  lemma CleanUnique(a: seq<byte>, b: seq<byte>)
    requires Clean(a) && Clean(b) && Number(a) == Number(b)
    ensures a == b
  {
    if |a| == |b| {
      NumberInjective(a, b);
    } else if |a| < |b| {
      LongerIsLarger(a, b);
    } else {
      LongerIsLarger(b, a);
    }
  }

  /** The position of the first point, or the length. */
  function PointAt(s: seq<byte>): nat {
    if s == [] || s[0] == POINT then 0 else 1 + PointAt(s[1..])
  }

  lemma {:induction false} PointAfterDigits(i: seq<byte>, rest: seq<byte>)
    requires AllDigits(i) && (rest == [] || rest[0] == POINT)
    ensures PointAt(i + rest) == |i|
  {
    if i == [] {
      assert i + rest == rest;
    } else {
      assert (i + rest)[1..] == i[1..] + rest;
      PointAfterDigits(i[1..], rest);
    }
  }

  function Fraction(frac: seq<byte>): seq<byte> {
    if TrimEnd(frac) == [] then [] else [POINT] + TrimEnd(frac)
  }

  /** The point, if there is one, can be found again. */
  lemma FormatFixedSplits(i: seq<byte>, f: seq<byte>, j: seq<byte>, g: seq<byte>)
    requires AllDigits(i) && AllDigits(j) && FormatFixed(i, f) == FormatFixed(j, g)
    ensures i == j && TrimEnd(f) == TrimEnd(g)
  {
    FormatIsFraction(i, f);
    FormatIsFraction(j, g);
    FractionKeeps(f);
    FractionKeeps(g);
    hide TrimEnd, PointAt, FormatFixed, Fraction;
    SplitsAtPoint(i, Fraction(f), j, Fraction(g));
  }

  lemma FormatIsFraction(i: seq<byte>, f: seq<byte>)
    ensures FormatFixed(i, f) == i + Fraction(f)
    ensures Fraction(f) == [] || Fraction(f)[0] == POINT
  {
    hide TrimEnd;
    assert (i + [POINT]) + TrimEnd(f) == i + ([POINT] + TrimEnd(f));
    assert i + [] == i;
  }

  lemma FractionKeeps(f: seq<byte>)
    ensures TrimEnd(f) == if Fraction(f) == [] then [] else Fraction(f)[1..]
  {
    hide TrimEnd;
  }

  lemma SplitsAtPoint(i: seq<byte>, r: seq<byte>, j: seq<byte>, t: seq<byte>)
    requires AllDigits(i) && (r == [] || r[0] == POINT)
    requires AllDigits(j) && (t == [] || t[0] == POINT)
    requires i + r == j + t
    ensures i == j && r == t
  {
    PointAfterDigits(i, r);
    PointAfterDigits(j, t);
    hide PointAt, AllDigits;
    assert i == (i + r)[..|i|] && j == (j + t)[..|j|];
    assert r == (i + r)[|i|..] && t == (j + t)[|j|..];
  }

  /** Canonical strings are equal exactly when the values are. */
  lemma CanonicalIffEqual(a: Amount, b: Amount)
    requires Valid(a) && Valid(b)
    ensures ToCanonicalString(a) == ToCanonicalString(b) <==> Units(a) == Units(b)
  {
    hide Pow10, Number, DecimalDigits, TrimEnd, ToCanonicalString, Padded, Units;
    var (i, f) := DecimalDigits(a);
    var (j, g) := DecimalDigits(b);
    CanonicalIsDigits(a);
    CanonicalIsDigits(b);
    DigitsCarryUnits(a);
    DigitsCarryUnits(b);
    TrimEndPads(f);
    TrimEndPads(g);
    if ToCanonicalString(a) == ToCanonicalString(b) { FormatFixedSplits(i, f, j, g); }
    if Units(a) == Units(b) {
      PaddedWrites(f);
      PaddedWrites(g);
      EuclidUnique(Number(i), Number(Padded(f)), Number(j), Number(Padded(g)), Pow10(MAX_SCALE));
      CleanUnique(i, j);
      NumberInjective(Padded(f), Padded(g));
      if |TrimEnd(f)| <= |TrimEnd(g)| { TrimmedUnique(TrimEnd(f), TrimEnd(g)); }
      else { TrimmedUnique(TrimEnd(g), TrimEnd(f)); }
    }
  }

  // ----- Parsing -----

  datatype AmountError = InvalidInput | Overflow

  datatype Parsed = Ok(value: Amount) | Err(error: AmountError)

  /** The accepted language: one to 39 digits whose number fits. */
  function Parse(text: seq<byte>): Parsed {
    if |text| > MAX_MANTISSA_DIGITS then Err(Overflow)
    else if text == [] || !(forall i :: 0 <= i < |text| ==> IsDigit(text[i])) then Err(InvalidInput)
    else if 0 <= Number(text) < U128_BOUND then Ok(Amount(Number(text), 0))
    else Err(Overflow)
  }

  lemma {:induction false} NumberPrefix(s: seq<byte>, k: nat)
    requires AllDigits(s) && k <= |s|
    ensures 0 <= Number(s[..k]) <= Number(s)
    decreases |s| - k
  {
    NumberBound(s[..k]);
    if k < |s| {
      NumberPrefix(s, k + 1);
      assert s[..k + 1][..k] == s[..k];
    } else {
      assert s[..k] == s;
    }
  }

  /** `try_from_str`: scans the digits, then accumulates with checked arithmetic. */
  method TryFromStr(text: seq<byte>) returns (r: Parsed)
    ensures r == Parse(text)
  {
    if |text| > MAX_MANTISSA_DIGITS { return Err(Overflow); }
    if text == [] { return Err(InvalidInput); }
    for i := 0 to |text|
      invariant forall j :: 0 <= j < i ==> IsDigit(text[j])
    {
      if !IsDigit(text[i]) { return Err(InvalidInput); }
    }
    var mantissa: nat := 0;
    for i := 0 to |text|
      invariant mantissa < U128_BOUND && mantissa == Number(text[..i])
    {
      assert text[..i + 1][..i] == text[..i];
      NumberPrefix(text, i + 1);
      var scaled := mantissa * 10;
      if scaled >= U128_BOUND { return Err(Overflow); }
      var sum := scaled + (text[i] - ZERO_CHAR);
      if sum >= U128_BOUND { return Err(Overflow); }
      mantissa := sum;
    }
    assert text[..|text|] == text;
    return Ok(Amount(mantissa, 0));
  }

  lemma {:induction false} DecimalLength(n: nat, k: nat)
    requires 0 < k && n < Pow10(k)
    ensures |Decimal(n)| <= k
  {
    if n >= 10 { DecimalLength(n / 10, k - 1); }
  }

  lemma DecimalFits(n: U128)
    ensures |Decimal(n)| <= MAX_MANTISSA_DIGITS
  {
    assert Pow10(13) == 10_000_000_000_000;
    Pow10Add(13, 13);
    Pow10Add(26, 13);
    assert Pow10(26) == 100_000_000_000_000_000_000_000_000;
    assert Pow10(39) == 1_000_000_000_000_000_000_000_000_000_000_000_000_000;
    DecimalLength(n, 39);
  }

  /** Printing after parsing, and parsing that back, restores every parsed amount. */
  lemma ParsePrintParse(text: seq<byte>)
    requires Parse(text).Ok?
    ensures Parse(ToCanonicalString(Parse(text).value)) == Parse(text)
  {
    var n := Parse(text).value.mantissa;
    DecimalWrites(n);
    DecimalFits(n);
  }

  /** A canonical string parses exactly when the value is a whole number, and then to that
      value: fractional canonical strings never re-parse. */
  lemma CanonicalReparses(a: Amount)
    requires Valid(a)
    ensures Parse(ToCanonicalString(a)).Ok? <==> Units(a) % Pow10(MAX_SCALE) == 0
    ensures Parse(ToCanonicalString(a)).Ok? ==> Units(Parse(ToCanonicalString(a)).value) == Units(a)
  {
    hide Pow10, Number, DecimalDigits, ZeroChars, TrimEnd, ToCanonicalString;
    var (i, f) := DecimalDigits(a);
    var p := Pow10(MAX_SCALE);
    CanonicalIsDigits(a);
    DigitsCarryUnits(a);
    DigitsSplit(a);
    PaddedWrites(f);
    TrimEndPads(f);
    Remainder(Number(i), Number(Padded(f)), p);
    if TrimEnd(f) == [] {
      NumberZeros(MAX_SCALE);
      assert Padded([]) == ZeroChars(MAX_SCALE);
      IntegerPartShort(a);
    } else {
      assert ToCanonicalString(a)[|i|] == POINT;
      NonZeroPadded(TrimEnd(f));
    }
  }

  lemma Remainder(q: int, r: int, p: nat)
    requires 0 <= r < p && q >= 0
    ensures (q * p + r) % p == r
  {
    var n := q * p + r;
    assert n == (n / p) * p + n % p;
    EuclidUnique(q, r, n / p, n % p, p);
  }

  lemma IntegerPartShort(a: Amount)
    ensures |DecimalDigits(a).0| <= MAX_MANTISSA_DIGITS && Number(DecimalDigits(a).0) < U128_BOUND
  {
    var (i, f) := DecimalDigits(a);
    DecimalFits(a.mantissa);
    DigitsSplit(a);
    ScaledAtLeast(Number(i), Pow10(a.scale));
  }

  lemma NonZeroPadded(f: seq<byte>)
    requires f != [] && |f| <= MAX_SCALE && AllDigits(f) && f[|f| - 1] != ZERO_CHAR
    ensures Number(Padded(f)) > 0
  {
    PaddedWrites(f);
    NumberBound(f[..|f| - 1]);
    ScaledAtLeast(Number(f), Pow10(MAX_SCALE - |f|));
  }
}
