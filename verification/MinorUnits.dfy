/** Amounts in a currency's smallest unit, computed in binary floating point.
  *
  * Doubles are the reals they stand for. Rounding to nearest (section 4.3.1 of IEEE 754-2019) is a relation without a
  * rule for ties, so what is proved holds for every rule.
  */
module MinorUnits {

  const TWO_TO_53: int := 0x20_0000_0000_0000

  function Pow2(e: nat): int
    ensures Pow2(e) > 0
  {
    if e == 0 then 1 else 2 * Pow2(e - 1)
  }

  function Fraction(m: int, e: nat): real {
    m as real / Pow2(e) as real
  }

  function Multiple(m: int, e: nat): real {
    (m * Pow2(e)) as real
  }

  /** z is m / 2^e, or m · 2^e, within the exponents of a double. */
  predicate IsScaled(z: real, m: int, e: nat) {
    -TWO_TO_53 < m < TWO_TO_53 && ((e <= 1074 && z == Fraction(m, e)) || (e <= 971 && z == Multiple(m, e)))
  }

  /** A finite double. */
  ghost predicate Double(z: real) {
    exists m: int, e: nat :: IsScaled(z, m, e)
  }

  function Distance(a: real, b: real): real {
    if a < b then b - a else a - b
  }

  /** y is a double nearest to x. */
  ghost predicate Nearest(x: real, y: real) {
    Double(y) && forall z: real | Double(z) :: Distance(y, x) <= Distance(z, x)
  }

  /** `Math.round`: to the nearest integer, halves upwards. */
  function JsRound(y: real): int {
    (y + 0.5).Floor
  }

  // ---- currencies ----

  /** Upper case on ASCII. The dotless i and the long s are the two letters outside ASCII whose upper case is an ASCII
    * letter; the letters whose upper case is several letters, as in a ligature, make no code of the table. */
  function UpperChar(c: char): char {
    if 'a' <= c <= 'z' then (c as int - 32) as char
    else if c == '\U{131}' then 'I'
    else if c == '\U{17F}' then 'S'
    else c
  }

  function Upper(s: string): string {
    seq(|s|, i requires 0 <= i < |s| => UpperChar(s[i]))
  }

  function MinorDigits(currency: string): (d: nat)
    ensures d == 0 || d == 2 || d == 3
  {
    var c := Upper(currency);
    if c in {"JPY", "KRW", "VND", "CLP", "PYG", "UGX", "ISK"} then 0
    else if c in {"BHD", "KWD", "OMR", "JOD", "TND"} then 3
    else 2
  }

  /** How a currency code is spelled in capitals and small letters does not matter; seven codes have no minor digits,
    * five have three, and every other code has two. */
  lemma DigitsOfCode(currency: string, code: string)
    requires |currency| == |code| && forall i | 0 <= i < |code| ::
               'A' <= code[i] <= 'Z' && (currency[i] == code[i] || currency[i] as int == code[i] as int + 32)
    ensures MinorDigits(currency) == 0 <==> code in {"JPY", "KRW", "VND", "CLP", "PYG", "UGX", "ISK"}
    ensures MinorDigits(currency) == 3 <==> code in {"BHD", "KWD", "OMR", "JOD", "TND"}
  {
    assert Upper(currency) == code;
  }

  function Scale(digits: nat): (s: int)
    ensures s > 0
  {
    if digits == 0 then 1 else 10 * Scale(digits - 1)
  }

  /** A Decimal(12,2) amount, in hundredths. */
  predicate Amount(cents: int) {
    -1_000_000_000_000 < cents < 1_000_000_000_000
  }

  /** x is the parsed amount, y its product with the power of ten. */
  ghost predicate Computes(cents: int, scale: int, x: real, y: real) {
    Nearest(cents as real / 100.0, x) && Nearest(x * scale as real, y)
  }

  /** A possible result of `Math.round(Number(amount) * 10 ** digits)`. */
  ghost predicate MinorUnitsOf(cents: int, digits: nat, result: int) {
    exists x, y :: Computes(cents, Scale(digits), x, y) && result == JsRound(y)
  }

  // ---- how far rounding moves a number ----

  lemma Associate(a: real, b: real, c: real)
    ensures (a * b) * c == a * (b * c)
  {
  }

  lemma Distribute(a: real, b: real, c: real)
    ensures (a - b) * c == a * c - b * c
  {
  }

  lemma SmallFactor(d: real, c: real)
    requires d <= 0.5 && c > 0.0
    ensures d * c <= c / 2.0
  {
    assert (0.5 - d) * c >= 0.0;
    Distribute(0.5, d, c);
  }

  lemma ScaledDifference(a: real, b: real, step: real, x: real, y: real)
    requires step > 0.0 && a - b <= 0.5 && x == a * step && y == b * step
    ensures x - y <= step / 2.0
  {
    SmallFactor(a - b, step);
    Distribute(a, b, step);
  }

  lemma ScaledBothWays(a: real, b: real, step: real, x: real, y: real)
    requires step > 0.0 && Distance(a, b) <= 0.5 && x == a * step && y == b * step
    ensures Distance(x, y) <= step / 2.0
  {
    if x < y {
      ScaledDifference(b, a, step, y, x);
    } else {
      ScaledDifference(a, b, step, x, y);
    }
  }

  lemma ScaledDistance(a: real, b: real, step: real)
    requires step > 0.0 && Distance(a, b) <= 0.5
    ensures Distance(a * step, b * step) <= step / 2.0
  {
    ScaledBothWays(a, b, step, a * step, b * step);
  }

  /** Scaling up and down again. */
  lemma ThereAndBack(x: real, p: real, step: real)
    requires step * p == 1.0
    ensures (x * p) * step == x && (x * step) * p == x
  {
    assert p * step == 1.0;
    Associate(x, p, step);
    Associate(x, step, p);
  }

  lemma NearestInteger(u: real) returns (m: int)
    ensures Distance(m as real, u) <= 0.5 && u - 0.5 <= m as real <= u + 0.5
  {
    m := (u + 0.5).Floor;
  }

  lemma Quotient(z: real, p: real, m: real)
    requires p > 0.0 && z * p == m
    ensures z == m / p
  {
  }

  lemma FractionIsDouble(z: real, m: int, k: nat, p: real)
    requires k <= 1074 && -TWO_TO_53 < m < TWO_TO_53 && p == Pow2(k) as real && z * p == m as real
    ensures Double(z)
  {
    Quotient(z, p, m as real);
    assert IsScaled(z, m, k);
  }

  /** The multiple of 1/p nearest to x. */
  lemma GridPoint(x: real, p: real, step: real) returns (m: int, z: real)
    requires step * p == 1.0 && step > 0.0
    ensures z * p == m as real && Distance(z, x) <= step / 2.0 && x * p - 0.5 <= m as real <= x * p + 0.5
  {
    var u := x * p;
    m := NearestInteger(u);
    z := m as real * step;
    ThereAndBack(m as real, p, step);
    ThereAndBack(x, p, step);
    ScaledDistance(m as real, u, step);
  }

  /** Some multiple of 2^-k is a double close to x, so rounding moves x by at most half of 2^-k. */
  lemma RoundingIsClose(x: real, y: real, k: nat, p: real, step: real)
    requires k <= 1074 && p == Pow2(k) as real && step * p == 1.0 && step > 0.0
    requires -(TWO_TO_53 as real) + 1.0 < x * p < TWO_TO_53 as real - 1.0
    requires Nearest(x, y)
    ensures Distance(y, x) <= step / 2.0
  {
    var m, z := GridPoint(x, p, step);
    FractionIsDouble(z, m, k, p);
  }

  lemma DoubleStays(x: real, y: real)
    requires Double(x) && Nearest(x, y)
    ensures x == y
  {
    assert Distance(y, x) <= Distance(x, x);
  }

  lemma Powers()
    ensures Pow2(9) == 512 && Pow2(13) == 8192 && Pow2(19) == 524288 && Pow2(1) == 2
  {
    assert Pow2(4) == 16 && Pow2(8) == 256;
    assert Pow2(12) == 4096;
    assert Pow2(16) == 65536;
  }

  // ---- rounding is always possible ----

  ghost function Fractions(): set<real> {
    set m: int, e: nat | -TWO_TO_53 < m < TWO_TO_53 && e <= 1074 :: Fraction(m, e)
  }

  ghost function Multiples(): set<real> {
    set m: int, e: nat | -TWO_TO_53 < m < TWO_TO_53 && e <= 971 :: Multiple(m, e)
  }

  /** There are finitely many doubles. */
  lemma DoublesAreFinite(z: real)
    ensures Double(z) <==> z in Fractions() + Multiples()
  {
    if z in Fractions() {
      var m: int, e: nat :| -TWO_TO_53 < m < TWO_TO_53 && e <= 1074 && z == Fraction(m, e);
      assert IsScaled(z, m, e);
    }
    if z in Multiples() {
      var m: int, e: nat :| -TWO_TO_53 < m < TWO_TO_53 && e <= 971 && z == Multiple(m, e);
      assert IsScaled(z, m, e);
    }
  }

  lemma {:induction false} ClosestOf(s: set<real>, first: real, x: real) returns (y: real)
    requires first in s
    ensures y in s && forall z | z in s :: Distance(y, x) <= Distance(z, x)
    decreases |s|
  {
    y := first;
    if second :| second in s && second != first {
      var other := ClosestOf(s - {first}, second, x);
      y := if Distance(other, x) < Distance(first, x) then other else first;
    }
  }

  lemma NearestExists(x: real) returns (y: real)
    ensures Nearest(x, y)
  {
    assert IsScaled(0.0, 0, 0);
    DoublesAreFinite(0.0);
    y := ClosestOf(Fractions() + Multiples(), 0.0, x);
    DoublesAreFinite(y);
    forall z: real | Double(z) ensures Distance(y, x) <= Distance(z, x) {
      DoublesAreFinite(z);
    }
  }

  /** The computation always has a result. */
  lemma MinorUnitsExist(cents: int, digits: nat) returns (result: int)
    ensures MinorUnitsOf(cents, digits, result)
  {
    var x := NearestExists(cents as real / 100.0);
    var y := NearestExists(x * Scale(digits) as real);
    result := JsRound(y);
    assert Computes(cents, Scale(digits), x, y);
  }

  // ---- exactness ----

  lemma TwoDigits(cents: int, x: real, y: real)
    requires Amount(cents) && Nearest(cents as real / 100.0, x) && Nearest(x * 100.0, y)
    ensures JsRound(y) == cents
  {
    Powers();
    RoundingIsClose(cents as real / 100.0, x, 13, 8192.0, 1.0 / 8192.0);
    assert Distance(x * 100.0, cents as real) <= 100.0 / 16384.0;
    RoundingIsClose(x * 100.0, y, 9, 512.0, 1.0 / 512.0);
  }

  lemma ThreeDigits(cents: int, x: real, y: real)
    requires Amount(cents) && Nearest(cents as real / 100.0, x) && Nearest(x * 1000.0, y)
    ensures JsRound(y) == 10 * cents
  {
    Powers();
    RoundingIsClose(cents as real / 100.0, x, 19, 524288.0, 1.0 / 524288.0);
    assert Distance(x * 1000.0, 10.0 * cents as real) <= 1000.0 / 1048576.0;
    RoundingIsClose(x * 1000.0, y, 9, 512.0, 1.0 / 512.0);
  }

  /** Without minor digits the amount is rounded to a whole number; a half is a double, so it is met exactly. */
  lemma NoDigits(cents: int, x: real, y: real)
    requires Amount(cents) && Nearest(cents as real / 100.0, x) && Nearest(x * 1.0, y)
    ensures JsRound(y) == (cents + 50) / 100
  {
    Powers();
    var exact := cents as real / 100.0;
    var n, r := (cents + 50) / 100, (cents + 50) % 100;
    assert cents == 100 * n + r - 50;
    assert exact + 0.5 == n as real + r as real / 100.0;
    assert x * 1.0 == x;
    DoubleStays(x, y);
    if r == 0 {
      assert exact * 2.0 == (2 * n - 1) as real;
      assert IsScaled(exact, 2 * n - 1, 1);
      DoubleStays(exact, x);
    } else {
      RoundingIsClose(exact, x, 19, 524288.0, 1.0 / 524288.0);
      assert 1.0 <= r as real <= 99.0;
    }
  }

  lemma ScaleValues()
    ensures Scale(0) == 1 && Scale(2) == 100 && Scale(3) == 1000
  {
    assert Scale(1) == 10;
  }

  lemma WholeWithTwo(cents: int, result: int)
    requires Amount(cents) && MinorUnitsOf(cents, 2, result)
    ensures result == cents
  {
    ScaleValues();
    var x, y :| Computes(cents, Scale(2), x, y) && result == JsRound(y);
    TwoDigits(cents, x, y);
  }

  lemma WholeWithThree(cents: int, result: int)
    requires Amount(cents) && MinorUnitsOf(cents, 3, result)
    ensures result == 10 * cents
  {
    ScaleValues();
    var x, y :| Computes(cents, Scale(3), x, y) && result == JsRound(y);
    ThreeDigits(cents, x, y);
  }

  /** With two or three minor digits the result is the amount itself, in minor units. */
  lemma MinorUnitsAreWhole(cents: int, digits: nat, result: int)
    requires Amount(cents) && 2 <= digits <= 3 && MinorUnitsOf(cents, digits, result)
    ensures result == if digits == 2 then cents else 10 * cents
  {
    if digits == 2 {
      WholeWithTwo(cents, result);
    } else {
      WholeWithThree(cents, result);
    }
  }

  lemma MinorUnitsWithoutDigits(cents: int, result: int)
    requires Amount(cents) && MinorUnitsOf(cents, 0, result)
    ensures result == (cents + 50) / 100
  {
    ScaleValues();
    var x, y :| Computes(cents, Scale(0), x, y) && result == JsRound(y);
    NoDigits(cents, x, y);
  }

  lemma FloorOfHundredths(a: int)
    ensures (a as real / 100.0).Floor == a / 100
  {
    var n, r := a / 100, a % 100;
    assert a as real / 100.0 == n as real + r as real / 100.0;
  }

  lemma ExactForDigits(cents: int, digits: nat, result: int)
    requires Amount(cents) && (digits == 0 || digits == 2 || digits == 3) && MinorUnitsOf(cents, digits, result)
    ensures result == (cents as real / 100.0 * Scale(digits) as real + 0.5).Floor
  {
    ScaleValues();
    if digits == 0 {
      MinorUnitsWithoutDigits(cents, result);
      FloorOfHundredths(cents + 50);
      assert cents as real / 100.0 * 1.0 + 0.5 == (cents + 50) as real / 100.0;
    } else {
      MinorUnitsAreWhole(cents, digits, result);
      assert cents as real / 100.0 * 100.0 == cents as real;
      assert cents as real / 100.0 * 1000.0 == (10 * cents) as real;
    }
  }

  /** For every amount and currency the result is the exact amount in minor units, rounded half up. */
  lemma MinorUnitsAreExact(cents: int, currency: string, result: int)
    requires Amount(cents) && MinorUnitsOf(cents, MinorDigits(currency), result)
    ensures result == (cents as real / 100.0 * Scale(MinorDigits(currency)) as real + 0.5).Floor
  {
    ExactForDigits(cents, MinorDigits(currency), result);
  }

  // ---- bills in parts ----

  function Sum(xs: seq<int>): int {
    if xs == [] then 0 else xs[0] + Sum(xs[1..])
  }

  ghost predicate ConvertedAt(parts: seq<int>, digits: nat, results: seq<int>, i: nat)
    requires i < |parts| == |results|
  {
    Amount(parts[i]) && MinorUnitsOf(parts[i], digits, results[i])
  }

  /** Each amount, converted on its own. */
  ghost predicate Converted(parts: seq<int>, digits: nat, results: seq<int>) {
    |parts| == |results| && forall i | 0 <= i < |parts| :: ConvertedAt(parts, digits, results, i)
  }

  /** What one hundredth is in minor units, given at least two digits. */
  function Factor(digits: nat): int {
    if digits == 2 then 1 else 10
  }

  lemma WholeParts(parts: seq<int>, digits: nat, results: seq<int>)
    requires 2 <= digits <= 3 && Converted(parts, digits, results)
    ensures |parts| == |results| && forall i | 0 <= i < |parts| :: results[i] == Factor(digits) * parts[i]
  {
    forall i | 0 <= i < |parts| ensures results[i] == Factor(digits) * parts[i] {
      assert ConvertedAt(parts, digits, results, i);
      MinorUnitsAreWhole(parts[i], digits, results[i]);
    }
  }

  lemma {:induction false} ScaledSum(xs: seq<int>, ys: seq<int>, factor: int)
    requires |xs| == |ys| && forall i | 0 <= i < |xs| :: ys[i] == factor * xs[i]
    ensures Sum(ys) == factor * Sum(xs)
    decreases |xs|
  {
    if xs != [] {
      ScaledSum(xs[1..], ys[1..], factor);
      assert factor * (xs[0] + Sum(xs[1..])) == factor * xs[0] + factor * Sum(xs[1..]);
    }
  }

  lemma TotalOfParts(parts: seq<int>, results: seq<int>, factor: int)
    requires |results| == |parts| + 1
    requires forall i | 0 <= i < |results| :: results[i] == factor * (parts + [Sum(parts)])[i]
    ensures Sum(results[..|parts|]) == results[|parts|]
  {
    var n := |parts|;
    assert forall i | 0 <= i < n :: (parts + [Sum(parts)])[i] == parts[i] && results[..n][i] == results[i];
    ScaledSum(parts, results[..n], factor);
  }

  lemma WholeWithTotal(parts: seq<int>, all: seq<int>, digits: nat, results: seq<int>)
    requires all == parts + [Sum(parts)] && 2 <= digits <= 3 && Converted(all, digits, results)
    ensures |results| == |parts| + 1 && Sum(results[..|parts|]) == results[|parts|]
  {
    WholeParts(all, digits, results);
    TotalOfParts(parts, results, Factor(digits));
  }

  /** In a currency with minor digits, the parts of a bill, converted one by one, add up to the bill. */
  lemma MinorUnitsAdd(parts: seq<int>, currency: string, results: seq<int>)
    requires MinorDigits(currency) != 0 && Converted(parts + [Sum(parts)], MinorDigits(currency), results)
    ensures Sum(results[..|parts|]) == results[|parts|]
  {
    WholeWithTotal(parts, parts + [Sum(parts)], MinorDigits(currency), results);
  }

  /** What rounding to whole units leaves over, from -50 to 49 hundredths. */
  function Residue(cents: int): (r: int)
    ensures -50 <= r < 50 && cents == 100 * ((cents + 50) / 100) + r
  {
    (cents + 50) % 100 - 50
  }

  function Residues(parts: seq<int>): (r: seq<int>)
    ensures |r| == |parts| && forall i | 0 <= i < |r| :: r[i] == Residue(parts[i])
  {
    seq(|parts|, i requires 0 <= i < |parts| => Residue(parts[i]))
  }

  lemma RoundedParts(parts: seq<int>, results: seq<int>)
    requires Converted(parts, 0, results)
    ensures |parts| == |results| && forall i | 0 <= i < |parts| :: results[i] == (parts[i] + 50) / 100
  {
    forall i | 0 <= i < |parts| ensures results[i] == (parts[i] + 50) / 100 {
      assert ConvertedAt(parts, 0, results, i);
      MinorUnitsWithoutDigits(parts[i], results[i]);
    }
  }

  lemma {:induction false} SumsOfRounded(parts: seq<int>, results: seq<int>)
    requires |parts| == |results| && forall i | 0 <= i < |parts| :: results[i] == (parts[i] + 50) / 100
    ensures Sum(parts) == 100 * Sum(results) + Sum(Residues(parts))
    decreases |parts|
  {
    if parts != [] {
      SumsOfRounded(parts[1..], results[1..]);
      assert Residues(parts)[0] == Residue(parts[0]);
      assert Residues(parts)[1..] == Residues(parts[1..]);
    }
  }

  lemma RoundedSum(total: int, whole: int, left: int)
    requires total == 100 * whole + left
    ensures whole == (total + 50) / 100 <==> -50 <= left < 50
  {
  }

  lemma RoundedBill(parts: seq<int>, results: seq<int>)
    requires |results| == |parts| + 1
    requires forall i | 0 <= i < |results| :: results[i] == ((parts + [Sum(parts)])[i] + 50) / 100
    ensures Sum(results[..|parts|]) == results[|parts|] <==> -50 <= Sum(Residues(parts)) < 50
  {
    var n := |parts|;
    assert forall i | 0 <= i < n :: (parts + [Sum(parts)])[i] == parts[i] && results[..n][i] == results[i];
    SumsOfRounded(parts, results[..n]);
    RoundedSum(Sum(parts), Sum(results[..n]), Sum(Residues(parts)));
  }

  lemma RoundedWithTotal(parts: seq<int>, all: seq<int>, results: seq<int>)
    requires all == parts + [Sum(parts)] && Converted(all, 0, results)
    ensures |results| == |parts| + 1
    ensures Sum(results[..|parts|]) == results[|parts|] <==> -50 <= Sum(Residues(parts)) < 50
  {
    RoundedParts(all, results);
    RoundedBill(parts, results);
  }

  /** Without minor digits, the parts of a bill, converted one by one, add up to the bill if and only if what rounding
    * leaves over in the parts makes less than half a unit together. */
  lemma WholeUnitsAddIff(parts: seq<int>, results: seq<int>)
    requires Converted(parts + [Sum(parts)], 0, results)
    ensures Sum(results[..|parts|]) == results[|parts|] <==> -50 <= Sum(Residues(parts)) < 50
  {
    RoundedWithTotal(parts, parts + [Sum(parts)], results);
  }

  lemma SumOfTwo(a: int, b: int)
    ensures Sum([a, b]) == a + b
  {
    assert [a, b][1..] == [b] && Sum([b]) == b;
  }

  lemma ResidueOf(a: int)
    ensures Residue(a) == if a % 100 < 50 then a % 100 else a % 100 - 100
  {
  }

  /** For two parts: the hundredths beyond whole units must not be rounded one way apart and the other together. */
  lemma TwoPartsAddIff(a: int, b: int, results: seq<int>)
    requires Converted([a, b] + [a + b], 0, results)
    ensures var r0, r1 := a % 100, b % 100;
            results[0] + results[1] == results[2]
            <==> (r0 < 50 && r1 < 50 ==> r0 + r1 < 50) && (r0 >= 50 && r1 >= 50 ==> r0 + r1 >= 150)
  {
    SumOfTwo(a, b);
    WholeUnitsAddIff([a, b], results);
    SumOfTwo(results[0], results[1]);
    assert results[..2] == [results[0], results[1]];
    assert Residues([a, b]) == [Residue(a), Residue(b)];
    SumOfTwo(Residue(a), Residue(b));
    ResidueOf(a);
    ResidueOf(b);
  }

  lemma YenHasNoDigits()
    ensures MinorDigits("JPY") == 0
  {
    assert Upper("JPY") == "JPY";
  }

  lemma WholeResult(cents: int) returns (result: int)
    requires Amount(cents)
    ensures MinorUnitsOf(cents, 0, result) && result == (cents + 50) / 100
  {
    result := MinorUnitsExist(cents, 0);
    MinorUnitsWithoutDigits(cents, result);
  }

  /** Two halves are charged as two, their sum as one. */
  lemma WholeUnitsDoNotAdd() returns (half: int, sum: int)
    ensures MinorDigits("JPY") == 0 && MinorUnitsOf(50, 0, half) && MinorUnitsOf(100, 0, sum) && half + half != sum
  {
    YenHasNoDigits();
    half := WholeResult(50);
    sum := WholeResult(100);
  }
}
