/**
 Network fees. Percentages are exact rationals here; the source computes them in `float`.
 */
module Fees {
  import opened Bytes

  const MINIMUM_FEE := 1
  const CHUNK_SIZE := 32
  const BASE_CHUNK_SIZE := CHUNK_SIZE * 10
  const CHUNK_FEE := 1
  const MINIMUM_POW_ZEROS := 1
  const MAXIMUM_POW_ZEROS := 16
  const POW_ZERO_DISCOUNT_MULTIPLIER := 2.0

  function Ceiling(x: real): int {
    -((-x).Floor)
  }

  function BaseFee(size: nat): int {
    if size <= BASE_CHUNK_SIZE then MINIMUM_FEE
    else
      var chunks := Ceiling((size - BASE_CHUNK_SIZE) as real / CHUNK_SIZE as real);
      chunks * CHUNK_FEE + MINIMUM_FEE
  }

  /** `None` is the range error for more than 256 leading zeros. */
  function Discount(zeros: nat): Option<real> {
    if zeros > 256 then None
    else if zeros <= MINIMUM_POW_ZEROS then Some(0.0)
    else if zeros >= MAXIMUM_POW_ZEROS then
      Some((MAXIMUM_POW_ZEROS - MINIMUM_POW_ZEROS) as real * POW_ZERO_DISCOUNT_MULTIPLIER / 100.0)
    else
      Some((zeros as real - MINIMUM_POW_ZEROS as real) * POW_ZERO_DISCOUNT_MULTIPLIER / 100.0)
  }

  /** The whole units a discount takes off. */
  function Cut(fee: int, discount: real): int {
    (fee as real * discount).Floor
  }

  function TransactionFee(size: nat, zeros: nat): Option<int> {
    var discount :- Discount(zeros);
    var base := BaseFee(size);
    var discounted := base - Cut(base, discount);
    Some(if discounted > MINIMUM_FEE then discounted else MINIMUM_FEE)
  }

  // ---------------------------------------------------------------- integer form

  /** Number of `unit`s needed to cover `n`. */
  function Cover(n: nat, unit: nat): nat
    requires unit > 0
  {
    (n + unit - 1) / unit
  }

  function DiscountPercent(zeros: nat): nat {
    if zeros <= 1 then 0 else if zeros >= 16 then 30 else 2 * (zeros - 1)
  }

  lemma DiscountIs(zeros: nat)
    requires zeros <= 256
    ensures Discount(zeros) == Some(DiscountPercent(zeros) as real / 100.0)
  {
  }

  lemma FloorIs(x: real, k: int)
    requires k as real <= x < k as real + 1.0
    ensures x.Floor == k
  {
  }

  lemma CeilingOfQuotient(n: nat)
    ensures Ceiling(n as real / 32.0) == Cover(n, 32)
  {
    var k := Cover(n, 32);
    assert 32 * (k - 1) < n <= 32 * k;
    FloorIs(-(n as real / 32.0), -k);
  }

  /** One unit of fee per started chunk above the free zone. */
  lemma BaseFeeClosedForm(size: nat)
    ensures BaseFee(size) == 1 + if size <= 320 then 0 else Cover(size - 320, 32)
  {
    if size > 320 {
      CeilingOfQuotient(size - 320);
    }
  }

  lemma BaseFeeMonotone(small: nat, large: nat)
    requires small <= large
    ensures 1 <= BaseFee(small) <= BaseFee(large)
  {
    BaseFeeClosedForm(small);
    BaseFeeClosedForm(large);
  }

  /** The width of the source's integers is never exceeded. */
  lemma BaseFeeFits(size: uint64)
    ensures BaseFee(size) < TWO_64
  {
    BaseFeeClosedForm(size);
  }

  /** The fee after the discount, in integers: never below the minimum, so the minimum never cuts in. */
  lemma FeeClosedForm(size: nat, zeros: nat)
    ensures zeros > 256 ==> TransactionFee(size, zeros) == None
    ensures zeros <= 256 ==>
      TransactionFee(size, zeros) == Some(BaseFee(size) - BaseFee(size) * DiscountPercent(zeros) / 100)
  {
    hide BaseFee;
    hide Cut;
    if zeros <= 256 {
      var base, d := BaseFee(size), DiscountPercent(zeros);
      BaseFeeMonotone(size, size);
      DiscountIs(zeros);
      DiscountFloor(base, d);
      Discounted(base, d);
      FeeFrom(size, zeros, d as real / 100.0, base * d / 100);
    }
  }

  lemma FeeFrom(size: nat, zeros: nat, discount: real, cut: nat)
    requires Discount(zeros) == Some(discount)
    requires Cut(BaseFee(size), discount) == cut < BaseFee(size)
    ensures TransactionFee(size, zeros) == Some(BaseFee(size) - cut)
  {
    hide BaseFee;
    hide Discount;
    hide Cut;
  }

  lemma DiscountFloor(base: nat, d: nat)
    ensures Cut(base, d as real / 100.0) == base * d / 100
  {
    var k := base * d / 100;
    assert 100 * k <= base * d < 100 * k + 100;
    assert base as real * d as real == (base * d) as real;
    assert base as real * (d as real / 100.0) == (base * d) as real / 100.0;
    FloorIs((base * d) as real / 100.0, k);
  }

  lemma MulMonotone(a: nat, b: nat, n: nat)
    requires a <= b
    ensures n * a <= n * b
  {
    var k := b - a;
    assert n * (a + k) == n * a + n * k;
  }

  /** A discount of at most 30 percent leaves between 70 percent and all of a positive fee. */
  lemma Discounted(base: nat, d: nat)
    requires base >= 1 && d <= 30
    ensures 0 <= base * d / 100 < base
    ensures 10 * (base - base * d / 100) >= 7 * base
  {
    MulMonotone(d, 30, base);
  }

  lemma DiscountedMonotone(small: nat, large: nat, d: nat)
    requires small <= large && d <= 30
    ensures small - small * d / 100 <= large - large * d / 100
  {
    var more := large - small;
    assert large * d == small * d + more * d;
    MulMonotone(d, 100, more);
  }

  lemma DiscountAntitone(base: nat, d: nat, e: nat)
    requires d <= e
    ensures base * d / 100 <= base * e / 100
  {
    MulMonotone(d, e, base);
  }

  /**
   For every size and every possible number of zeros the fee is at least the minimum, at most the base
   fee and at least 70 percent of it.
   */
  lemma FeeBounds(size: nat, zeros: nat)
    requires zeros <= 256
    ensures TransactionFee(size, zeros).Some?
    ensures var fee := TransactionFee(size, zeros).value;
      1 <= fee <= BaseFee(size) && 10 * fee >= 7 * BaseFee(size)
  {
    FeeClosedForm(size, zeros);
    BaseFeeMonotone(size, size);
    Discounted(BaseFee(size), DiscountPercent(zeros));
  }

  /** The discount never exceeds what it is taken from. */
  lemma NoUnderflow(size: nat, zeros: nat)
    requires zeros <= 256
    ensures Discount(zeros).Some?
    ensures 0 <= Cut(BaseFee(size), Discount(zeros).value) < BaseFee(size)
  {
    hide BaseFee;
    hide Discount;
    hide Cut;
    DiscountIs(zeros);
    BaseFeeMonotone(size, size);
    DiscountFloor(BaseFee(size), DiscountPercent(zeros));
    Discounted(BaseFee(size), DiscountPercent(zeros));
  }

  /** Larger transactions never pay less; more work never pays more. */
  lemma FeeMonotone(small: nat, large: nat, fewer: nat, more: nat)
    requires small <= large && fewer <= more <= 256
    ensures TransactionFee(small, more).Some? && TransactionFee(large, fewer).Some?
    ensures TransactionFee(small, more).value <= TransactionFee(large, fewer).value
  {
    FeeClosedForm(small, more);
    FeeClosedForm(large, fewer);
    BaseFeeMonotone(small, large);
    DiscountedMonotone(BaseFee(small), BaseFee(large), DiscountPercent(more));
    DiscountAntitone(BaseFee(large), DiscountPercent(fewer), DiscountPercent(more));
  }
}
