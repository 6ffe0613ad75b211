/**
 * The discount arithmetic shared by the three package snapshots (articlecli,
 * its contracts/articles/storage split, and org.dakralex.plcarticlemgmt).
 * All three take the larger of five percent per year and thirty percent for
 * a book, and turn the percentage into a fraction with
 * `new BigDecimal(p).divide(new BigDecimal(100), RoundingMode.HALF_UP)`,
 * which keeps the dividend's scale 0: the fraction is a whole number.
 */
module SnapshotPricing {
  import opened Decimal
  import opened AgeRatings

  /** `Math.max(5 * getAge(), 30)`: never below thirty percent. */
  function AgePercentage(age: int): (t: int)
    ensures t >= 30 && t >= 5 * age
    ensures t == 30 || t == 5 * age
  {
    if 5 * age < 30 then 30 else 5 * age
  }

  /** The age term plus three percent for more than 1000 pages. */
  function BookPercentage(pages: int, age: int): (p: int)
    ensures p == AgePercentage(age) + (if pages > 1000 then 3 else 0)
    ensures p >= 30
  {
    AgePercentage(age) + (if pages > 1000 then 3 else 0)
  }

  /** The percentage divided by 100 at scale 0: a whole number, rounded half-up. */
  function WholeFraction(pct: int): (f: Dec)
    ensures f.scale == 0
    ensures f.unscaled == RoundHalfUp(pct, 100)
    ensures 0 <= pct < 50 ==> f.unscaled == 0
  {
    DivideByCount(FromInt(pct), 100);
    if 0 <= pct < 50 then RoundHalfUpUnique(pct, 100, 0); Divide(FromInt(pct), FromInt(100))
    else Divide(FromInt(pct), FromInt(100))
  }

  /** For a base price in cents the rescaled product is exact: cents times the whole fraction. */
  lemma DiscountAtCents(basePrice: Dec, pct: int)
    requires basePrice.scale == 2
    ensures SetScale(Mul(basePrice, WholeFraction(pct)), 2) == Dec(basePrice.unscaled * RoundHalfUp(pct, 100), 2)
  {
    assert Pow10(0) == 1;
  }

  /** `getBasePrice().multiply(fraction).setScale(2, HALF_UP)`. */
  function DiscountAt(basePrice: Dec, pct: int): (d: Dec)
    ensures d.scale == 2
    ensures basePrice.scale == 2 ==> d == Dec(basePrice.unscaled * RoundHalfUp(pct, 100), 2)
  {
    if basePrice.scale == 2 then
      DiscountAtCents(basePrice, pct);
      SetScale(Mul(basePrice, WholeFraction(pct)), 2)
    else SetScale(Mul(basePrice, WholeFraction(pct)), 2)
  }

  /** For a base price in cents, the price before rescaling is the base price times one less the whole fraction. */
  lemma PriceAtCents(basePrice: Dec, pct: int)
    requires basePrice.scale == 2
    ensures Sub(basePrice, DiscountAt(basePrice, pct)) == Dec(basePrice.unscaled * (1 - RoundHalfUp(pct, 100)), 2)
  {
    assert Pow10(0) == 1;
    assert basePrice.unscaled - basePrice.unscaled * RoundHalfUp(pct, 100)
      == basePrice.unscaled * (1 - RoundHalfUp(pct, 100));
  }

  /** `basePrice.subtract(getDiscount()).setScale(2, HALF_UP)`, for a base price at scale 2. */
  function RescaledPriceAt(basePrice: Dec, pct: int): (p: Dec)
    ensures p.scale == 2
    ensures basePrice.scale == 2 ==> p == Dec(basePrice.unscaled * (1 - RoundHalfUp(pct, 100)), 2)
  {
    var d := DiscountAt(basePrice, pct);
    if basePrice.scale == 2 then
      PriceAtCents(basePrice, pct);
      assert Widen(Sub(basePrice, d), 2) == Sub(basePrice, d).unscaled;
      SetScale(Sub(basePrice, d), 2)
    else SetScale(Sub(basePrice, d), 2)
  }

  /** The whole-number fraction of a non-negative percentage is `(p + 50) / 100`. */
  lemma WholeFractionOfNonNegative(pct: int, q: int)
    requires pct >= 0 && 100 * q <= pct + 50 < 100 * (q + 1)
    ensures RoundHalfUp(pct, 100) == q
  {
    RoundHalfUpUnique(pct, 100, q);
  }

  /** Up to nine years of age a book's fraction is 0: no discount at all. */
  lemma YoungBookFraction(pages: int, age: int)
    requires 0 <= age <= 9
    ensures RoundHalfUp(BookPercentage(pages, age), 100) == 0
  {
    WholeFractionOfNonNegative(BookPercentage(pages, age), 0);
  }

  /** From ten to twenty-nine years the fraction is 1: the whole base price is discounted. */
  lemma MiddleAgedBookFraction(pages: int, age: int)
    requires 10 <= age <= 29
    ensures RoundHalfUp(BookPercentage(pages, age), 100) == 1
  {
    WholeFractionOfNonNegative(BookPercentage(pages, age), 1);
  }

  /** From thirty to forty-nine years the fraction is 2: the discount is twice the base price. */
  lemma OldBookFraction(pages: int, age: int)
    requires 30 <= age <= 49
    ensures RoundHalfUp(BookPercentage(pages, age), 100) == 2
  {
    WholeFractionOfNonNegative(BookPercentage(pages, age), 2);
  }

  /** Every DVD tier is below fifty percent, so a DVD's fraction is always 0. */
  lemma DvdFraction(rating: AgeRating)
    ensures RoundHalfUp(DiscountPercentage(rating), 100) == 0
  {
    WholeFractionOfNonNegative(DiscountPercentage(rating), 0);
  }

  /** A rounding of zero is zero at any scale. */
  lemma ZeroAtAnyScale(s: nat)
    ensures SetScale(Dec(0, s), 2) == Dec(0, 2)
  {
    if s > 2 {
      RoundHalfUpExact(0, Pow10(s - 2));
    }
  }

  /** A DVD's discount rounds to zero whatever the base price's scale. */
  lemma DvdDiscountZero(basePrice: Dec, rating: AgeRating)
    ensures DiscountAt(basePrice, DiscountPercentage(rating)) == Dec(0, 2)
  {
    var f := WholeFraction(DiscountPercentage(rating));
    DvdFraction(rating);
    assert f == Dec(0, 0);
    assert Mul(basePrice, f) == Dec(0, basePrice.scale);
    assert DiscountAt(basePrice, DiscountPercentage(rating)) == SetScale(Mul(basePrice, f), 2);
    ZeroAtAnyScale(basePrice.scale);
  }

  /** A book of at most nine years sells at its base price. */
  lemma YoungBookPrice(cents: int, pages: int, age: int)
    requires 0 <= age <= 9
    ensures RescaledPriceAt(Dec(cents, 2), BookPercentage(pages, age)) == Dec(cents, 2)
  {
    YoungBookFraction(pages, age);
  }

  /** A book of ten to twenty-nine years sells for 0.00. */
  lemma MiddleAgedBookPrice(cents: int, pages: int, age: int)
    requires 10 <= age <= 29
    ensures RescaledPriceAt(Dec(cents, 2), BookPercentage(pages, age)) == Dec(0, 2)
  {
    MiddleAgedBookFraction(pages, age);
  }

  /** A book of thirty to forty-nine years has the negated base price as its price. */
  lemma OldBookPrice(cents: int, pages: int, age: int)
    requires 30 <= age <= 49
    ensures RescaledPriceAt(Dec(cents, 2), BookPercentage(pages, age)) == Dec(-cents, 2)
  {
    OldBookFraction(pages, age);
  }

  /** A DVD sells at its base price whatever its age rating. */
  lemma DvdPrice(cents: int, rating: AgeRating)
    ensures RescaledPriceAt(Dec(cents, 2), DiscountPercentage(rating)) == Dec(cents, 2)
  {
    var pct := DiscountPercentage(rating);
    DvdFraction(rating);
    assert cents * (1 - RoundHalfUp(pct, 100)) == cents;
  }
}
