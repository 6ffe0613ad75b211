/**
 * The article domain of the default-package revision: the sealed Article
 * hierarchy with its two variants Book and DVD. Articles are immutable, so an
 * article is a value. Base prices are BigDecimals of scale 2 (the argument
 * parser rescales them), so a base price is held as whole cents; the price
 * chain itself is computed with the Decimal model of BigDecimal and then shown
 * to be plain cent arithmetic with half-up rounding.
 */
module Catalogue {
  import opened Wrappers
  import opened Decimal
  import opened AgeRatings

  /** PRICE_DECIMAL_COUNT: prices carry two decimal places, rounded HALF_UP. */
  const PriceScale: nat := 2

  const AgeDiscountLimit := 30
  const AgeDiscountPerYear := 5
  const PagesDiscountQualifier := 1000
  const PageDiscount := 3

  /** The per-variant payload; a sealed class with exactly these two subclasses. */
  datatype Variant =
    | Book(pages: int)
    | Dvd(length: int, ageRating: AgeRating)

  /** An article; basePrice counts cents, the BigDecimal Dec(basePrice, 2). */
  datatype Article = Article(
    id: int,
    title: string,
    publisher: string,
    releaseYear: int,
    basePrice: int,
    variant: Variant)

  /** The exceptions the constructors throw. */
  datatype ArticleError = InvalidReleaseYear | InvalidAgeRating

  function Message(e: ArticleError): string
  {
    match e
    case InvalidReleaseYear => "Error: Invalid release year."
    case InvalidAgeRating => "Error: Invalid age rating."
  }

  /**
   * `new Book(...)`: the only check is that the release year is not in the
   * future; every other argument is stored as given.
   */
  function NewBook(id: int, title: string, publisher: string, releaseYear: int,
                   basePrice: int, pages: int, currentYear: int): (r: Result<Article, ArticleError>)
    ensures r.Failure? <==> releaseYear > currentYear
    ensures r.Failure? ==> r.error == InvalidReleaseYear
    ensures r.Success? ==>
      && r.value == Article(id, title, publisher, releaseYear, basePrice, Book(pages))
      && GetAge(r.value, currentYear) >= 0
  {
    if releaseYear > currentYear then Failure(InvalidReleaseYear)
    else Success(Article(id, title, publisher, releaseYear, basePrice, Book(pages)))
  }

  /**
   * `new DVD(...)`: the base constructor checks the release year first, then
   * the minimum age is looked up among the rating classes.
   */
  function NewDvd(id: int, title: string, publisher: string, releaseYear: int,
                  basePrice: int, length: int, minAge: int, currentYear: int): (r: Result<Article, ArticleError>)
    ensures r.Success? <==> releaseYear <= currentYear && minAge in {0, 6, 12, 16, 18}
    ensures releaseYear > currentYear ==> r == Failure(InvalidReleaseYear)
    ensures releaseYear <= currentYear && minAge !in {0, 6, 12, 16, 18} ==> r == Failure(InvalidAgeRating)
    ensures r.Success? ==>
      && r.value.variant.Dvd?
      && r.value == Article(id, title, publisher, releaseYear, basePrice, Dvd(length, r.value.variant.ageRating))
      && GetMinAge(r.value) == minAge
      && GetAge(r.value, currentYear) >= 0
  {
    if releaseYear > currentYear then Failure(InvalidReleaseYear)
    else match ByMinAge(minAge)
      case None => Failure(InvalidAgeRating)
      case Some(rating) => Success(Article(id, title, publisher, releaseYear, basePrice, Dvd(length, rating)))
  }

  /** `getMinAge()` of a DVD: one of the five class ages, the one its rating was looked up by. */
  function GetMinAge(a: Article): (m: nat)
    requires a.variant.Dvd?
    ensures m in {0, 6, 12, 16, 18}
    ensures ByMinAge(m) == Some(a.variant.ageRating)
  {
    ByMinAgeOfMinAge(a.variant.ageRating);
    MinAge(a.variant.ageRating)
  }

  /** `getAge()`: years since release, with `Year.now()` as the parameter currentYear. */
  function GetAge(a: Article, currentYear: int): (age: int)
    ensures a.releaseYear + age == currentYear
    ensures a.releaseYear <= currentYear ==> age >= 0
  {
    currentYear - a.releaseYear
  }

  /** The age term of a book: five points per year, at most AgeDiscountLimit. */
  function AgeDiscount(age: int): (t: int)
    ensures t <= AgeDiscountLimit
    ensures t == AgeDiscountLimit <==> age >= 6
    ensures age < 6 ==> t == AgeDiscountPerYear * age
  {
    if AgeDiscountPerYear * age < AgeDiscountLimit then AgeDiscountPerYear * age else AgeDiscountLimit
  }

  /** The page term of a book. */
  function PageBonus(pages: int): (b: int)
    ensures b == 0 || b == PageDiscount
    ensures b == PageDiscount <==> pages > PagesDiscountQualifier
  {
    if pages > PagesDiscountQualifier then PageDiscount else 0
  }

  /** `Book.getDiscountPercentage()`. */
  function BookDiscountPercentage(pages: int, age: int): (p: int)
    ensures age >= 0 ==> 0 <= p <= 33
    ensures age >= 6 ==> p == 30 + PageBonus(pages)
  {
    AgeDiscount(age) + PageBonus(pages)
  }

  /** The age term never falls as the book gets older. */
  lemma AgeDiscountMonotone(age1: int, age2: int)
    requires age1 <= age2
    ensures AgeDiscount(age1) <= AgeDiscount(age2)
  {}

  /** The page bonus starts strictly above 1000 pages. */
  lemma PageBonusBoundary()
    ensures PageBonus(1000) == 0 && PageBonus(1001) == PageDiscount
  {}

  /** The variant's `getDiscountPercentage()`. */
  function DiscountPercentage(a: Article, currentYear: int): (p: int)
    ensures a.releaseYear <= currentYear ==> 0 <= p <= 33
    ensures a.variant.Dvd? ==> 0 <= p <= 20
  {
    match a.variant
    case Book(pages) => BookDiscountPercentage(pages, GetAge(a, currentYear))
    case Dvd(_, rating) => AgeRatings.DiscountPercentage(rating)
  }

  /**
   * `BigDecimal.valueOf(pct).divide(BigDecimal.valueOf(100), 2, HALF_UP)`:
   * for an integer percentage the two-digit fraction is exact.
   */
  function PercentageFraction(pct: int): (f: Dec)
    ensures f == Dec(pct, PriceScale)
    ensures Value(f) == pct as real / 100.0
  {
    DivideIntsToScale(pct, 100, PriceScale);
    RoundHalfUpExact(pct, 100);
    DivideToScale(FromInt(pct), FromInt(100), PriceScale)
  }

  /**
   * `getDiscount()` for a base price of basePrice cents and a percentage pct:
   * `basePrice.multiply(fraction).setScale(2, HALF_UP)`, which is the share
   * basePrice * pct / 100 cents rounded half-up to a whole cent.
   */
  function DiscountFor(basePrice: int, pct: int): (d: Dec)
    ensures d.scale == PriceScale
    ensures d.unscaled == RoundHalfUp(basePrice * pct, 100)
    ensures basePrice * pct >= 0 ==> d.unscaled == (basePrice * pct + 50) / 100
  {
    var product := Mul(Dec(basePrice, PriceScale), PercentageFraction(pct));
    assert product == Dec(basePrice * pct, 4);
    assert Pow10(4 - PriceScale) == 100;
    SetScale(product, PriceScale)
  }

  /**
   * `getPrice()`: `basePrice.subtract(discount).setScale(2, HALF_UP)`. At scale
   * 2 on both sides the subtraction and the final rescale are exact.
   */
  function PriceFor(basePrice: int, pct: int): (p: Dec)
    ensures p.scale == PriceScale
    ensures p.unscaled == basePrice - DiscountFor(basePrice, pct).unscaled
    ensures pct == 0 ==> p == Dec(basePrice, PriceScale)
  {
    var difference := Sub(Dec(basePrice, PriceScale), DiscountFor(basePrice, pct));
    assert difference == Dec(basePrice - DiscountFor(basePrice, pct).unscaled, PriceScale);
    SetScale(difference, PriceScale)
  }

  /** A percentage between 0 and 100 keeps the price between 0 and the base price. */
  lemma PriceWithinBasePrice(basePrice: int, pct: int)
    requires basePrice >= 0 && 0 <= pct <= 100
    ensures 0 <= PriceFor(basePrice, pct).unscaled <= basePrice
    ensures 0 <= DiscountFor(basePrice, pct).unscaled <= basePrice
  {
    var n := basePrice * pct;
    if basePrice > 0 {
      MulKeepsOrder(pct, 100, basePrice);
      MulKeepsOrder(0, pct, basePrice);
    }
    assert 0 <= n <= 100 * basePrice;
    var d := (n + 50) / 100;
    assert d * 100 <= n + 50 < d * 100 + 100;
    assert d == DiscountFor(basePrice, pct).unscaled;
  }

  /** The discount of an article, in the money unit at scale 2. */
  function Discount(a: Article, currentYear: int): (d: Dec)
    ensures d.scale == PriceScale
    ensures 2 * Abs(a.basePrice * DiscountPercentage(a, currentYear) - d.unscaled * 100) <= 100
  {
    DiscountFor(a.basePrice, DiscountPercentage(a, currentYear))
  }

  /** The price of an article: base price less discount, at scale 2. */
  function Price(a: Article, currentYear: int): (p: Dec)
    ensures p.scale == PriceScale
    ensures p.unscaled == a.basePrice - Discount(a, currentYear).unscaled
    ensures a.basePrice >= 0 && a.releaseYear <= currentYear ==> 0 <= p.unscaled <= a.basePrice
  {
    var pct := DiscountPercentage(a, currentYear);
    if a.basePrice >= 0 && a.releaseYear <= currentYear then
      PriceWithinBasePrice(a.basePrice, pct);
      PriceFor(a.basePrice, pct)
    else
      PriceFor(a.basePrice, pct)
  }

  /** A book released this year with 500 pages costs its base price of 100.00. */
  lemma NewBookPriceExample(currentYear: int)
    ensures NewBook(1, "T", "P", currentYear, 10000, 500, currentYear).Success?
    ensures Price(NewBook(1, "T", "P", currentYear, 10000, 500, currentYear).value, currentYear) == Dec(10000, 2)
  {}

  /** A ten-year-old book of 1500 pages earns 30 + 3 percent: 100.00 becomes 67.00. */
  lemma OldBookPriceExample(currentYear: int)
    ensures var a := Article(1, "T", "P", currentYear - 10, 10000, Book(1500));
      DiscountPercentage(a, currentYear) == 33 && Price(a, currentYear) == Dec(6700, 2)
  {
    assert Mul(Dec(10000, 2), Dec(33, 2)) == Dec(330000, 4);
  }

  /** DVDs at 50.00: rated 12 they cost 45.00, rated 18 the full 50.00; 7 is no rating. */
  lemma DvdPriceExamples(currentYear: int)
    ensures var r := NewDvd(1, "T", "P", currentYear, 5000, 90, 12, currentYear);
      r.Success? && Price(r.value, currentYear) == Dec(4500, 2)
    ensures var r := NewDvd(1, "T", "P", currentYear, 5000, 90, 18, currentYear);
      r.Success? && Price(r.value, currentYear) == Dec(5000, 2)
    ensures NewDvd(1, "T", "P", currentYear, 5000, 90, 7, currentYear) == Failure(InvalidAgeRating)
  {
    var twelve := Article(1, "T", "P", currentYear, 5000, Dvd(90, AgesTwelveAndUp));
    assert NewDvd(1, "T", "P", currentYear, 5000, 90, 12, currentYear) == Success(twelve);
    assert DiscountPercentage(twelve, currentYear) == 10;
    assert DiscountFor(5000, 10).unscaled == 500;
    var eighteen := Article(1, "T", "P", currentYear, 5000, Dvd(90, AgesEighteenAndUp));
    assert NewDvd(1, "T", "P", currentYear, 5000, 90, 18, currentYear) == Success(eighteen);
    assert DiscountPercentage(eighteen, currentYear) == 0;
  }

  /** A release year one past the current year is refused for both variants. */
  lemma FutureYearRejected(currentYear: int)
    ensures NewBook(1, "T", "P", currentYear + 1, 100, 10, currentYear) == Failure(InvalidReleaseYear)
    ensures NewDvd(1, "T", "P", currentYear + 1, 100, 10, 0, currentYear) == Failure(InvalidReleaseYear)
  {}
}
