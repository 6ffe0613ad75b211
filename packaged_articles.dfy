/**
 * The article classes of the `articlecli` package split: the abstract
 * contracts.Article and articles.DVD. The Book subclass that completes the
 * split is not part of this model; a book is represented by the discount its
 * `getDiscount()` returns. One class models the abstract class and its
 * subclasses; its `part` field holds what the subclass adds.
 */
module PackagedArticles {
  import opened Wrappers
  import opened Decimal
  import opened AgeRatings
  import opened JavaText
  import opened SnapshotPricing

  /** The IllegalArgumentExceptions of the setters. */
  datatype ArticleError = InvalidParameter | InvalidReleaseYear | InvalidAgeRating

  function Message(e: ArticleError): string
  {
    match e
    case InvalidParameter => "Error: Invalid parameter."
    case InvalidReleaseYear => "Error: Invalid release year."
    case InvalidAgeRating => "Error: Invalid age rating."
  }

  /** What the subclass adds: a book's discount, or a DVD's length and rating. */
  datatype Part = BookPart(discount: Dec) | DvdPart(length: int, ageRating: AgeRating)

  /** The field values of one article object. */
  datatype Record = Record(id: int, title: string, releaseYear: int, publisher: string, basePrice: Dec, part: Part)

  function IdCheck(id: int): (r: Outcome<ArticleError>)
    ensures r.Pass? <==> id > 0
    ensures r.Fail? ==> r.error == InvalidParameter
  {
    if id <= 0 then Fail(InvalidParameter) else Pass
  }

  /** `setTitle` and `setPublisher`: `isEmpty() || isBlank()` is refused, which is `isBlank()`. */
  function TextCheck(s: string): (r: Outcome<ArticleError>)
    ensures r.Pass? <==> !IsBlank(s)
    ensures r.Fail? ==> r.error == InvalidParameter
  {
    if |s| == 0 || IsBlank(s) then Fail(InvalidParameter) else Pass
  }

  /** `setReleaseYear`: any positive year up to the current one. */
  function ReleaseYearCheck(year: int, currentYear: int): (r: Outcome<ArticleError>)
    ensures r.Pass? <==> 1 <= year <= currentYear
    ensures r.Fail? ==> r.error == InvalidReleaseYear
  {
    if year <= 0 || year > currentYear then Fail(InvalidReleaseYear) else Pass
  }

  function BasePriceCheck(basePrice: Dec): (r: Outcome<ArticleError>)
    ensures r.Pass? <==> Value(basePrice) >= 0.0
    ensures r.Fail? ==> r.error == InvalidParameter
  {
    if IsNegative(basePrice) then Fail(InvalidParameter) else Pass
  }

  /** `setLength`: only positive lengths. */
  function LengthCheck(length: int): (r: Outcome<ArticleError>)
    ensures r.Pass? <==> length > 0
    ensures r.Fail? ==> r.error == InvalidParameter
  {
    if length <= 0 then Fail(InvalidParameter) else Pass
  }

  /** The checks the DVD constructor runs, in order. */
  function DvdChecks(id: int, title: string, releaseYear: int, publisher: string, basePrice: Dec,
                     length: int, currentYear: int): (r: seq<Outcome<ArticleError>>)
    ensures FirstFailure(r).Pass? <==>
      && id > 0 && !IsBlank(title) && 1 <= releaseYear <= currentYear
      && !IsBlank(publisher) && Value(basePrice) >= 0.0 && length > 0
    ensures FirstFailure(r) == Fail(InvalidReleaseYear) <==>
      id > 0 && !IsBlank(title) && !(1 <= releaseYear <= currentYear)
  {
    FirstFailureOfSix(IdCheck(id), TextCheck(title), ReleaseYearCheck(releaseYear, currentYear), TextCheck(publisher),
                      BasePriceCheck(basePrice), LengthCheck(length));
    [IdCheck(id), TextCheck(title), ReleaseYearCheck(releaseYear, currentYear), TextCheck(publisher),
     BasePriceCheck(basePrice), LengthCheck(length)]
  }

  /** `getPrice()` of the field values. */
  function PriceOf(r: Record): (p: Dec)
    ensures p.scale == 2
    ensures r.part.DvdPart? && r.basePrice.scale == 2 ==> p == r.basePrice
    ensures r.part.BookPart? && r.basePrice.scale == 2 && r.part.discount.scale <= 2 ==>
      Value(p) == Value(r.basePrice) - Value(r.part.discount)
  {
    match r.part
    case BookPart(discount) => SetScale(Sub(r.basePrice, discount), 2)
    case DvdPart(_, rating) =>
      if r.basePrice.scale == 2 then DvdPrice(r.basePrice.unscaled, rating); RescaledPriceAt(r.basePrice, DiscountPercentage(rating))
      else RescaledPriceAt(r.basePrice, DiscountPercentage(rating))
  }

  class Article {
    var id: int
    var title: string
    var releaseYear: int
    var publisher: string
    var basePrice: Dec
    var part: Part

    constructor Blank(part: Part)
      ensures Fields() == Record(0, "", 0, "", Zero, part)
    {
      id := 0;
      title := "";
      releaseYear := 0;
      publisher := "";
      basePrice := Zero;
      this.part := part;
    }

    constructor FromRecord(r: Record)
      ensures Fields() == r
    {
      id := r.id;
      title := r.title;
      releaseYear := r.releaseYear;
      publisher := r.publisher;
      basePrice := r.basePrice;
      part := r.part;
    }

    function Fields(): (r: Record)
      reads this
      ensures r.id == id && r.title == title && r.releaseYear == releaseYear
      ensures r.publisher == publisher && r.basePrice == basePrice && r.part == part
    {
      Record(id, title, releaseYear, publisher, basePrice, part)
    }

    method SetId(newId: int) returns (r: Outcome<ArticleError>)
      modifies this`id
      ensures r == IdCheck(newId)
      ensures id == if r.Pass? then newId else old(id)
    {
      r := IdCheck(newId);
      if r.Pass? { id := newId; }
    }

    method SetTitle(newTitle: string) returns (r: Outcome<ArticleError>)
      modifies this`title
      ensures r == TextCheck(newTitle)
      ensures title == if r.Pass? then newTitle else old(title)
    {
      r := TextCheck(newTitle);
      if r.Pass? { title := newTitle; }
    }

    method SetReleaseYear(newYear: int, currentYear: int) returns (r: Outcome<ArticleError>)
      modifies this`releaseYear
      ensures r == ReleaseYearCheck(newYear, currentYear)
      ensures releaseYear == if r.Pass? then newYear else old(releaseYear)
    {
      r := ReleaseYearCheck(newYear, currentYear);
      if r.Pass? { releaseYear := newYear; }
    }

    method SetPublisher(newPublisher: string) returns (r: Outcome<ArticleError>)
      modifies this`publisher
      ensures r == TextCheck(newPublisher)
      ensures publisher == if r.Pass? then newPublisher else old(publisher)
    {
      r := TextCheck(newPublisher);
      if r.Pass? { publisher := newPublisher; }
    }

    /** `setBasePrice`: a non-negative price is stored rounded half-up to cents. */
    method SetBasePrice(newPrice: Dec) returns (r: Outcome<ArticleError>)
      modifies this`basePrice
      ensures r == BasePriceCheck(newPrice)
      ensures basePrice == if r.Pass? then SetScale(newPrice, 2) else old(basePrice)
    {
      r := BasePriceCheck(newPrice);
      if r.Pass? { basePrice := SetScale(newPrice, 2); }
    }

    /** `DVD.setLength`. */
    method SetLength(length: int) returns (r: Outcome<ArticleError>)
      requires part.DvdPart?
      modifies this`part
      ensures r == LengthCheck(length)
      ensures part == if r.Pass? then DvdPart(length, old(part.ageRating)) else old(part)
    {
      r := LengthCheck(length);
      if r.Pass? { part := DvdPart(length, part.ageRating); }
    }

    /** `DVD.setAgeRating(AgeRating)`. */
    method SetAgeRating(rating: AgeRating)
      requires part.DvdPart?
      modifies this`part
      ensures part == DvdPart(old(part.length), rating)
    {
      part := DvdPart(part.length, rating);
    }

    /** `DVD.setAgeRating(int)`: the lookup throws before anything is stored. */
    method SetAgeRatingByMinAge(minAge: int) returns (r: Outcome<ArticleError>)
      requires part.DvdPart?
      modifies this`part
      ensures r.Pass? <==> ByMinAge(minAge).Some?
      ensures r.Fail? ==> r.error == InvalidAgeRating && part == old(part)
      ensures r.Pass? ==> part == DvdPart(old(part.length), ByMinAge(minAge).value) && MinAge(part.ageRating) == minAge
    {
      var rating := ByMinAge(minAge);
      if rating.None? {
        return Fail(InvalidAgeRating);
      }
      part := DvdPart(part.length, rating.value);
      r := Pass;
    }

    function GetAge(currentYear: int): (age: int)
      reads this
      ensures releaseYear <= currentYear ==> age >= 0
      ensures releaseYear + age == currentYear
    {
      currentYear - releaseYear
    }

    /** `getDiscount()`: a book's own, and for a DVD the whole-number fraction rule. */
    function GetDiscount(): (d: Dec)
      reads this
      ensures part.BookPart? ==> d == part.discount
      ensures part.DvdPart? ==> d == Dec(0, 2)
    {
      match part
      case BookPart(discount) => discount
      case DvdPart(_, rating) => DvdDiscountZero(basePrice, rating); DiscountAt(basePrice, DiscountPercentage(rating))
    }

    function GetPrice(): (p: Dec)
      reads this
      ensures p == PriceOf(Fields())
    {
      SetScale(Sub(basePrice, GetDiscount()), 2)
    }

    /** `new DVD(...)`: the setters run in constructor order and the first exception escapes. */
    static method NewDvd(id: int, title: string, releaseYear: int, publisher: string, basePrice: Dec,
                         length: int, rating: AgeRating, currentYear: int) returns (r: Result<Article, ArticleError>)
      ensures var checks := DvdChecks(id, title, releaseYear, publisher, basePrice, length, currentYear);
        && (r.Failure? <==> FirstFailure(checks).Fail?)
        && (r.Failure? ==> r.error == FirstFailure(checks).error)
      ensures r.Success? ==>
        && fresh(r.value)
        && r.value.Fields() == Record(id, title, releaseYear, publisher, SetScale(basePrice, 2), DvdPart(length, rating))
    {
      ghost var checks := DvdChecks(id, title, releaseYear, publisher, basePrice, length, currentYear);
      var a := new Article.Blank(DvdPart(0, NoAgeRestriction));
      var o := a.SetId(id);
      if o.Fail? { assert checks[0] == o; return Failure(o.error); }
      o := a.SetTitle(title);
      if o.Fail? { assert checks[1] == o; return Failure(o.error); }
      o := a.SetReleaseYear(releaseYear, currentYear);
      if o.Fail? { assert checks[2] == o; return Failure(o.error); }
      o := a.SetPublisher(publisher);
      if o.Fail? { assert checks[3] == o; return Failure(o.error); }
      o := a.SetBasePrice(basePrice);
      if o.Fail? { assert checks[4] == o; return Failure(o.error); }
      o := a.SetLength(length);
      if o.Fail? { assert checks[5] == o; return Failure(o.error); }
      a.SetAgeRating(rating);
      r := Success(a);
    }
  }
}
