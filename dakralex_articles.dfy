/**
 * The article classes of `org.dakralex.plcarticlemgmt`: contracts.Article,
 * articles.Book and articles.DVD. Unlike the `articlecli` classes, the base
 * price is stored exactly as given, the price is not rounded to cents, and
 * the title and publisher setters refuse only the empty string.
 */
module DakralexArticles {
  import opened Wrappers
  import opened Decimal
  import opened AgeRatings
  import opened JavaText
  import opened SnapshotPricing

  /** The IllegalArgumentExceptions of the setters, one per message. */
  datatype ArticleError =
    | IdNotPositive
    | EmptyTitle
    | InvalidReleaseYear
    | EmptyPublisher
    | NegativeBasePrice
    | InvalidParameter

  function Message(e: ArticleError): string
  {
    match e
    case IdNotPositive => "The id must be positive."
    case EmptyTitle => "The title must not be empty."
    case InvalidReleaseYear => "The release year is either in the future or otherwise invalid"
    case EmptyPublisher => "The publisher must not be empty."
    case NegativeBasePrice => "The base price must be positive"
    case InvalidParameter => "Error: Invalid parameter."
  }

  datatype Part = BookPart(pages: int) | DvdPart(length: int, ageRating: AgeRating)

  datatype Record = Record(id: int, title: string, releaseYear: int, publisher: string, basePrice: Dec, part: Part)

  function IdCheck(id: int): (r: Outcome<ArticleError>)
    ensures r.Pass? <==> id > 0
    ensures r.Fail? ==> r.error == IdNotPositive
  {
    if id > 0 then Pass else Fail(IdNotPositive)
  }

  /**
   * `setTitle` and `setPublisher` store the text unless it is both empty and
   * blank; an empty string is always blank, so only "" is refused.
   */
  function TextCheck(s: string, error: ArticleError): (r: Outcome<ArticleError>)
    ensures r.Pass? <==> s != ""
    ensures r.Fail? ==> r.error == error
  {
    if !(|s| == 0 && IsBlank(s)) then Pass else Fail(error)
  }

  /** A title of spaces only is accepted. */
  lemma BlankTitleAccepted()
    ensures TextCheck(" ", EmptyTitle) == Pass
    ensures IsBlank(" ")
  {
    EmptyIsBlank();
  }

  function ReleaseYearCheck(year: int, currentYear: int): (r: Outcome<ArticleError>)
    ensures r.Pass? <==> 1 <= year <= currentYear
    ensures r.Fail? ==> r.error == InvalidReleaseYear
  {
    if year > 0 && year <= currentYear then Pass else Fail(InvalidReleaseYear)
  }

  /** `setBasePrice`: zero or more, kept at its own scale. */
  function BasePriceCheck(basePrice: Dec): (r: Outcome<ArticleError>)
    ensures r.Pass? <==> Value(basePrice) >= 0.0
    ensures r.Fail? ==> r.error == NegativeBasePrice
  {
    if !IsNegative(basePrice) then Pass else Fail(NegativeBasePrice)
  }

  /** `setPages` and `setLength`. */
  function CountCheck(n: int): (r: Outcome<ArticleError>)
    ensures r.Pass? <==> n > 0
    ensures r.Fail? ==> r.error == InvalidParameter
  {
    if n <= 0 then Fail(InvalidParameter) else Pass
  }

  /** The checks the Book and DVD constructors run, in order; the last is the pages or the length. */
  function ConstructorChecks(id: int, title: string, releaseYear: int, publisher: string, basePrice: Dec,
                             count: int, currentYear: int): (r: seq<Outcome<ArticleError>>)
    ensures FirstFailure(r).Pass? <==>
      && id > 0 && title != "" && 1 <= releaseYear <= currentYear
      && publisher != "" && Value(basePrice) >= 0.0 && count > 0
    ensures FirstFailure(r) == Fail(IdNotPositive) <==> id <= 0
    ensures FirstFailure(r) == Fail(EmptyTitle) <==> id > 0 && title == ""
    ensures FirstFailure(r) == Fail(InvalidReleaseYear) <==>
      id > 0 && title != "" && !(1 <= releaseYear <= currentYear)
    ensures FirstFailure(r) == Fail(EmptyPublisher) <==>
      id > 0 && title != "" && 1 <= releaseYear <= currentYear && publisher == ""
    ensures FirstFailure(r) == Fail(NegativeBasePrice) <==>
      id > 0 && title != "" && 1 <= releaseYear <= currentYear && publisher != "" && Value(basePrice) < 0.0
    ensures FirstFailure(r) == Fail(InvalidParameter) <==>
      && id > 0 && title != "" && 1 <= releaseYear <= currentYear && publisher != ""
      && Value(basePrice) >= 0.0 && count <= 0
  {
    FirstFailureOfSix(IdCheck(id), TextCheck(title, EmptyTitle), ReleaseYearCheck(releaseYear, currentYear),
                      TextCheck(publisher, EmptyPublisher), BasePriceCheck(basePrice), CountCheck(count));
    [IdCheck(id), TextCheck(title, EmptyTitle), ReleaseYearCheck(releaseYear, currentYear),
     TextCheck(publisher, EmptyPublisher), BasePriceCheck(basePrice), CountCheck(count)]
  }

  /** So a DVD's price is its base price written at the larger scale. */
  lemma DvdPriceWidened(basePrice: Dec, rating: AgeRating)
    ensures Sub(basePrice, DiscountAt(basePrice, DiscountPercentage(rating)))
      == Dec(Widen(basePrice, Max(basePrice.scale, 2)), Max(basePrice.scale, 2))
  {
    DvdDiscountZero(basePrice, rating);
    SubZero(basePrice, 2);
  }

  /**
   * `getPrice()` of the field values: `basePrice.subtract(getDiscount())`,
   * at the larger of the base price's scale and the discount's scale 2.
   */
  function PriceOf(r: Record, currentYear: int): (p: Dec)
    ensures p.scale == Max(r.basePrice.scale, 2)
    ensures r.part.DvdPart? ==> p == Dec(Widen(r.basePrice, Max(r.basePrice.scale, 2)), Max(r.basePrice.scale, 2))
    ensures r.part.DvdPart? ==> Value(p) == Value(r.basePrice)
    ensures r.part.BookPart? && r.basePrice.scale == 2 ==>
      p == Dec(r.basePrice.unscaled * (1 - RoundHalfUp(BookPercentage(r.part.pages, currentYear - r.releaseYear), 100)), 2)
  {
    match r.part
    case BookPart(pages) =>
      var pct := BookPercentage(pages, currentYear - r.releaseYear);
      if r.basePrice.scale == 2 then PriceAtCents(r.basePrice, pct); Sub(r.basePrice, DiscountAt(r.basePrice, pct))
      else Sub(r.basePrice, DiscountAt(r.basePrice, pct))
    case DvdPart(_, rating) =>
      DvdPriceWidened(r.basePrice, rating);
      Sub(r.basePrice, DiscountAt(r.basePrice, DiscountPercentage(rating)))
  }

  class Article {
    var id: int
    var title: string
    var releaseYear: int
    var publisher: string
    var basePrice: Dec
    var part: Part

    constructor Blank(part: Part)
      ensures Fields() == Record(0, "", 0, "", Zero, part)
    {
      id := 0;
      title := "";
      releaseYear := 0;
      publisher := "";
      basePrice := Zero;
      this.part := part;
    }

    function Fields(): (r: Record)
      reads this
      ensures r.id == id && r.title == title && r.releaseYear == releaseYear
      ensures r.publisher == publisher && r.basePrice == basePrice && r.part == part
    {
      Record(id, title, releaseYear, publisher, basePrice, part)
    }

    method SetId(newId: int) returns (r: Outcome<ArticleError>)
      modifies this`id
      ensures r == IdCheck(newId)
      ensures id == if r.Pass? then newId else old(id)
    {
      r := IdCheck(newId);
      if r.Pass? { id := newId; }
    }

    method SetTitle(newTitle: string) returns (r: Outcome<ArticleError>)
      modifies this`title
      ensures r == TextCheck(newTitle, EmptyTitle)
      ensures title == if r.Pass? then newTitle else old(title)
    {
      r := TextCheck(newTitle, EmptyTitle);
      if r.Pass? { title := newTitle; }
    }

    method SetReleaseYear(newYear: int, currentYear: int) returns (r: Outcome<ArticleError>)
      modifies this`releaseYear
      ensures r == ReleaseYearCheck(newYear, currentYear)
      ensures releaseYear == if r.Pass? then newYear else old(releaseYear)
    {
      r := ReleaseYearCheck(newYear, currentYear);
      if r.Pass? { releaseYear := newYear; }
    }

    method SetPublisher(newPublisher: string) returns (r: Outcome<ArticleError>)
      modifies this`publisher
      ensures r == TextCheck(newPublisher, EmptyPublisher)
      ensures publisher == if r.Pass? then newPublisher else old(publisher)
    {
      r := TextCheck(newPublisher, EmptyPublisher);
      if r.Pass? { publisher := newPublisher; }
    }

    /** `setBasePrice`: stored as given, without rounding. */
    method SetBasePrice(newPrice: Dec) returns (r: Outcome<ArticleError>)
      modifies this`basePrice
      ensures r == BasePriceCheck(newPrice)
      ensures basePrice == if r.Pass? then newPrice else old(basePrice)
    {
      r := BasePriceCheck(newPrice);
      if r.Pass? { basePrice := newPrice; }
    }

    method SetPages(pages: int) returns (r: Outcome<ArticleError>)
      requires part.BookPart?
      modifies this`part
      ensures r == CountCheck(pages)
      ensures part == if r.Pass? then BookPart(pages) else old(part)
    {
      r := CountCheck(pages);
      if r.Pass? { part := BookPart(pages); }
    }

    method SetLength(length: int) returns (r: Outcome<ArticleError>)
      requires part.DvdPart?
      modifies this`part
      ensures r == CountCheck(length)
      ensures part == if r.Pass? then DvdPart(length, old(part.ageRating)) else old(part)
    {
      r := CountCheck(length);
      if r.Pass? { part := DvdPart(length, part.ageRating); }
    }

    method SetAgeRating(rating: AgeRating)
      requires part.DvdPart?
      modifies this`part
      ensures part == DvdPart(old(part.length), rating)
    {
      part := DvdPart(part.length, rating);
    }

    function GetAge(currentYear: int): (age: int)
      reads this
      ensures releaseYear <= currentYear ==> age >= 0
      ensures releaseYear + age == currentYear
    {
      currentYear - releaseYear
    }

    function GetPrice(currentYear: int): (p: Dec)
      reads this
      ensures p == PriceOf(Fields(), currentYear)
    {
      PriceOf(Fields(), currentYear)
    }

    /** `new Book(...)`: the setters run in constructor order and the first exception escapes. */
    static method NewBook(id: int, title: string, releaseYear: int, publisher: string, basePrice: Dec,
                          pages: int, currentYear: int) returns (r: Result<Article, ArticleError>)
      ensures var checks := ConstructorChecks(id, title, releaseYear, publisher, basePrice, pages, currentYear);
        && (r.Failure? <==> FirstFailure(checks).Fail?)
        && (r.Failure? ==> r.error == FirstFailure(checks).error)
      ensures r.Success? ==>
        && fresh(r.value)
        && r.value.Fields() == Record(id, title, releaseYear, publisher, basePrice, BookPart(pages))
    {
      ghost var checks := ConstructorChecks(id, title, releaseYear, publisher, basePrice, pages, currentYear);
      var a := new Article.Blank(BookPart(0));
      var o := a.SetId(id);
      if o.Fail? { assert checks[0] == o; return Failure(o.error); }
      o := a.SetTitle(title);
      if o.Fail? { assert checks[1] == o; return Failure(o.error); }
      o := a.SetReleaseYear(releaseYear, currentYear);
      if o.Fail? { assert checks[2] == o; return Failure(o.error); }
      o := a.SetPublisher(publisher);
      if o.Fail? { assert checks[3] == o; return Failure(o.error); }
      o := a.SetBasePrice(basePrice);
      if o.Fail? { assert checks[4] == o; return Failure(o.error); }
      o := a.SetPages(pages);
      if o.Fail? { assert checks[5] == o; return Failure(o.error); }
      r := Success(a);
    }

    /** `new DVD(...)`: likewise, with the length checked last and the rating stored as given. */
    static method NewDvd(id: int, title: string, releaseYear: int, publisher: string, basePrice: Dec,
                         length: int, rating: AgeRating, currentYear: int) returns (r: Result<Article, ArticleError>)
      ensures var checks := ConstructorChecks(id, title, releaseYear, publisher, basePrice, length, currentYear);
        && (r.Failure? <==> FirstFailure(checks).Fail?)
        && (r.Failure? ==> r.error == FirstFailure(checks).error)
      ensures r.Success? ==>
        && fresh(r.value)
        && r.value.Fields() == Record(id, title, releaseYear, publisher, basePrice, DvdPart(length, rating))
    {
      ghost var checks := ConstructorChecks(id, title, releaseYear, publisher, basePrice, length, currentYear);
      var a := new Article.Blank(DvdPart(0, NoAgeRestriction));
      var o := a.SetId(id);
      if o.Fail? { assert checks[0] == o; return Failure(o.error); }
      o := a.SetTitle(title);
      if o.Fail? { assert checks[1] == o; return Failure(o.error); }
      o := a.SetReleaseYear(releaseYear, currentYear);
      if o.Fail? { assert checks[2] == o; return Failure(o.error); }
      o := a.SetPublisher(publisher);
      if o.Fail? { assert checks[3] == o; return Failure(o.error); }
      o := a.SetBasePrice(basePrice);
      if o.Fail? { assert checks[4] == o; return Failure(o.error); }
      o := a.SetLength(length);
      if o.Fail? { assert checks[5] == o; return Failure(o.error); }
      a.SetAgeRating(rating);
      r := Success(a);
    }
  }
}
