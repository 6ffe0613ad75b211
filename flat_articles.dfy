/**
 * The article classes of the flat `articlecli` package: an abstract Article
 * with mutable, validating setters and its two final subclasses Book and DVD.
 * One class models all three; its `part` field holds what the subclass adds.
 * The current year is a parameter wherever `Year.now()` is read.
 */
module FlatArticles {
  import opened Wrappers
  import opened Decimal
  import opened AgeRatings
  import opened JavaText
  import opened SnapshotPricing

  /** The earliest release year `setReleaseYear` accepts. */
  const EarliestReleaseYear := 1436

  /**
   * The IllegalArgumentExceptions of the setters: an invalid parameter, an
   * invalid release year ("Error: Invalid release year.") and an unknown
   * minimum age ("Error: Invalid age rating.").
   */
  datatype ArticleError = InvalidParameter | InvalidReleaseYear | InvalidAgeRating

  /** What Book and DVD add to the common fields. */
  datatype Part = BookPart(pages: int) | DvdPart(length: int, ageRating: AgeRating)

  /** The field values of one article object. */
  datatype Record = Record(id: int, title: string, releaseYear: int, publisher: string, basePrice: Dec, part: Part)

  /** `setId`: only positive ids. */
  function IdCheck(id: int): (r: Outcome<ArticleError>)
    ensures r.Pass? <==> id > 0
    ensures r.Fail? ==> r.error == InvalidParameter
  {
    if id <= 0 then Fail(InvalidParameter) else Pass
  }

  /** `setTitle` and `setPublisher`: no blank text. */
  function TextCheck(s: string): (r: Outcome<ArticleError>)
    ensures r.Pass? <==> !IsBlank(s)
    ensures r.Fail? ==> r.error == InvalidParameter
  {
    if IsBlank(s) then Fail(InvalidParameter) else Pass
  }

  /** `setReleaseYear`: from 1436 up to the current year. */
  function ReleaseYearCheck(year: int, currentYear: int): (r: Outcome<ArticleError>)
    ensures r.Pass? <==> EarliestReleaseYear <= year <= currentYear
    ensures r.Fail? ==> r.error == InvalidReleaseYear
  {
    if year < EarliestReleaseYear || year > currentYear then Fail(InvalidReleaseYear) else Pass
  }

  /** `setBasePrice`: no negative price. */
  function BasePriceCheck(basePrice: Dec): (r: Outcome<ArticleError>)
    ensures r.Pass? <==> Value(basePrice) >= 0.0
    ensures r.Fail? ==> r.error == InvalidParameter
  {
    if IsNegative(basePrice) then Fail(InvalidParameter) else Pass
  }

  /** `setPages` and `setLength`: only positive counts. */
  function CountCheck(n: int): (r: Outcome<ArticleError>)
    ensures r.Pass? <==> n > 0
    ensures r.Fail? ==> r.error == InvalidParameter
  {
    if n <= 0 then Fail(InvalidParameter) else Pass
  }

  /** The checks the Book constructor runs, in order. */
  function BookChecks(id: int, title: string, releaseYear: int, publisher: string, basePrice: Dec,
                      pages: int, currentYear: int): (r: seq<Outcome<ArticleError>>)
    ensures FirstFailure(r).Pass? <==>
      && id > 0 && !IsBlank(title) && EarliestReleaseYear <= releaseYear <= currentYear
      && !IsBlank(publisher) && Value(basePrice) >= 0.0 && pages > 0
    ensures FirstFailure(r) == Fail(InvalidReleaseYear) <==>
      id > 0 && !IsBlank(title) && !(EarliestReleaseYear <= releaseYear <= currentYear)
  {
    FirstFailureOfSix(IdCheck(id), TextCheck(title), ReleaseYearCheck(releaseYear, currentYear), TextCheck(publisher),
                      BasePriceCheck(basePrice), CountCheck(pages));
    [IdCheck(id), TextCheck(title), ReleaseYearCheck(releaseYear, currentYear), TextCheck(publisher),
     BasePriceCheck(basePrice), CountCheck(pages)]
  }

  /** The checks the DVD constructor runs, in order; its age rating is an enum value and never fails. */
  function DvdChecks(id: int, title: string, releaseYear: int, publisher: string, basePrice: Dec,
                     length: int, currentYear: int): (r: seq<Outcome<ArticleError>>)
    ensures FirstFailure(r).Pass? <==>
      && id > 0 && !IsBlank(title) && EarliestReleaseYear <= releaseYear <= currentYear
      && !IsBlank(publisher) && Value(basePrice) >= 0.0 && length > 0
    ensures FirstFailure(r) == Fail(InvalidReleaseYear) <==>
      id > 0 && !IsBlank(title) && !(EarliestReleaseYear <= releaseYear <= currentYear)
  {
    FirstFailureOfSix(IdCheck(id), TextCheck(title), ReleaseYearCheck(releaseYear, currentYear), TextCheck(publisher),
                      BasePriceCheck(basePrice), CountCheck(length));
    [IdCheck(id), TextCheck(title), ReleaseYearCheck(releaseYear, currentYear), TextCheck(publisher),
     BasePriceCheck(basePrice), CountCheck(length)]
  }

  /** What every article the constructors accept satisfies. */
  predicate ValidRecord(r: Record)
  {
    && r.id > 0 && !IsBlank(r.title) && r.releaseYear >= EarliestReleaseYear && !IsBlank(r.publisher)
    && r.basePrice.scale == 2 && r.basePrice.unscaled >= 0
    && match r.part
       case BookPart(pages) => pages > 0
       case DvdPart(length, _) => length > 0
  }

  /** A base price that passes the check is stored non-negative at scale 2. */
  lemma StoredBasePrice(basePrice: Dec)
    requires BasePriceCheck(basePrice).Pass?
    ensures SetScale(basePrice, 2).scale == 2 && SetScale(basePrice, 2).unscaled >= 0
  {
    assert basePrice.unscaled >= 0;
    if basePrice.scale <= 2 {
      assert Widen(basePrice, 2) == basePrice.unscaled * Pow10(2 - basePrice.scale);
    }
  }

  /** Arguments that pass every Book check make a valid article. */
  lemma BookChecksValid(id: int, title: string, releaseYear: int, publisher: string, basePrice: Dec,
                        pages: int, currentYear: int)
    requires FirstFailure(BookChecks(id, title, releaseYear, publisher, basePrice, pages, currentYear)).Pass?
    ensures ValidRecord(Record(id, title, releaseYear, publisher, SetScale(basePrice, 2), BookPart(pages)))
    ensures releaseYear <= currentYear
  {
    var checks := BookChecks(id, title, releaseYear, publisher, basePrice, pages, currentYear);
    assert checks[0].Pass? && checks[1].Pass? && checks[2].Pass? && checks[3].Pass? && checks[4].Pass? && checks[5].Pass?;
    StoredBasePrice(basePrice);
  }

  /** Arguments that pass every DVD check make a valid article. */
  lemma DvdChecksValid(id: int, title: string, releaseYear: int, publisher: string, basePrice: Dec,
                       length: int, rating: AgeRating, currentYear: int)
    requires FirstFailure(DvdChecks(id, title, releaseYear, publisher, basePrice, length, currentYear)).Pass?
    ensures ValidRecord(Record(id, title, releaseYear, publisher, SetScale(basePrice, 2), DvdPart(length, rating)))
    ensures releaseYear <= currentYear
  {
    var checks := DvdChecks(id, title, releaseYear, publisher, basePrice, length, currentYear);
    assert checks[0].Pass? && checks[1].Pass? && checks[2].Pass? && checks[3].Pass? && checks[4].Pass? && checks[5].Pass?;
    StoredBasePrice(basePrice);
  }

  /** The discount percentage of an article's variant. */
  function PercentageOf(part: Part, age: int): (p: int)
    ensures part.BookPart? ==> p == BookPercentage(part.pages, age)
    ensures part.DvdPart? ==> p == DiscountPercentage(part.ageRating)
  {
    match part
    case BookPart(pages) => BookPercentage(pages, age)
    case DvdPart(_, rating) => DiscountPercentage(rating)
  }

  /** `getPrice()` of the field values: the fraction rounds to 0, 1, 2, ... of the base price. */
  function PriceOf(r: Record, currentYear: int): (p: Dec)
    ensures p.scale == 2
    ensures r.basePrice.scale == 2 ==>
      p == Dec(r.basePrice.unscaled * (1 - RoundHalfUp(PercentageOf(r.part, currentYear - r.releaseYear), 100)), 2)
  {
    RescaledPriceAt(r.basePrice, PercentageOf(r.part, currentYear - r.releaseYear))
  }

  /** A valid DVD always sells at its base price. */
  lemma DvdSellsAtBasePrice(r: Record, currentYear: int)
    requires ValidRecord(r) && r.part.DvdPart?
    ensures PriceOf(r, currentYear) == r.basePrice
  {
    DvdPrice(r.basePrice.unscaled, r.part.ageRating);
  }

  /** A valid book sells at its base price up to nine years, for 0.00 from ten to twenty-nine years. */
  lemma BookPriceByAge(r: Record, currentYear: int)
    requires ValidRecord(r) && r.part.BookPart?
    ensures 0 <= currentYear - r.releaseYear <= 9 ==> PriceOf(r, currentYear) == r.basePrice
    ensures 10 <= currentYear - r.releaseYear <= 29 ==> PriceOf(r, currentYear) == Dec(0, 2)
    ensures 30 <= currentYear - r.releaseYear <= 49 ==> PriceOf(r, currentYear) == Dec(-r.basePrice.unscaled, 2)
  {
    var age := currentYear - r.releaseYear;
    if 0 <= age <= 9 { YoungBookPrice(r.basePrice.unscaled, r.part.pages, age); }
    if 10 <= age <= 29 { MiddleAgedBookPrice(r.basePrice.unscaled, r.part.pages, age); }
    if 30 <= age <= 49 { OldBookPrice(r.basePrice.unscaled, r.part.pages, age); }
  }

  class Article {
    var id: int
    var title: string
    var releaseYear: int
    var publisher: string
    var basePrice: Dec
    var part: Part

    /** The object before the constructor's setters run: Java's default field values. */
    constructor Blank(part: Part)
      ensures Fields() == Record(0, "", 0, "", Zero, part)
    {
      id := 0;
      title := "";
      releaseYear := 0;
      publisher := "";
      basePrice := Zero;
      this.part := part;
    }

    /** An object holding the given field values, as reading one back from a file gives. */
    constructor FromRecord(r: Record)
      ensures Fields() == r
    {
      id := r.id;
      title := r.title;
      releaseYear := r.releaseYear;
      publisher := r.publisher;
      basePrice := r.basePrice;
      part := r.part;
    }

    function Fields(): (r: Record)
      reads this
      ensures r.id == id && r.title == title && r.releaseYear == releaseYear
      ensures r.publisher == publisher && r.basePrice == basePrice && r.part == part
    {
      Record(id, title, releaseYear, publisher, basePrice, part)
    }

    method SetId(newId: int) returns (r: Outcome<ArticleError>)
      modifies this`id
      ensures r == IdCheck(newId)
      ensures id == if r.Pass? then newId else old(id)
    {
      r := IdCheck(newId);
      if r.Pass? { id := newId; }
    }

    method SetTitle(newTitle: string) returns (r: Outcome<ArticleError>)
      modifies this`title
      ensures r == TextCheck(newTitle)
      ensures title == if r.Pass? then newTitle else old(title)
    {
      r := TextCheck(newTitle);
      if r.Pass? { title := newTitle; }
    }

    method SetReleaseYear(newYear: int, currentYear: int) returns (r: Outcome<ArticleError>)
      modifies this`releaseYear
      ensures r == ReleaseYearCheck(newYear, currentYear)
      ensures releaseYear == if r.Pass? then newYear else old(releaseYear)
    {
      r := ReleaseYearCheck(newYear, currentYear);
      if r.Pass? { releaseYear := newYear; }
    }

    method SetPublisher(newPublisher: string) returns (r: Outcome<ArticleError>)
      modifies this`publisher
      ensures r == TextCheck(newPublisher)
      ensures publisher == if r.Pass? then newPublisher else old(publisher)
    {
      r := TextCheck(newPublisher);
      if r.Pass? { publisher := newPublisher; }
    }

    /** `setBasePrice`: a non-negative price is stored rounded half-up to cents. */
    method SetBasePrice(newPrice: Dec) returns (r: Outcome<ArticleError>)
      modifies this`basePrice
      ensures r == BasePriceCheck(newPrice)
      ensures basePrice == if r.Pass? then SetScale(newPrice, 2) else old(basePrice)
    {
      r := BasePriceCheck(newPrice);
      if r.Pass? { basePrice := SetScale(newPrice, 2); }
    }

    /** `Book.setPages`. */
    method SetPages(pages: int) returns (r: Outcome<ArticleError>)
      requires part.BookPart?
      modifies this`part
      ensures r == CountCheck(pages)
      ensures part == if r.Pass? then BookPart(pages) else old(part)
    {
      r := CountCheck(pages);
      if r.Pass? { part := BookPart(pages); }
    }

    /** `DVD.setLength`. */
    method SetLength(length: int) returns (r: Outcome<ArticleError>)
      requires part.DvdPart?
      modifies this`part
      ensures r == CountCheck(length)
      ensures part == if r.Pass? then DvdPart(length, old(part.ageRating)) else old(part)
    {
      r := CountCheck(length);
      if r.Pass? { part := DvdPart(length, part.ageRating); }
    }

    /** `DVD.setAgeRating(AgeRating)`. */
    method SetAgeRating(rating: AgeRating)
      requires part.DvdPart?
      modifies this`part
      ensures part == DvdPart(old(part.length), rating)
    {
      part := DvdPart(part.length, rating);
    }

    /** `DVD.setAgeRating(int)`: the lookup throws before anything is stored. */
    method SetAgeRatingByMinAge(minAge: int) returns (r: Outcome<ArticleError>)
      requires part.DvdPart?
      modifies this`part
      ensures r.Pass? <==> ByMinAge(minAge).Some?
      ensures r.Fail? ==> r.error == InvalidAgeRating && part == old(part)
      ensures r.Pass? ==> part == DvdPart(old(part.length), ByMinAge(minAge).value) && MinAge(part.ageRating) == minAge
    {
      var rating := ByMinAge(minAge);
      if rating.None? {
        return Fail(InvalidAgeRating);
      }
      part := DvdPart(part.length, rating.value);
      r := Pass;
    }

    function GetAge(currentYear: int): (age: int)
      reads this
      ensures releaseYear <= currentYear ==> age >= 0
      ensures releaseYear + age == currentYear
    {
      currentYear - releaseYear
    }

    function GetDiscount(currentYear: int): (d: Dec)
      reads this
      ensures d.scale == 2
      ensures basePrice.scale == 2 ==> d == Dec(basePrice.unscaled * RoundHalfUp(PercentageOf(part, GetAge(currentYear)), 100), 2)
    {
      DiscountAt(basePrice, PercentageOf(part, GetAge(currentYear)))
    }

    function GetPrice(currentYear: int): (p: Dec)
      reads this
      ensures p == PriceOf(Fields(), currentYear)
      ensures ValidRecord(Fields()) && part.DvdPart? ==> p == basePrice
    {
      if ValidRecord(Fields()) && part.DvdPart? then
        DvdSellsAtBasePrice(Fields(), currentYear);
        RescaledPriceAt(basePrice, PercentageOf(part, GetAge(currentYear)))
      else RescaledPriceAt(basePrice, PercentageOf(part, GetAge(currentYear)))
    }

    /**
     * `new Book(...)`: the setters run in constructor order and the first
     * exception escapes; a constructed book holds the checked values.
     */
    static method NewBook(id: int, title: string, releaseYear: int, publisher: string, basePrice: Dec,
                          pages: int, currentYear: int) returns (r: Result<Article, ArticleError>)
      ensures var checks := BookChecks(id, title, releaseYear, publisher, basePrice, pages, currentYear);
        && (r.Failure? <==> FirstFailure(checks).Fail?)
        && (r.Failure? ==> r.error == FirstFailure(checks).error)
      ensures r.Success? ==>
        && fresh(r.value)
        && r.value.Fields() == Record(id, title, releaseYear, publisher, SetScale(basePrice, 2), BookPart(pages))
        && ValidRecord(r.value.Fields())
    {
      ghost var checks := BookChecks(id, title, releaseYear, publisher, basePrice, pages, currentYear);
      var a := new Article.Blank(BookPart(0));
      var o := a.SetId(id);
      if o.Fail? { assert checks[0] == o; return Failure(o.error); }
      o := a.SetTitle(title);
      if o.Fail? { assert checks[1] == o; return Failure(o.error); }
      o := a.SetReleaseYear(releaseYear, currentYear);
      if o.Fail? { assert checks[2] == o; return Failure(o.error); }
      o := a.SetPublisher(publisher);
      if o.Fail? { assert checks[3] == o; return Failure(o.error); }
      o := a.SetBasePrice(basePrice);
      if o.Fail? { assert checks[4] == o; return Failure(o.error); }
      o := a.SetPages(pages);
      if o.Fail? { assert checks[5] == o; return Failure(o.error); }
      BookChecksValid(id, title, releaseYear, publisher, basePrice, pages, currentYear);
      r := Success(a);
    }

    /** `new DVD(...)`: the same, with the length checked last and the rating stored as given. */
    static method NewDvd(id: int, title: string, releaseYear: int, publisher: string, basePrice: Dec,
                         length: int, rating: AgeRating, currentYear: int) returns (r: Result<Article, ArticleError>)
      ensures var checks := DvdChecks(id, title, releaseYear, publisher, basePrice, length, currentYear);
        && (r.Failure? <==> FirstFailure(checks).Fail?)
        && (r.Failure? ==> r.error == FirstFailure(checks).error)
      ensures r.Success? ==>
        && fresh(r.value)
        && r.value.Fields() == Record(id, title, releaseYear, publisher, SetScale(basePrice, 2), DvdPart(length, rating))
        && ValidRecord(r.value.Fields())
    {
      ghost var checks := DvdChecks(id, title, releaseYear, publisher, basePrice, length, currentYear);
      var a := new Article.Blank(DvdPart(0, NoAgeRestriction));
      var o := a.SetId(id);
      if o.Fail? { assert checks[0] == o; return Failure(o.error); }
      o := a.SetTitle(title);
      if o.Fail? { assert checks[1] == o; return Failure(o.error); }
      o := a.SetReleaseYear(releaseYear, currentYear);
      if o.Fail? { assert checks[2] == o; return Failure(o.error); }
      o := a.SetPublisher(publisher);
      if o.Fail? { assert checks[3] == o; return Failure(o.error); }
      o := a.SetBasePrice(basePrice);
      if o.Fail? { assert checks[4] == o; return Failure(o.error); }
      o := a.SetLength(length);
      if o.Fail? { assert checks[5] == o; return Failure(o.error); }
      a.SetAgeRating(rating);
      DvdChecksValid(id, title, releaseYear, publisher, basePrice, length, rating, currentYear);
      r := Success(a);
    }
  }
}
