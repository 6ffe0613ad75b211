/**
 * ArticleManagement of the default-package revision: the service that
 * forwards to a store and answers the statistics queries over its list.
 * Each query is a function of the list; the class applies it to the list
 * its store holds.
 */
module CatalogueQueries {
  import opened Wrappers
  import opened Decimal
  import opened Catalogue
  import opened CatalogueStore

  /** ArithmeticException from a division by zero; NoSuchElementException from an empty reduction. */
  datatype QueryError = DivisionByZero | NoSuchElement

  /** The books of the list, in list order. */
  function Books(list: seq<Article>): (r: seq<Article>)
    ensures |r| <= |list|
    ensures forall a :: a in r <==> a in list && a.variant.Book?
  {
    if list == [] then []
    else
      assert forall a :: a in list <==> a == list[0] || a in list[1..];
      (if list[0].variant.Book? then [list[0]] else []) + Books(list[1..])
  }

  /** The DVDs of the list, in list order. */
  function Dvds(list: seq<Article>): (r: seq<Article>)
    ensures |r| <= |list|
    ensures forall a :: a in r <==> a in list && a.variant.Dvd?
  {
    if list == [] then []
    else
      assert forall a :: a in list <==> a == list[0] || a in list[1..];
      (if list[0].variant.Dvd? then [list[0]] else []) + Dvds(list[1..])
  }

  /** The book filter keeps the order of the list: it distributes over concatenation. */
  lemma {:induction false} BooksAppend(l1: seq<Article>, l2: seq<Article>)
    ensures Books(l1 + l2) == Books(l1) + Books(l2)
  {
    if l1 == [] {
      assert l1 + l2 == l2;
    } else {
      assert (l1 + l2)[0] == l1[0] && (l1 + l2)[1..] == l1[1..] + l2;
      BooksAppend(l1[1..], l2);
      var head := if l1[0].variant.Book? then [l1[0]] else [];
      assert Books(l1 + l2) == head + Books(l1[1..] + l2);
      assert Books(l1) == head + Books(l1[1..]);
    }
  }

  /** The DVD filter keeps the order of the list: it distributes over concatenation. */
  lemma {:induction false} DvdsAppend(l1: seq<Article>, l2: seq<Article>)
    ensures Dvds(l1 + l2) == Dvds(l1) + Dvds(l2)
  {
    if l1 == [] {
      assert l1 + l2 == l2;
    } else {
      assert (l1 + l2)[0] == l1[0] && (l1 + l2)[1..] == l1[1..] + l2;
      DvdsAppend(l1[1..], l2);
      var head := if l1[0].variant.Dvd? then [l1[0]] else [];
      assert Dvds(l1 + l2) == head + Dvds(l1[1..] + l2);
      assert Dvds(l1) == head + Dvds(l1[1..]);
    }
  }

  /** Each filter keeps every copy of what it selects, so the counts are exact. */
  lemma {:induction false} FiltersMultiplicity(list: seq<Article>)
    ensures forall a :: multiset(Books(list))[a] == if a.variant.Book? then multiset(list)[a] else 0
    ensures forall a :: multiset(Dvds(list))[a] == if a.variant.Dvd? then multiset(list)[a] else 0
  {
    if list != [] {
      FiltersMultiplicity(list[1..]);
      assert list == [list[0]] + list[1..];
      assert multiset(list) == multiset([list[0]]) + multiset(list[1..]);
      var books := if list[0].variant.Book? then [list[0]] else [];
      var dvds := if list[0].variant.Dvd? then [list[0]] else [];
      assert multiset(Books(list)) == multiset(books) + multiset(Books(list[1..]));
      assert multiset(Dvds(list)) == multiset(dvds) + multiset(Dvds(list[1..]));
    }
  }

  /** Every article is a book or a DVD, so the two counts add up to the total. */
  lemma {:induction false} BooksAndDvdsPartition(list: seq<Article>)
    ensures |Books(list)| + |Dvds(list)| == |list|
  {
    if list != [] {
      BooksAndDvdsPartition(list[1..]);
    }
  }

  /** The sum of the prices in cents, added from the front as the stream reduction does. */
  function TotalCents(list: seq<Article>, currentYear: int): int
  {
    if list == [] then 0
    else TotalCents(list[..|list| - 1], currentYear) + Price(list[|list| - 1], currentYear).unscaled
  }

  /**
   * `getArticlePriceSum()`: `BigDecimal.ZERO` for no articles, otherwise the
   * exact sum of the prices at scale 2.
   */
  function PriceSum(list: seq<Article>, currentYear: int): (r: Dec)
    ensures list == [] ==> r == Zero
    ensures list != [] ==> r == Dec(TotalCents(list, currentYear), PriceScale)
  {
    if list == [] then Zero
    else
      var front := PriceSum(list[..|list| - 1], currentYear);
      var last := Price(list[|list| - 1], currentYear);
      if |list| == 1 then ZeroAddIdentity(last); Add(front, last)
      else AddSameScale(front, last); Add(front, last)
  }

  /** Saving an article adds its price to the sum. */
  lemma TotalCentsAppend(list: seq<Article>, a: Article, currentYear: int)
    ensures TotalCents(list + [a], currentYear) == TotalCents(list, currentYear) + Price(a, currentYear).unscaled
  {
    assert (list + [a])[..|list|] == list;
  }

  /** With valid articles the sum lies between 0 and the sum of the base prices. */
  function TotalBasePrice(list: seq<Article>): int
  {
    if list == [] then 0 else TotalBasePrice(list[..|list| - 1]) + list[|list| - 1].basePrice
  }

  predicate ValidArticles(list: seq<Article>, currentYear: int)
  {
    forall i :: 0 <= i < |list| ==> list[i].basePrice >= 0 && list[i].releaseYear <= currentYear
  }

  lemma {:induction false} TotalCentsBounds(list: seq<Article>, currentYear: int)
    requires ValidArticles(list, currentYear)
    ensures 0 <= TotalCents(list, currentYear) <= TotalBasePrice(list)
  {
    if list != [] {
      var front := list[..|list| - 1];
      assert ValidArticles(front, currentYear) by {
        forall i | 0 <= i < |front| ensures front[i] == list[i] {}
      }
      TotalCentsBounds(front, currentYear);
      var last := list[|list| - 1];
      assert last.basePrice >= 0 && last.releaseYear <= currentYear;
    }
  }

  /**
   * `getArticlesPriceMean()`: the sum divided by the count at the sum's scale,
   * rounded half-up; no articles means a division by zero.
   */
  function PriceMean(list: seq<Article>, currentYear: int): (r: Result<Dec, QueryError>)
    ensures r.Failure? <==> list == []
    ensures r.Failure? ==> r.error == DivisionByZero
    ensures r.Success? ==>
      && r.value.scale == PriceScale
      && r.value.unscaled == RoundHalfUp(TotalCents(list, currentYear), |list|)
      && 2 * Abs(TotalCents(list, currentYear) - r.value.unscaled * |list|) <= |list|
  {
    if list == [] then Failure(DivisionByZero)
    else
      DivideByCount(PriceSum(list, currentYear), |list|);
      Success(Divide(PriceSum(list, currentYear), FromInt(|list|)))
  }

  /** The smallest release year, reduced from the front with `Integer::min`. */
  function MinReleaseYear(list: seq<Article>): (y: int)
    requires list != []
    ensures exists i :: 0 <= i < |list| && list[i].releaseYear == y
    ensures forall i :: 0 <= i < |list| ==> y <= list[i].releaseYear
  {
    if |list| == 1 then list[0].releaseYear
    else
      var front := MinReleaseYear(list[..|list| - 1]);
      var last := list[|list| - 1].releaseYear;
      assert forall i :: 0 <= i < |list| - 1 ==> list[..|list| - 1][i] == list[i];
      if last < front then last else front
  }

  /** `getOldestReleaseYear()`: the earliest release year; no articles throws. */
  function OldestReleaseYear(list: seq<Article>): (r: Result<int, QueryError>)
    ensures r.Failure? <==> list == []
    ensures r.Failure? ==> r.error == NoSuchElement
    ensures r.Success? ==>
      && (exists i :: 0 <= i < |list| && list[i].releaseYear == r.value)
      && forall i :: 0 <= i < |list| ==> r.value <= list[i].releaseYear
  {
    if list == [] then Failure(NoSuchElement) else Success(MinReleaseYear(list))
  }

  /** The ids of the articles released in the given year, in list order. */
  function IdsReleasedIn(list: seq<Article>, year: int): (r: seq<int>)
    ensures |r| <= |list|
    ensures forall id :: id in r <==> exists a :: a in list && a.releaseYear == year && a.id == id
  {
    if list == [] then []
    else
      assert forall a :: a in list <==> a == list[0] || a in list[1..];
      (if list[0].releaseYear == year then [list[0].id] else []) + IdsReleasedIn(list[1..], year)
  }

  /** The filter keeps the order of the list: it distributes over concatenation. */
  lemma {:induction false} IdsReleasedInAppend(l1: seq<Article>, l2: seq<Article>, year: int)
    ensures IdsReleasedIn(l1 + l2, year) == IdsReleasedIn(l1, year) + IdsReleasedIn(l2, year)
  {
    if l1 == [] {
      assert l1 + l2 == l2;
    } else {
      assert (l1 + l2)[0] == l1[0] && (l1 + l2)[1..] == l1[1..] + l2;
      IdsReleasedInAppend(l1[1..], l2, year);
      var head := if l1[0].releaseYear == year then [l1[0].id] else [];
      assert IdsReleasedIn(l1 + l2, year) == head + IdsReleasedIn(l1[1..] + l2, year);
      assert IdsReleasedIn(l1, year) == head + IdsReleasedIn(l1[1..], year);
    }
  }

  /**
   * `getOldestArticleIds()`: the ids of every article of the earliest
   * release year, in list order; never empty when there are articles.
   */
  function OldestArticleIds(list: seq<Article>): (r: Result<seq<int>, QueryError>)
    ensures r.Failure? <==> list == []
    ensures r.Failure? ==> r.error == NoSuchElement
    ensures r.Success? ==> 1 <= |r.value| <= |list|
    ensures r.Success? ==> r.value == IdsReleasedIn(list, MinReleaseYear(list))
    ensures r.Success? ==> forall id :: id in r.value <==>
      exists a :: a in list && a.id == id && forall b :: b in list ==> a.releaseYear <= b.releaseYear
  {
    match OldestReleaseYear(list)
    case Failure(e) => Failure(e)
    case Success(year) =>
      var i :| 0 <= i < |list| && list[i].releaseYear == year;
      assert list[i].id in IdsReleasedIn(list, year);
      Success(IdsReleasedIn(list, year))
  }

  /** Two ten-euro and twenty-euro new books average to fifteen euros. */
  lemma PriceMeanExample(currentYear: int)
    ensures PriceMean([Article(1, "A", "P", currentYear, 1000, Book(100)),
                       Article(2, "B", "P", currentYear, 2000, Book(100))], currentYear)
      == Success(Dec(1500, 2))
  {
    var a := Article(1, "A", "P", currentYear, 1000, Book(100));
    var b := Article(2, "B", "P", currentYear, 2000, Book(100));
    assert DiscountPercentage(a, currentYear) == 0 && DiscountPercentage(b, currentYear) == 0;
    assert Price(a, currentYear) == PriceFor(1000, 0) == Dec(1000, 2);
    assert Price(b, currentYear) == PriceFor(2000, 0) == Dec(2000, 2);
    assert [a, b][..1] == [a] && [a][..0] == [];
    assert TotalCents([a], currentYear) == 1000;
    assert TotalCents([a, b], currentYear) == 3000;
    assert RoundHalfUp(3000, 2) == 1500;
  }

  /** Two articles of 2000 and one of 2010: the two of 2000, in list order. */
  lemma OldestArticleIdsExample()
    ensures OldestArticleIds([Article(7, "A", "P", 2000, 0, Book(1)),
                              Article(3, "B", "P", 2010, 0, Book(1)),
                              Article(5, "C", "P", 2000, 0, Book(1))]) == Success([7, 5])
  {
    var l := [Article(7, "A", "P", 2000, 0, Book(1)), Article(3, "B", "P", 2010, 0, Book(1)),
              Article(5, "C", "P", 2000, 0, Book(1))];
    assert l[..2] == [l[0], l[1]] && l[..2][..1] == [l[0]];
    assert MinReleaseYear(l[..2]) == 2000;
    assert OldestReleaseYear(l).value == 2000;
    assert l[1..][1..][1..] == [];
    assert IdsReleasedIn(l[1..][1..], 2000) == [5];
    assert IdsReleasedIn(l[1..], 2000) == [5];
    assert IdsReleasedIn(l, 2000) == [7, 5];
  }

  /** The service: a store it forwards to. */
  class ArticleManagement {
    const articleDAO: ArticleStore

    constructor (dao: ArticleStore)
      ensures articleDAO == dao
    {
      articleDAO := dao;
    }

    function GetArticleList(): (r: seq<Article>)
      reads this, articleDAO
      ensures r == articleDAO.articleList
    {
      articleDAO.GetArticleList()
    }

    function GetArticle(id: int): (r: Option<Article>)
      reads this, articleDAO
      ensures r == Find(articleDAO.articleList, id)
    {
      articleDAO.GetArticle(id)
    }

    method SaveArticle(article: Article) returns (r: Outcome<StoreError>)
      modifies articleDAO
      ensures match Saved(old(articleDAO.articleList), article)
        case Failure(e) => r == Fail(e) && articleDAO.articleList == old(articleDAO.articleList) && articleDAO.file == old(articleDAO.file)
        case Success(list) => r == Pass && articleDAO.articleList == list && articleDAO.file == SnapshotFiles.Snapshot(list)
    {
      r := articleDAO.SaveArticle(article);
    }

    method DeleteArticle(id: int) returns (r: Outcome<StoreError>)
      modifies articleDAO
      ensures match Deleted(old(articleDAO.articleList), id)
        case Failure(e) => r == Fail(e) && articleDAO.articleList == old(articleDAO.articleList) && articleDAO.file == old(articleDAO.file)
        case Success(list) => r == Pass && articleDAO.articleList == list && articleDAO.file == SnapshotFiles.Snapshot(list)
    {
      r := articleDAO.DeleteArticle(id);
    }
  }
}
