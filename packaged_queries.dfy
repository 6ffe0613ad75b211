/**
 * The ArticleManagement of the `articlecli` package. It imports the package
 * split's Book, contracts.Article and storage.ArticleDAO, so it works over
 * those classes; the statistics are functions of the list its store holds.
 */
module PackagedQueries {
  import opened Wrappers
  import opened Decimal
  import opened PackagedArticles
  import opened PackagedStore
  import opened SnapshotFiles

  /** ArithmeticException from a division by zero; NoSuchFieldError from an empty minimum. */
  datatype QueryError = DivisionByZero | NoSuchField

  /** `instanceof Book`: how many books the list holds. */
  function CountBooks(list: seq<Article>): (n: nat)
    reads list
    ensures n <= |list|
    ensures n == 0 <==> forall i :: 0 <= i < |list| ==> !list[i].part.BookPart?
    ensures |list| == 1 ==> (n == 1 <==> list[0].part.BookPart?)
  {
    if list == [] then 0 else (if list[0].part.BookPart? then 1 else 0) + CountBooks(list[1..])
  }

  /** `instanceof DVD`: how many DVDs the list holds. */
  function CountDvds(list: seq<Article>): (n: nat)
    reads list
    ensures n <= |list|
    ensures n == 0 <==> forall i :: 0 <= i < |list| ==> !list[i].part.DvdPart?
    ensures |list| == 1 ==> (n == 1 <==> list[0].part.DvdPart?)
  {
    if list == [] then 0 else (if list[0].part.DvdPart? then 1 else 0) + CountDvds(list[1..])
  }

  /** Both counts add up over concatenation: each counts every listed article of its kind. */
  lemma {:induction false} CountsAppend(l1: seq<Article>, l2: seq<Article>)
    ensures CountBooks(l1 + l2) == CountBooks(l1) + CountBooks(l2)
    ensures CountDvds(l1 + l2) == CountDvds(l1) + CountDvds(l2)
  {
    if l1 == [] {
      assert l1 + l2 == l2;
    } else {
      assert (l1 + l2)[0] == l1[0] && (l1 + l2)[1..] == l1[1..] + l2;
      CountsAppend(l1[1..], l2);
    }
  }

  /** Every article is a book or a DVD. */
  lemma {:induction false} CountsPartition(list: seq<Article>)
    ensures CountBooks(list) + CountDvds(list) == |list|
  {
    if list != [] {
      CountsPartition(list[1..]);
    }
  }

  /** The sum of the prices in cents, added from the front as the stream reduction does. */
  function TotalCents(list: seq<Article>): int
    reads list
  {
    if list == [] then 0 else TotalCents(list[..|list| - 1]) + list[|list| - 1].GetPrice().unscaled
  }

  /** The reduction of the prices from `BigDecimal.ZERO`: every price has scale 2. */
  function PriceSum(list: seq<Article>): (r: Dec)
    reads list
    ensures list == [] ==> r == Zero
    ensures list != [] ==> r == Dec(TotalCents(list), 2)
  {
    if list == [] then Zero
    else
      var front := PriceSum(list[..|list| - 1]);
      var last := list[|list| - 1].GetPrice();
      if |list| == 1 then ZeroAddIdentity(last); Add(front, last)
      else AddSameScale(front, last); Add(front, last)
  }

  /** `getArticlesPriceMean()`: no articles means a division by zero. */
  function PriceMean(list: seq<Article>): (r: Result<Dec, QueryError>)
    reads list
    ensures r.Failure? <==> list == []
    ensures r.Failure? ==> r.error == DivisionByZero
    ensures r.Success? ==>
      && r.value.scale == 2
      && r.value.unscaled == RoundHalfUp(TotalCents(list), |list|)
      && 2 * Abs(TotalCents(list) - r.value.unscaled * |list|) <= |list|
  {
    if list == [] then Failure(DivisionByZero)
    else
      DivideByCount(PriceSum(list), |list|);
      Success(Divide(PriceSum(list), FromInt(|list|)))
  }

  /** The smallest release year of a non-empty list. */
  function MinReleaseYear(list: seq<Article>): (y: int)
    reads list
    requires list != []
    ensures exists i :: 0 <= i < |list| && list[i].releaseYear == y
    ensures forall i :: 0 <= i < |list| ==> y <= list[i].releaseYear
  {
    if |list| == 1 then list[0].releaseYear
    else
      var rest := MinReleaseYear(list[1..]);
      assert forall i :: 1 <= i < |list| ==> list[1..][i - 1] == list[i];
      if list[0].releaseYear <= rest then list[0].releaseYear else rest
  }

  /** The ids of the articles from index j on released in the given year, in list order. */
  function IdsFrom(list: seq<Article>, year: int, j: nat): (r: seq<int>)
    reads list
    requires j <= |list|
    decreases |list| - j
    ensures |r| <= |list| - j
    ensures forall id :: id in r ==> exists i :: j <= i < |list| && list[i].releaseYear == year && list[i].id == id
    ensures forall i :: j <= i < |list| && list[i].releaseYear == year ==> list[i].id in r
  {
    if j == |list| then []
    else
      var rest := IdsFrom(list, year, j + 1);
      if list[j].releaseYear == year then [list[j].id] + rest
      else rest
  }

  /** Past the end of the first list, the scan only sees the second. */
  lemma {:induction false} IdsFromSecond(l1: seq<Article>, l2: seq<Article>, year: int, j: nat)
    requires |l1| <= j <= |l1| + |l2|
    decreases |l1| + |l2| - j
    ensures IdsFrom(l1 + l2, year, j) == IdsFrom(l2, year, j - |l1|)
  {
    if j < |l1| + |l2| {
      assert (l1 + l2)[j] == l2[j - |l1|];
      IdsFromSecond(l1, l2, year, j + 1);
    }
  }

  /** A scan that starts inside the first list reads its tail, then all of the second. */
  lemma {:induction false} IdsFromAppend(l1: seq<Article>, l2: seq<Article>, year: int, j: nat)
    requires j <= |l1|
    decreases |l1| - j
    ensures IdsFrom(l1 + l2, year, j) == IdsFrom(l1, year, j) + IdsFrom(l2, year, 0)
  {
    if j == |l1| {
      IdsFromSecond(l1, l2, year, j);
    } else {
      assert (l1 + l2)[j] == l1[j];
      IdsFromAppend(l1, l2, year, j + 1);
    }
  }

  /** The ids of the articles released in the given year, in list order. */
  function IdsReleasedIn(list: seq<Article>, year: int): (r: seq<int>)
    reads list
    ensures |r| <= |list|
    ensures forall id :: id in r ==> exists i :: 0 <= i < |list| && list[i].releaseYear == year && list[i].id == id
    ensures forall i :: 0 <= i < |list| && list[i].releaseYear == year ==> list[i].id in r
  {
    IdsFrom(list, year, 0)
  }

  /** The filter keeps the order of the list: it distributes over concatenation. */
  lemma IdsReleasedInAppend(l1: seq<Article>, l2: seq<Article>, year: int)
    ensures IdsReleasedIn(l1 + l2, year) == IdsReleasedIn(l1, year) + IdsReleasedIn(l2, year)
  {
    IdsFromAppend(l1, l2, year, 0);
  }

  /** No article of the list was released before the one at index i. */
  predicate IsOldest(list: seq<Article>, i: int)
    reads list
    requires 0 <= i < |list|
  {
    forall j :: 0 <= j < |list| ==> list[i].releaseYear <= list[j].releaseYear
  }

  /**
   * `getOldestArticleIds()`: the ids of every article of the earliest
   * release year, in list order; an empty list throws NoSuchFieldError.
   */
  function OldestArticleIds(list: seq<Article>): (r: Result<seq<int>, QueryError>)
    reads list
    ensures r.Failure? <==> list == []
    ensures r.Failure? ==> r.error == NoSuchField
    ensures r.Success? ==> 1 <= |r.value| <= |list|
    ensures r.Success? ==> r.value == IdsReleasedIn(list, MinReleaseYear(list))
    ensures r.Success? ==>
      forall i :: 0 <= i < |list| && IsOldest(list, i) ==> list[i].id in r.value
    ensures r.Success? ==>
      forall id :: id in r.value ==> exists i :: 0 <= i < |list| && IsOldest(list, i) && list[i].id == id
  {
    if list == [] then Failure(NoSuchField)
    else
      var year := MinReleaseYear(list);
      var i :| 0 <= i < |list| && list[i].releaseYear == year;
      assert list[i].id in IdsReleasedIn(list, year);
      Success(IdsReleasedIn(list, year))
  }

  /** The service: a store it forwards to. */
  class ArticleManagement {
    const articleDAO: ArticleStore

    constructor (dao: ArticleStore)
      ensures articleDAO == dao
    {
      articleDAO := dao;
    }

    function GetArticleList(): (r: seq<Article>)
      reads this, articleDAO
      ensures r == articleDAO.articleList
    {
      articleDAO.GetArticleList()
    }

    function GetArticle(id: int): (r: Option<Article>)
      reads this, articleDAO, articleDAO.articleList
      ensures r == articleDAO.GetArticle(id)
    {
      articleDAO.GetArticle(id)
    }

    method SaveArticle(article: Article) returns (r: Outcome<StoreError>)
      modifies articleDAO
      ensures old(articleDAO.GetArticle(article.id)).Some? ==>
        && r == Fail(AlreadyExists(article.id))
        && articleDAO.articleList == old(articleDAO.articleList)
        && articleDAO.file == HeaderOnly
      ensures old(articleDAO.GetArticle(article.id)).None? ==>
        && r == Pass
        && articleDAO.articleList == old(articleDAO.articleList) + [article]
        && articleDAO.file == Snapshot(Records(articleDAO.articleList))
      ensures old(DistinctIds(articleDAO.articleList)) ==> DistinctIds(articleDAO.articleList)
      ensures old(DistinctObjects(articleDAO.articleList)) ==> DistinctObjects(articleDAO.articleList)
    {
      r := articleDAO.SaveArticle(article);
    }

    method DeleteArticle(id: int) returns (r: Outcome<StoreError>)
      modifies articleDAO
      ensures old(articleDAO.GetArticle(id)).None? ==>
        && r == Fail(NotFound(id))
        && articleDAO.articleList == old(articleDAO.articleList)
        && articleDAO.file == HeaderOnly
      ensures old(articleDAO.GetArticle(id)).Some? ==>
        && r == Pass
        && articleDAO.articleList == RemoveAll(old(articleDAO.articleList), old(articleDAO.GetArticle(id)).value)
        && articleDAO.file == Snapshot(Records(articleDAO.articleList))
      ensures old(articleDAO.GetArticle(id)).Some? && old(DistinctObjects(articleDAO.articleList)) ==>
        var i := old(FirstWithId(articleDAO.articleList, id)).value;
        articleDAO.articleList == old(articleDAO.articleList)[..i] + old(articleDAO.articleList)[i + 1..]
    {
      r := articleDAO.DeleteArticle(id);
    }
  }
}
