/**
 * The store of the default-package revision: the ArticleDAO contract and its
 * one implementation SerializedArticleDAO, which keeps the article list in
 * memory and rewrites the whole list to its file after every change.
 */
module CatalogueStore {
  import opened Wrappers
  import opened Catalogue
  import opened SnapshotFiles

  /** The exceptions of the store: IllegalArgumentException for the first two. */
  datatype StoreError =
    | AlreadyExists(id: int)
    | NotFound(id: int)
    | DeserializationError

  /** The index of the first article with the given id, in list order. */
  function FirstIndexOf(list: seq<Article>, id: int): (r: Option<nat>)
    ensures r.None? <==> forall i :: 0 <= i < |list| ==> list[i].id != id
    ensures r.Some? ==>
      && r.value < |list| && list[r.value].id == id
      && forall i :: 0 <= i < r.value ==> list[i].id != id
  {
    if |list| == 0 then None
    else if list[0].id == id then Some(0)
    else match FirstIndexOf(list[1..], id)
      case None => None
      case Some(i) => Some(i + 1)
  }

  /** `getArticle(id)`: the first article with that id, or `None` for null. */
  function Find(list: seq<Article>, id: int): (r: Option<Article>)
    ensures r.None? <==> forall a :: a in list ==> a.id != id
    ensures r.Some? ==> r.value in list && r.value.id == id
    ensures r.Some? ==> exists i :: 0 <= i < |list| && list[i] == r.value && forall j :: 0 <= j < i ==> list[j].id != id
  {
    match FirstIndexOf(list, id)
    case None => None
    case Some(i) => Some(list[i])
  }

  /** No two articles of the list share an id. */
  predicate DistinctIds(list: seq<Article>)
  {
    forall i, j :: 0 <= i < j < |list| ==> list[i].id != list[j].id
  }

  /**
   * `saveArticle`: a taken id is refused with "Error: Article already exists.
   * (id=N)"; otherwise the article is appended at the end.
   */
  function Saved(list: seq<Article>, article: Article): (r: Result<seq<Article>, StoreError>)
    ensures r.Failure? <==> exists a :: a in list && a.id == article.id
    ensures r.Failure? ==> r.error == AlreadyExists(article.id)
    ensures r.Success? ==> r.value == list + [article]
    ensures r.Success? && DistinctIds(list) ==> DistinctIds(r.value)
  {
    if Find(list, article.id).Some? then Failure(AlreadyExists(article.id))
    else Success(list + [article])
  }

  /** The list without its element at index i. */
  function RemoveAt(list: seq<Article>, i: nat): (r: seq<Article>)
    requires i < |list|
    ensures |r| == |list| - 1
    ensures forall k :: 0 <= k < i ==> r[k] == list[k]
    ensures forall k :: i <= k < |r| ==> r[k] == list[k + 1]
  {
    list[..i] + list[i + 1..]
  }

  /** Removing one element keeps ids distinct, and the removed id is then gone. */
  lemma RemoveAtDistinct(list: seq<Article>, i: nat)
    requires i < |list| && DistinctIds(list)
    ensures DistinctIds(RemoveAt(list, i))
    ensures forall a :: a in RemoveAt(list, i) ==> a.id != list[i].id
  {
    var r := RemoveAt(list, i);
    forall j, k | 0 <= j < k < |r| ensures r[j].id != r[k].id {
      var j', k' := if j < i then j else j + 1, if k < i then k else k + 1;
      assert r[j] == list[j'] && r[k] == list[k'] && j' < k';
    }
    forall a | a in r ensures a.id != list[i].id {
      var k :| 0 <= k < |r| && r[k] == a;
      var k' := if k < i then k else k + 1;
      assert r[k] == list[k'] && k' != i;
    }
  }

  /**
   * `deleteArticle`: an absent id is refused with "Error: Article not found.
   * (id=N)"; otherwise the first article with that id is removed and the
   * others keep their order.
   */
  function Deleted(list: seq<Article>, id: int): (r: Result<seq<Article>, StoreError>)
    ensures r.Failure? <==> forall a :: a in list ==> a.id != id
    ensures r.Failure? ==> r.error == NotFound(id)
    ensures r.Success? ==>
      exists i :: 0 <= i < |list| && list[i].id == id && (forall j :: 0 <= j < i ==> list[j].id != id)
        && r.value == RemoveAt(list, i)
    ensures r.Success? && DistinctIds(list) ==> DistinctIds(r.value) && forall a :: a in r.value ==> a.id != id
  {
    match FirstIndexOf(list, id)
    case None => Failure(NotFound(id))
    case Some(i) =>
      if DistinctIds(list) then RemoveAtDistinct(list, i); Success(RemoveAt(list, i))
      else Success(RemoveAt(list, i))
  }

  /** SerializedArticleDAO: the article list and what its file holds. */
  class ArticleStore {
    var articleList: seq<Article>
    var file: FileState<Article>

    constructor Init(list: seq<Article>, disk: FileState<Article>)
      ensures articleList == list && file == disk
    {
      articleList := list;
      file := disk;
    }

    /**
     * `new SerializedArticleDAO(file)`: an absent file gives an empty list, a
     * readable one its list, and anything else "Error during deserialization.".
     */
    static method Open(disk: FileState<Article>) returns (r: Result<ArticleStore, StoreError>)
      ensures r.Success? <==> Load(disk).Success?
      ensures r.Failure? ==> r.error == DeserializationError
      ensures r.Success? ==> fresh(r.value) && r.value.articleList == Load(disk).value && r.value.file == disk
    {
      var loaded := Load(disk);
      if loaded.Failure? {
        return Failure(DeserializationError);
      }
      var store := new ArticleStore.Init(loaded.value, disk);
      r := Success(store);
    }

    /** `getArticleList()`: the current list; a Dafny sequence cannot be changed through it. */
    function GetArticleList(): (r: seq<Article>)
      reads this
      ensures r == articleList
    {
      articleList
    }

    /** `getArticle(id)`. */
    function GetArticle(id: int): (r: Option<Article>)
      reads this
      ensures r == Find(articleList, id)
    {
      Find(articleList, id)
    }

    /** `saveArticle`: checks, appends, then writes the whole list to the file. */
    method SaveArticle(article: Article) returns (r: Outcome<StoreError>)
      modifies this`articleList, this`file
      ensures match Saved(old(articleList), article)
        case Failure(e) => r == Fail(e) && articleList == old(articleList) && file == old(file)
        case Success(list) => r == Pass && articleList == list && file == Snapshot(list)
    {
      if GetArticle(article.id).Some? {
        return Fail(AlreadyExists(article.id));
      }
      articleList := articleList + [article];
      file := Snapshot(articleList);
      r := Pass;
    }

    /**
     * `deleteArticle`: `List.remove` drops the first element equal to the
     * found article; every element before it has another id, so that is the
     * element at the found index.
     */
    method DeleteArticle(id: int) returns (r: Outcome<StoreError>)
      modifies this`articleList, this`file
      ensures match Deleted(old(articleList), id)
        case Failure(e) => r == Fail(e) && articleList == old(articleList) && file == old(file)
        case Success(list) => r == Pass && articleList == list && file == Snapshot(list)
    {
      var i := FirstIndexOf(articleList, id);
      if i.None? {
        return Fail(NotFound(id));
      }
      articleList := RemoveAt(articleList, i.value);
      file := Snapshot(articleList);
      r := Pass;
    }
  }

  /** What a successful save or delete writes reads back as the same list. */
  lemma WrittenListReloads(list: seq<Article>)
    ensures Load(Snapshot(list)) == Success(list)
  {}

  /**
   * Saving an article whose id is taken is refused before the file is opened,
   * so the file still reads back as the list it held.
   */
  method DuplicateSaveKeepsFile(a: Article) returns (reopened: Result<ArticleStore, StoreError>)
    ensures reopened.Success? && reopened.value.articleList == [a]
  {
    var first := ArticleStore.Open(Snapshot([a]));
    var store := first.value;
    var outcome := store.SaveArticle(a);
    assert outcome == Fail(AlreadyExists(a.id));
    reopened := ArticleStore.Open(store.file);
  }
}
