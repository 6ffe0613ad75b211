/**
 * storage.SerializedArticleDAO of the `articlecli` package split. As in the
 * flat package, both writing operations open the output stream before they
 * check their argument, so a refused save or delete leaves a file holding
 * only the stream header; here their IllegalArgumentException escapes as it
 * is. A delete removes every occurrence of the one object found, by reference.
 */
module PackagedStore {
  import opened Wrappers
  import opened SnapshotFiles
  import opened PackagedArticles

  /**
   * "Error: Article already exists. (id=N)", "Error: Article not found. (id=N)"
   * and "Error during deserialization.", all IllegalArgumentExceptions.
   */
  datatype StoreError = AlreadyExists(id: int) | NotFound(id: int) | DeserializationError

  /** The index of the first article with the given id. */
  function FirstWithId(list: seq<Article>, id: int): (r: Option<nat>)
    reads list
    ensures r.None? <==> forall i :: 0 <= i < |list| ==> list[i].id != id
    ensures r.Some? ==>
      && r.value < |list| && list[r.value].id == id
      && forall i :: 0 <= i < r.value ==> list[i].id != id
  {
    if |list| == 0 then None
    else if list[0].id == id then Some(0)
    else match FirstWithId(list[1..], id)
      case None => None
      case Some(i) => Some(i + 1)
  }

  /** The field values of the listed objects: what serializing the list writes. */
  function Records(list: seq<Article>): (r: seq<Record>)
    reads list
    ensures |r| == |list|
    ensures forall i :: 0 <= i < |list| ==> r[i] == list[i].Fields()
  {
    if list == [] then [] else [list[0].Fields()] + Records(list[1..])
  }

  predicate DistinctObjects(list: seq<Article>)
  {
    forall i, j :: 0 <= i < j < |list| ==> list[i] != list[j]
  }

  /** No two listed articles share an id. */
  predicate DistinctIds(list: seq<Article>)
    reads list
  {
    forall i, j :: 0 <= i < j < |list| ==> list[i].id != list[j].id
  }

  /** `removeAll(Collections.singletonList(x))`: every occurrence of the object x goes. */
  function RemoveAll(list: seq<Article>, x: Article): (r: seq<Article>)
    ensures |r| <= |list|
    ensures x in list ==> |r| < |list|
    ensures forall i :: 0 <= i < |r| ==> r[i] in list && r[i] != x
    ensures forall i :: 0 <= i < |list| && list[i] != x ==> list[i] in r
  {
    if list == [] then []
    else
      assert forall i :: 1 <= i < |list| ==> list[i] == list[1..][i - 1];
      (if list[0] == x then [] else [list[0]]) + RemoveAll(list[1..], x)
  }

  /**
   * With distinct objects, removing the object at index i is removing that
   * one position; the other articles keep their order.
   */
  lemma {:induction false} RemoveAllOfDistinct(list: seq<Article>, i: nat)
    requires i < |list| && DistinctObjects(list)
    ensures RemoveAll(list, list[i]) == list[..i] + list[i + 1..]
  {
    var x := list[i];
    var tail := list[1..];
    if i == 0 {
      assert x !in tail by {
        forall k | 0 <= k < |tail| ensures tail[k] != x {
          assert tail[k] == list[k + 1];
        }
      }
      RemoveAllAbsent(tail, x);
    } else {
      assert DistinctObjects(tail) by {
        forall j, k | 0 <= j < k < |tail| ensures tail[j] != tail[k] {
          assert tail[j] == list[j + 1] && tail[k] == list[k + 1];
        }
      }
      assert tail[i - 1] == x;
      RemoveAllOfDistinct(tail, i - 1);
      assert list[0] != x;
      assert RemoveAll(list, x) == [list[0]] + RemoveAll(tail, x);
      assert list[..i] == [list[0]] + tail[..i - 1];
      assert list[i + 1..] == tail[i..];
    }
  }

  lemma {:induction false} RemoveAllAbsent(list: seq<Article>, x: Article)
    requires x !in list
    ensures RemoveAll(list, x) == list
  {
    if list != [] {
      RemoveAllAbsent(list[1..], x);
    }
  }

  /** Distinct ids make distinct objects. */
  lemma DistinctIdsObjects(list: seq<Article>)
    requires DistinctIds(list)
    ensures DistinctObjects(list)
  {
    forall i, j | 0 <= i < j < |list| ensures list[i] != list[j] {
      assert list[i].id != list[j].id;
    }
  }

  class ArticleStore {
    var articleList: seq<Article>
    var file: FileState<Record>

    constructor Init(list: seq<Article>, disk: FileState<Record>)
      ensures articleList == list && file == disk
    {
      articleList := list;
      file := disk;
    }

    /**
     * `new SerializedArticleDAO(file)`: an absent file gives an empty list, a
     * readable one a list of new objects holding its records, and anything
     * else "Error during deserialization.".
     */
    static method Open(disk: FileState<Record>) returns (r: Result<ArticleStore, StoreError>)
      ensures r.Success? <==> Load(disk).Success?
      ensures r.Failure? ==> r.error == DeserializationError
      ensures r.Success? ==>
        && fresh(r.value) && r.value.file == disk
        && Records(r.value.articleList) == Load(disk).value
        && (forall i :: 0 <= i < |r.value.articleList| ==> fresh(r.value.articleList[i]))
        && DistinctObjects(r.value.articleList)
    {
      var loaded := Load(disk);
      if loaded.Failure? {
        return Failure(DeserializationError);
      }
      var records := loaded.value;
      var list: seq<Article> := [];
      var k := 0;
      while k < |records|
        invariant 0 <= k <= |records| && |list| == k
        invariant forall i :: 0 <= i < k ==> fresh(list[i]) && list[i].Fields() == records[i]
        invariant DistinctObjects(list)
      {
        var a := new Article.FromRecord(records[k]);
        list := list + [a];
        k := k + 1;
      }
      assert Records(list) == records;
      var store := new ArticleStore.Init(list, disk);
      r := Success(store);
    }

    /** `getArticleList()`: the stored objects themselves. */
    function GetArticleList(): (r: seq<Article>)
      reads this
      ensures r == articleList
    {
      articleList
    }

    /** `getArticle(id)`: the first article with that id, or `None` for null. */
    function GetArticle(id: int): (r: Option<Article>)
      reads this, articleList
      ensures r.None? <==> forall i :: 0 <= i < |articleList| ==> articleList[i].id != id
      ensures r.Some? ==> r.value == articleList[FirstWithId(articleList, id).value]
    {
      match FirstWithId(articleList, id)
      case None => None
      case Some(i) => Some(articleList[i])
    }

    /** `saveArticle`: the file is truncated first, then a taken id is refused. */
    method SaveArticle(article: Article) returns (r: Outcome<StoreError>)
      modifies this`articleList, this`file
      ensures old(GetArticle(article.id)).Some? ==>
        r == Fail(AlreadyExists(article.id)) && articleList == old(articleList) && file == HeaderOnly
      ensures old(GetArticle(article.id)).None? ==>
        r == Pass && articleList == old(articleList) + [article] && file == Snapshot(Records(articleList))
      ensures old(DistinctIds(articleList)) ==> DistinctIds(articleList)
      ensures old(DistinctObjects(articleList)) ==> DistinctObjects(articleList)
    {
      var taken := GetArticle(article.id).Some?;
      file := HeaderOnly;
      if taken {
        return Fail(AlreadyExists(article.id));
      }
      var list := articleList + [article];
      var records := Records(list);
      articleList := list;
      file := Snapshot(records);
      r := Pass;
    }

    /**
     * `deleteArticle`: the file is truncated first, then an absent id is
     * refused; otherwise every occurrence of the found object is removed.
     */
    method DeleteArticle(id: int) returns (r: Outcome<StoreError>)
      modifies this`articleList, this`file
      ensures old(GetArticle(id)).None? ==>
        r == Fail(NotFound(id)) && articleList == old(articleList) && file == HeaderOnly
      ensures old(GetArticle(id)).Some? ==>
        && r == Pass
        && articleList == RemoveAll(old(articleList), old(GetArticle(id)).value)
        && file == Snapshot(Records(articleList))
      ensures old(GetArticle(id)).Some? && old(DistinctObjects(articleList)) ==>
        var i := old(FirstWithId(articleList, id)).value;
        articleList == old(articleList)[..i] + old(articleList)[i + 1..]
    {
      var list := articleList;
      var found := FirstWithId(list, id);
      assert found.None? <==> old(GetArticle(id)).None?;
      assert found.Some? ==> list[found.value] == old(GetArticle(id)).value;
      file := HeaderOnly;
      if found.None? {
        return Fail(NotFound(id));
      }
      var article := list[found.value];
      if DistinctObjects(list) {
        RemoveAllOfDistinct(list, found.value);
      }
      list := RemoveAll(list, article);
      var records := Records(list);
      articleList := list;
      file := Snapshot(records);
      r := Pass;
    }
  }

  /**
   * A refused duplicate save leaves a file that no longer reads back: the
   * stored list is lost.
   */
  method DuplicateSaveLosesList(stored: Record) returns (reopened: Result<ArticleStore, StoreError>)
    ensures reopened == Failure(DeserializationError)
  {
    var first := ArticleStore.Open(Snapshot([stored]));
    var store := first.value;
    assert store.articleList[0].id == stored.id;
    var duplicate := new Article.FromRecord(stored);
    var outcome := store.SaveArticle(duplicate);
    reopened := ArticleStore.Open(store.file);
  }
}
