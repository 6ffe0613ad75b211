/**
 * SerializedArticleDAO of the flat `articlecli` package. The list holds
 * article objects, so `List.remove(Object)` works by reference. Both
 * writing operations open the output stream, and so truncate the file,
 * before they check their argument; a refused save or delete leaves a file
 * that holds only the stream header.
 */
module FlatStore {
  import opened Wrappers
  import opened SnapshotFiles
  import opened FlatArticles

  /**
   * The RuntimeExceptions of the store: "Error during serialization." (into
   * which both writing operations also turn their own IllegalArgumentException)
   * and "Error during deserialization.".
   */
  datatype StoreError = SerializationError | DeserializationError

  /** The index of the first article with the given id. */
  function FirstWithId(list: seq<Article>, id: int): (r: Option<nat>)
    reads list
    ensures r.None? <==> forall i :: 0 <= i < |list| ==> list[i].id != id
    ensures r.Some? ==>
      && r.value < |list| && list[r.value].id == id
      && forall i :: 0 <= i < r.value ==> list[i].id != id
  {
    if |list| == 0 then None
    else if list[0].id == id then Some(0)
    else match FirstWithId(list[1..], id)
      case None => None
      case Some(i) => Some(i + 1)
  }

  /** The field values of the listed objects: what serializing the list writes. */
  function Records(list: seq<Article>): (r: seq<Record>)
    reads list
    ensures |r| == |list|
    ensures forall i :: 0 <= i < |list| ==> r[i] == list[i].Fields()
  {
    if list == [] then [] else [list[0].Fields()] + Records(list[1..])
  }

  /** No object appears twice in the list. */
  predicate DistinctObjects(list: seq<Article>)
  {
    forall i, j :: 0 <= i < j < |list| ==> list[i] != list[j]
  }

  /** The position of the first occurrence of an object. */
  function IndexOf(list: seq<Article>, x: Article): (r: nat)
    requires x in list
    ensures r < |list| && list[r] == x
    ensures forall i :: 0 <= i < r ==> list[i] != x
  {
    if list[0] == x then 0 else 1 + IndexOf(list[1..], x)
  }

  /** `List.remove(Object)`: drops the first occurrence of that object. */
  function RemoveFirst(list: seq<Article>, x: Article): (r: seq<Article>)
    requires x in list
    ensures |r| == |list| - 1
    ensures r == list[..IndexOf(list, x)] + list[IndexOf(list, x) + 1..]
  {
    var i := IndexOf(list, x);
    list[..i] + list[i + 1..]
  }

  /** The list without any article of the given id, in order. */
  function WithoutId(list: seq<Article>, id: int): (r: seq<Article>)
    reads list
    ensures |r| <= |list|
    ensures forall i :: 0 <= i < |r| ==> r[i] in list && r[i].id != id
    ensures forall i :: 0 <= i < |list| && list[i].id != id ==> list[i] in r
  {
    if list == [] then []
    else
      assert forall i :: 1 <= i < |list| ==> list[i] == list[1..][i - 1];
      (if list[0].id == id then [] else [list[0]]) + WithoutId(list[1..], id)
  }

  /** One step of the filter: the head is kept exactly when its id differs. */
  lemma WithoutIdCons(x: Article, tail: seq<Article>, id: int)
    ensures WithoutId([x] + tail, id) == (if x.id == id then [] else [x]) + WithoutId(tail, id)
  {
    var list := [x] + tail;
    assert list[0] == x && list[1..] == tail;
  }

  /** The filter keeps the order of the list: it distributes over concatenation. */
  lemma {:induction false} WithoutIdAppend(l1: seq<Article>, l2: seq<Article>, id: int)
    ensures WithoutId(l1 + l2, id) == WithoutId(l1, id) + WithoutId(l2, id)
  {
    if l1 == [] {
      assert l1 + l2 == l2;
    } else {
      var x, tail := l1[0], l1[1..];
      var head := if x.id == id then [] else [x];
      assert l1 == [x] + tail;
      assert l1 + l2 == [x] + (tail + l2);
      calc {
        WithoutId(l1 + l2, id);
        { WithoutIdCons(x, tail + l2, id); }
        head + WithoutId(tail + l2, id);
        { WithoutIdAppend(tail, l2, id); }
        head + (WithoutId(tail, id) + WithoutId(l2, id));
        (head + WithoutId(tail, id)) + WithoutId(l2, id);
        { WithoutIdCons(x, tail, id); }
        WithoutId(l1, id) + WithoutId(l2, id);
      }
    }
  }

  /** Every copy of an object with another id stays, and none with the id does. */
  lemma {:induction false} WithoutIdMultiplicity(list: seq<Article>, id: int)
    ensures forall a: Article :: multiset(WithoutId(list, id))[a] == if a.id != id then multiset(list)[a] else 0
  {
    if list != [] {
      WithoutIdMultiplicity(list[1..], id);
      assert list == [list[0]] + list[1..];
      assert multiset(list) == multiset([list[0]]) + multiset(list[1..]);
      var head := if list[0].id == id then [] else [list[0]];
      assert multiset(WithoutId(list, id)) == multiset(head) + multiset(WithoutId(list[1..], id));
    }
  }

  /** Removing an article of the given id does not change what remains without that id. */
  lemma {:induction false} WithoutIdOfRemoval(list: seq<Article>, x: Article, id: int)
    requires x in list && x.id == id
    ensures WithoutId(RemoveFirst(list, x), id) == WithoutId(list, id)
  {
    if list[0] == x {
      assert RemoveFirst(list, x) == list[1..];
    } else {
      var rest := RemoveFirst(list[1..], x);
      assert IndexOf(list, x) == 1 + IndexOf(list[1..], x);
      assert RemoveFirst(list, x) == [list[0]] + rest;
      WithoutIdOfRemoval(list[1..], x, id);
      var l := [list[0]] + rest;
      assert l[0] == list[0] && l[1..] == rest;
    }
  }

  /** Without a matching article the list is left as it is. */
  lemma {:induction false} WithoutAbsentId(list: seq<Article>, id: int)
    requires forall i :: 0 <= i < |list| ==> list[i].id != id
    ensures WithoutId(list, id) == list
  {
    if list != [] {
      WithoutAbsentId(list[1..], id);
    }
  }

  class ArticleStore {
    var articleList: seq<Article>
    var file: FileState<Record>

    constructor Init(list: seq<Article>, disk: FileState<Record>)
      ensures articleList == list && file == disk
    {
      articleList := list;
      file := disk;
    }

    /**
     * `new SerializedArticleDAO(file)`: an absent file gives an empty list, a
     * readable one a list of new objects holding its records, and anything
     * else "Error during deserialization.".
     */
    static method Open(disk: FileState<Record>) returns (r: Result<ArticleStore, StoreError>)
      ensures r.Success? <==> Load(disk).Success?
      ensures r.Failure? ==> r.error == DeserializationError
      ensures r.Success? ==>
        && fresh(r.value) && r.value.file == disk
        && Records(r.value.articleList) == Load(disk).value
        && (forall i :: 0 <= i < |r.value.articleList| ==> fresh(r.value.articleList[i]))
        && DistinctObjects(r.value.articleList)
    {
      var loaded := Load(disk);
      if loaded.Failure? {
        return Failure(DeserializationError);
      }
      var records := loaded.value;
      var list: seq<Article> := [];
      var k := 0;
      while k < |records|
        invariant 0 <= k <= |records| && |list| == k
        invariant forall i :: 0 <= i < k ==> fresh(list[i]) && list[i].Fields() == records[i]
        invariant DistinctObjects(list)
      {
        var a := new Article.FromRecord(records[k]);
        list := list + [a];
        k := k + 1;
      }
      assert Records(list) == records;
      var store := new ArticleStore.Init(list, disk);
      r := Success(store);
    }

    /** `getArticleList()`: the stored objects themselves. */
    function GetArticleList(): (r: seq<Article>)
      reads this
      ensures r == articleList
    {
      articleList
    }

    /** `getArticle(id)`: the first article with that id, or `None` for null. */
    function GetArticle(id: int): (r: Option<Article>)
      reads this, articleList
      ensures r.None? <==> forall i :: 0 <= i < |articleList| ==> articleList[i].id != id
      ensures r.Some? ==> r.value == articleList[FirstWithId(articleList, id).value]
    {
      match FirstWithId(articleList, id)
      case None => None
      case Some(i) => Some(articleList[i])
    }

    /** `saveArticle`: the file is truncated first, then a taken id is refused. */
    method SaveArticle(article: Article) returns (r: Outcome<StoreError>)
      modifies this`articleList, this`file
      ensures old(GetArticle(article.id)).Some? ==>
        r == Fail(SerializationError) && articleList == old(articleList) && file == HeaderOnly
      ensures old(GetArticle(article.id)).None? ==>
        r == Pass && articleList == old(articleList) + [article] && file == Snapshot(Records(articleList))
    {
      var taken := GetArticle(article.id).Some?;
      file := HeaderOnly;
      if taken {
        return Fail(SerializationError);
      }
      var list := articleList + [article];
      var records := Records(list);
      articleList := list;
      file := Snapshot(records);
      r := Pass;
    }

    /**
     * `deleteArticle`: the file is truncated first, then an absent id is
     * refused; otherwise the found object is removed and the search repeated
     * until no article has the id (the do-while loop, run here as a while loop
     * whose first test is the check that already passed).
     */
    method DeleteArticle(id: int) returns (r: Outcome<StoreError>)
      modifies this`articleList, this`file
      ensures old(GetArticle(id)).None? ==>
        r == Fail(SerializationError) && articleList == old(articleList) && file == HeaderOnly
      ensures old(GetArticle(id)).Some? ==>
        r == Pass && articleList == old(WithoutId(articleList, id)) && file == Snapshot(Records(articleList))
    {
      var list := articleList;
      var found := FirstWithId(list, id);
      assert found.None? <==> old(GetArticle(id)).None?;
      file := HeaderOnly;
      if found.None? {
        return Fail(SerializationError);
      }
      ghost var remaining := WithoutId(list, id);
      while found.Some?
        invariant WithoutId(list, id) == remaining
        invariant found == FirstWithId(list, id)
        decreases |list|
      {
        var article := list[found.value];
        WithoutIdOfRemoval(list, article, id);
        list := RemoveFirst(list, article);
        found := FirstWithId(list, id);
      }
      WithoutAbsentId(list, id);
      var records := Records(list);
      articleList := list;
      file := Snapshot(records);
      r := Pass;
    }
  }

  /**
   * Saving a second article with a stored id leaves a file that no longer
   * reads back: the stored list is lost.
   */
  method DuplicateSaveLosesList(stored: Record) returns (reopened: Result<ArticleStore, StoreError>)
    ensures reopened == Failure(DeserializationError)
  {
    var first := ArticleStore.Open(Snapshot([stored]));
    var store := first.value;
    assert store.articleList[0].id == stored.id;
    var duplicate := new Article.FromRecord(stored);
    var outcome := store.SaveArticle(duplicate);
    reopened := ArticleStore.Open(store.file);
  }
}
