/**
 * The articles mapper (class PccArticlesMapper): an SDK article becomes the
 * array of its properties, and a page of articles becomes the list of those
 * arrays in the same order.
 */
module ArticlesMapper {
  import opened Php

  /** An SDK article: its public properties, name and value, in declaration order. */
  datatype Article = Article(properties: seq<Pair<string, Value>>)

  /** A page of articles as the SDK returns it; only its `articles` are read. */
  datatype PaginatedArticles = PaginatedArticles(articles: seq<Article>)

  /** An object never has two properties of the same name. */
  predicate DistinctNames(a: Article) {
    forall i, j :: 0 <= i < j < |a.properties| ==> a.properties[i].key != a.properties[j].key
  }

  /**
   * `toArticleData`: the `(array)` cast of the article, which depends on the
   * article alone. Every property gives one entry, in order, under the key
   * PHP makes of the property name.
   */
  function ToArticleData(a: Article): (data: Value)
    ensures data.Arr? && |data.entries| == |a.properties|
    ensures forall i :: 0 <= i < |a.properties| ==>
      data.entries[i] == Pair(KeyOfString(a.properties[i].key), a.properties[i].val)
  {
    Arr(PairsOf(a.properties, (p: Pair<string, Value>) => KeyOfString(p.key), (p: Pair<string, Value>) => p.val))
  }

  /** Reading a property's name in the array gives the property's value. */
  lemma {:induction false} ArticleDataHoldsProperty(a: Article, i: int)
    requires DistinctNames(a)
    requires 0 <= i < |a.properties|
    ensures Get(ToArticleData(a), KeyOfString(a.properties[i].key)) == a.properties[i].val
  {
    var entries := ToArticleData(a).entries;
    var k := KeyOfString(a.properties[i].key);
    assert HasKey(entries, k) by {
      assert entries[i].key == k;
    }
    // The last entry with the key is the property's own: two properties whose
    // names give the same key have the same name.
    var last := LastIndexOf(entries, k);
    KeyOfStringInjective(a.properties[last].key, a.properties[i].key);
    assert last == i;
  }

  /**
   * `toArticlesList`: one array per article of the page, in the page's
   * order; an empty page gives the empty list.
   */
  method ToArticlesList(page: PaginatedArticles) returns (list: seq<Value>)
    ensures |list| == |page.articles|
    ensures forall i :: 0 <= i < |list| ==> list[i] == ToArticleData(page.articles[i])
  {
    list := [];
    for i := 0 to |page.articles|
      invariant |list| == i
      invariant forall j :: 0 <= j < i ==> list[j] == ToArticleData(page.articles[j])
    {
      list := list + [ToArticleData(page.articles[i])];
    }
  }
}
