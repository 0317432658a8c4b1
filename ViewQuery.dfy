/**
 * The Views query backend of the plugin (class PccSiteViewQuery): it records
 * the fields and WHERE conditions a view asks for, renders them into a
 * GraphQL-like query document, picks one call of the articles service, and
 * turns the API's article records into result rows.
 */
module ViewQuery {
  import opened Php

  /** One WHERE condition, as `addWhere` stores it. */
  datatype Condition = Condition(field: string, value: Value, operator: Value)

  /** A WHERE group, as `setWhereGroup` creates it: its conjunction and its conditions. */
  datatype WhereGroup = WhereGroup(conjunction: string, conditions: seq<Condition>)

  /** An article record as the API returns it: field name to value, in API order. */
  type Record = seq<Pair<string, Value>>

  /** A result row (the property bag of a Views ResultRow). */
  type Row = map<string, Value>

  /** The credentials read from the PCC site entity the view is based on. */
  datatype Site = Site(siteKey: string, siteToken: string)

  /** A call of the articles service. */
  datatype Request =
    | GetArticle(slugOrId: string, siteKey: string, siteToken: string, kind: string)
    | GetAllArticles(siteKey: string, siteToken: string)

  /**
   * The parts of the service's response that `execute` reads: the list
   * under `data.articles` and the single record under `data.article`,
   * each absent when not set.
   */
  datatype Response = Response(articles: Option<seq<Record>>, article: Option<Record>)

  /** What one call of the service does: throw, or return a response. */
  datatype Outcome = Throws(message: string) | Returns(response: Response)

  /** The argument list always opens with the content type argument. */
  const ContentTypeArgument: string := "( \n  contentType: TREE_PANTHEON_V2"

  /** The two record fields that hold millisecond timestamps. */
  predicate IsTimestampField(name: string) {
    name == "publishedDate" || name == "updatedAt"
  }

  // ----------------------------------------------------------------------
  // Fields and WHERE conditions
  // ----------------------------------------------------------------------

  /** `$this->fields[$field] = $field` on the field names in insertion order. */
  function WithField(fields: seq<string>, field: string): (r: seq<string>)
    ensures field in r
    ensures forall f :: f in r <==> f in fields || f == field
    ensures |r| == if field in fields then |fields| else |fields| + 1
    ensures forall i :: 0 <= i < |fields| ==> r[i] == fields[i]
    ensures Distinct(fields) ==> Distinct(r)
  {
    if field in fields then fields else fields + [field]
  }

  /** The group `addWhere` files a condition under: every empty group becomes group 0. */
  function GroupKey(group: Value): (k: Key)
    requires group.Arr? ==> !Truthy(group)
    ensures !Truthy(group) ==> k == IntKey(0)
    ensures group.Int? ==> k == IntKey(group.i)
    ensures group == Bool(true) ==> k == IntKey(1)
    ensures group.Str? && Truthy(group) ==> k == KeyOfString(group.s)
  {
    if !Truthy(group) then IntKey(0) else KeyOf(group)
  }

  /**
   * Appends a condition to the end of a group, creating the group (an
   * empty AND group, at the end of the group order) when it is absent.
   */
  function WithCondition(where: OMap<Key, WhereGroup>, g: Key, c: Condition): (r: OMap<Key, WhereGroup>)
    ensures where.Valid() ==> r.Valid()
    ensures g in r.vals
    ensures g in where.vals ==> r.keys == where.keys
    ensures g !in where.vals ==> r.keys == where.keys + [g]
    ensures r.vals[g].conditions == (if g in where.vals then where.vals[g].conditions else []) + [c]
    ensures r.vals[g].conjunction == if g in where.vals then where.vals[g].conjunction else "AND"
    ensures forall h :: h != g ==> (h in r.vals <==> h in where.vals)
    ensures forall h :: h != g && h in where.vals ==> r.vals[h] == where.vals[h]
  {
    var group := if g in where.vals then where.vals[g] else WhereGroup("AND", []);
    where.Put(g, group.(conditions := group.conditions + [c]))
  }

  /** The conditions of group `k` (none when there is no such group). */
  function ConditionsOf(groups: map<Key, WhereGroup>, k: Key): seq<Condition> {
    if k in groups then groups[k].conditions else []
  }

  /** The conditions of the groups `keys`, group by group, each group in its own order. */
  function Flatten(keys: seq<Key>, groups: map<Key, WhereGroup>): seq<Condition> {
    if keys == [] then []
    else Flatten(keys[..|keys| - 1], groups) + ConditionsOf(groups, keys[|keys| - 1])
  }

  function AllConditions(where: OMap<Key, WhereGroup>): seq<Condition>
    requires where.Valid()
  {
    Flatten(where.keys, where.vals)
  }

  // ----------------------------------------------------------------------
  // The query document
  // ----------------------------------------------------------------------

  /** One argument line: the field with its dots removed, then the value as PHP interpolates it. */
  function Argument(c: Condition): string {
    "\n  " + RemoveChar(c.field, '.') + ": " + StringOf(c.value) + "\n"
  }

  function Arguments(cs: seq<Condition>): string {
    ConcatMap(Argument, cs)
  }

  /** The selection: the field names in insertion order, one per line. */
  function Selection(fields: seq<string>): string {
    if |fields| == 0 then ""
    else if |fields| == 1 then fields[0]
    else Selection(fields[..|fields| - 1]) + "\n  " + fields[|fields| - 1]
  }

  /** The root of the document: singular as soon as any contextual filter was recorded. */
  function RootName(contextualFilters: map<string, Value>): string {
    if |contextualFilters| == 0 then "articles" else "article"
  }

  /** The document `query()` returns. */
  function Document(fields: seq<string>, where: OMap<Key, WhereGroup>, contextualFilters: map<string, Value>): string
    requires where.Valid()
  {
    RootName(contextualFilters) + " " + ArgumentList(where) + " {\n  " + Selection(fields) + "\n}"
  }

  /** The parenthesised argument list: the content type, then one line per condition. */
  function ArgumentList(where: OMap<Key, WhereGroup>): string
    requires where.Valid()
  {
    ContentTypeArgument + Arguments(AllConditions(where)) + ")"
  }

  /** Two condition lists with the same fields and values give the same arguments. */
  predicate SameFieldsAndValues(a: seq<Condition>, b: seq<Condition>) {
    |a| == |b| && forall i :: 0 <= i < |a| ==> a[i].field == b[i].field && a[i].value == b[i].value
  }

  /** Operators never reach the document. */
  lemma {:induction false} ArgumentsIgnoreOperators(a: seq<Condition>, b: seq<Condition>)
    requires SameFieldsAndValues(a, b)
    ensures Arguments(a) == Arguments(b)
  {
    if a != [] {
      ArgumentsIgnoreOperators(a[..|a| - 1], b[..|b| - 1]);
    }
  }

  /**
   * Group structure, group conjunctions and operators never reach the
   * document: only the flattened fields and values do.
   */
  lemma DocumentIgnoresOperatorsAndGroups(fields: seq<string>, w1: OMap<Key, WhereGroup>, w2: OMap<Key, WhereGroup>, cf: map<string, Value>)
    requires w1.Valid() && w2.Valid()
    requires SameFieldsAndValues(AllConditions(w1), AllConditions(w2))
    ensures Document(fields, w1, cf) == Document(fields, w2, cf)
  {
    ArgumentsIgnoreOperators(AllConditions(w1), AllConditions(w2));
  }

  lemma {:induction false} FlattenNewLastGroup(keys: seq<Key>, groups: map<Key, WhereGroup>, g: Key, group: WhereGroup)
    requires g !in keys
    ensures Flatten(keys + [g], groups[g := group]) == Flatten(keys, groups) + group.conditions
  {
    FlattenOtherGroupUpdate(keys, groups, g, group);
    assert (keys + [g])[..|keys|] == keys;
  }

  lemma {:induction false} FlattenOtherGroupUpdate(keys: seq<Key>, groups: map<Key, WhereGroup>, g: Key, group: WhereGroup)
    requires g !in keys
    ensures Flatten(keys, groups[g := group]) == Flatten(keys, groups)
  {
    if keys != [] {
      FlattenOtherGroupUpdate(keys[..|keys| - 1], groups, g, group);
    }
  }

  /**
   * A condition filed under a new group, or under the group that was added
   * last, becomes the last argument of the document.
   */
  lemma ConditionInLastGroupIsLastArgument(where: OMap<Key, WhereGroup>, g: Key, c: Condition)
    requires where.Valid()
    requires g !in where.vals || (where.keys != [] && where.keys[|where.keys| - 1] == g)
    ensures AllConditions(WithCondition(where, g, c)) == AllConditions(where) + [c]
  {
    if g !in where.vals {
      ConditionInNewGroup(where, g, c);
    } else {
      ConditionInExistingLastGroup(where, g, c);
    }
  }

  lemma ConditionInNewGroup(where: OMap<Key, WhereGroup>, g: Key, c: Condition)
    requires where.Valid() && g !in where.vals
    ensures AllConditions(WithCondition(where, g, c)) == AllConditions(where) + [c]
  {
    var r := WithCondition(where, g, c);
    var group := r.vals[g];
    assert r == OMap(where.keys + [g], where.vals[g := group]);
    FlattenNewLastGroup(where.keys, where.vals, g, group);
  }

  lemma ConditionInExistingLastGroup(where: OMap<Key, WhereGroup>, g: Key, c: Condition)
    requires where.Valid() && g in where.vals
    requires where.keys != [] && where.keys[|where.keys| - 1] == g
    ensures AllConditions(WithCondition(where, g, c)) == AllConditions(where) + [c]
  {
    var r := WithCondition(where, g, c);
    var init := where.keys[..|where.keys| - 1];
    forall i | 0 <= i < |init| ensures init[i] != g {
      assert init[i] == where.keys[i];
    }
    assert where.keys == init + [g];
    var group := where.vals[g];
    assert r == OMap(init + [g], where.vals[g := group.(conditions := group.conditions + [c])]);
    FlattenGrowLastGroup(init, where.vals, g, c);
  }

  lemma FlattenGrowLastGroup(init: seq<Key>, groups: map<Key, WhereGroup>, g: Key, c: Condition)
    requires g !in init && g in groups
    ensures Flatten(init + [g], groups[g := groups[g].(conditions := groups[g].conditions + [c])])
         == Flatten(init + [g], groups) + [c]
  {
    var front := Flatten(init, groups);
    var old_g := groups[g];
    var new_g := old_g.(conditions := old_g.conditions + [c]);
    FlattenNewLastGroup(init, groups, g, new_g);
    FlattenNewLastGroup(init, groups, g, old_g);
    assert groups[g := old_g] == groups;
    assert front + (old_g.conditions + [c]) == (front + old_g.conditions) + [c];
  }

  /**
   * So filing a condition under a new group, or under the last group, adds
   * exactly its own argument line at the end of the arguments.
   */
  lemma ConditionInLastGroupAddsOneLine(where: OMap<Key, WhereGroup>, g: Key, c: Condition)
    requires where.Valid()
    requires g !in where.vals || (where.keys != [] && where.keys[|where.keys| - 1] == g)
    ensures WithCondition(where, g, c).Valid()
    ensures Arguments(AllConditions(WithCondition(where, g, c))) == Arguments(AllConditions(where)) + Argument(c)
  {
    ConditionInLastGroupIsLastArgument(where, g, c);
    ConcatMapSnoc(Argument, AllConditions(where), c);
  }

  /** The root name is `article` exactly when a contextual filter was recorded, and `articles` otherwise. */
  lemma DocumentRoot(fields: seq<string>, where: OMap<Key, WhereGroup>, cf: map<string, Value>)
    requires where.Valid()
    ensures StartsWith(Document(fields, where, cf), "article ") <==> |cf| > 0
    ensures StartsWith(Document(fields, where, cf), "articles ") <==> |cf| == 0
    ensures StartsWith(Document(fields, where, cf), RootName(cf) + " " + ContentTypeArgument)
  {
    var d := Document(fields, where, cf);
    if |cf| > 0 {
      assert d[..8] == "article ";
      assert d[..9] != "articles " by { assert d[7] == ' '; }
    } else {
      assert d[..9] == "articles ";
      assert d[..8] != "article " by { assert d[7] == 's'; }
    }
    var head := RootName(cf) + " " + ContentTypeArgument;
    assert d[..|head|] == head;
  }

  // ----------------------------------------------------------------------
  // Choosing the service call
  // ----------------------------------------------------------------------

  /** PHP's `isset($m[$k])`: present and not NULL. */
  predicate IsSet(m: map<string, Value>, k: string) {
    k in m && m[k] != Null
  }

  /** The one call `execute` makes: by slug, else by id, else the whole list. */
  function RequestFor(cf: map<string, Value>, site: Site): (r: Request)
    ensures r.GetArticle? <==> IsSet(cf, "slug") || IsSet(cf, "id")
    ensures r.GetArticle? ==> r.kind == (if IsSet(cf, "slug") then "slug" else "id")
    ensures r.GetArticle? ==> r.slugOrId == StringOf(cf[r.kind])
    ensures r.siteKey == site.siteKey && r.siteToken == site.siteToken
  {
    if IsSet(cf, "slug") then GetArticle(StringOf(cf["slug"]), site.siteKey, site.siteToken, "slug")
    else if IsSet(cf, "id") then GetArticle(StringOf(cf["id"]), site.siteKey, site.siteToken, "id")
    else GetAllArticles(site.siteKey, site.siteToken)
  }

  /**
   * A contextual filter other than slug or id makes the document singular
   * while `execute` still asks for the whole list.
   */
  lemma OtherContextualFilterKeepsListRequest(cf: map<string, Value>, site: Site, fields: seq<string>, where: OMap<Key, WhereGroup>)
    requires where.Valid()
    requires |cf| > 0 && !IsSet(cf, "slug") && !IsSet(cf, "id")
    ensures StartsWith(Document(fields, where, cf), "article ")
    ensures RequestFor(cf, site).GetAllArticles?
  {
    DocumentRoot(fields, where, cf);
  }

  // ----------------------------------------------------------------------
  // Rows
  // ----------------------------------------------------------------------

  /**
   * Timestamps go from milliseconds to whole seconds, truncating toward zero
   * (a non-timestamp value that casts to 0, NULL included, gives 0); other
   * values are kept.
   */
  function ConvertValue(name: string, v: Value): (r: Value)
    ensures IsTimestampField(name) ==> r == Int(TruncDiv(ToInt(v), 1000))
    ensures IsTimestampField(name) && ToInt(v) >= 0 ==> 0 <= r.i && r.i * 1000 <= ToInt(v) < r.i * 1000 + 1000
    ensures IsTimestampField(name) && ToInt(v) < 0 ==> r.i <= 0 && r.i * 1000 - 1000 < ToInt(v) <= r.i * 1000
    ensures !IsTimestampField(name) ==> r == v
  {
    if IsTimestampField(name) then Int(TruncDiv(ToInt(v), 1000)) else v
  }

  /** Writes every entry of `rec` whose key is a requested field into `row`, converted. */
  function MergeRecord(row: Row, fields: seq<string>, rec: Record): Row {
    if rec == [] then row
    else
      var r := MergeRecord(row, fields, rec[..|rec| - 1]);
      var e := rec[|rec| - 1];
      if e.key in fields then r[e.key := ConvertValue(e.key, e.val)] else r
  }

  lemma {:induction false} MergeRecordKeys(row: Row, fields: seq<string>, rec: Record, k: string)
    ensures k in MergeRecord(row, fields, rec) <==> k in row || (k in fields && HasKey(rec, k))
  {
    if rec != [] {
      MergeRecordKeys(row, fields, rec[..|rec| - 1], k);
      HasKeySplit(rec, k);
    }
  }

  lemma {:induction false} MergeRecordValue(row: Row, fields: seq<string>, rec: Record, k: string)
    requires k in fields
    ensures Lookup(rec, k).Some? ==>
      k in MergeRecord(row, fields, rec) && MergeRecord(row, fields, rec)[k] == ConvertValue(k, Lookup(rec, k).value)
    ensures Lookup(rec, k).None? && k in row ==>
      k in MergeRecord(row, fields, rec) && MergeRecord(row, fields, rec)[k] == row[k]
  {
    if rec != [] {
      MergeRecordValue(row, fields, rec[..|rec| - 1], k);
    }
  }

  /** The row variable after `renderMultipleArticles` has handled `articles`: it is never reset. */
  function RowAfter(fields: seq<string>, articles: seq<Record>): Row {
    if articles == [] then map[]
    else
      MergeRecord(RowAfter(fields, articles[..|articles| - 1]), fields, articles[|articles| - 1])
        ["index" := Int(|articles| - 1)]
  }

  /** The rows `renderMultipleArticles` appends, one per article. */
  function ListRows(fields: seq<string>, articles: seq<Record>): seq<Row> {
    if articles == [] then []
    else ListRows(fields, articles[..|articles| - 1]) + [RowAfter(fields, articles)]
  }

  /** The row `renderSingleArticle` builds for one record. */
  function SingleRow(fields: seq<string>, rec: Record): Row {
    MergeRecord(map[], fields, rec)["index" := Int(0)]
  }

  predicate SharesField(fields: seq<string>, rec: Record) {
    exists i :: 0 <= i < |rec| && rec[i].key in fields
  }

  /** The rows `renderSingleArticle` appends: one, only when some key is a requested field. */
  function SingleRows(fields: seq<string>, rec: Record): seq<Row> {
    if SharesField(fields, rec) then [SingleRow(fields, rec)] else []
  }

  /** The rows a successful response yields: the list first, then the single article. */
  function ResponseRows(fields: seq<string>, response: Response): seq<Row> {
    (if response.articles.Some? then ListRows(fields, response.articles.value) else [])
    + (if response.article.Some? then SingleRows(fields, response.article.value) else [])
  }

  /** One row per article, in API order, the i-th with index i. */
  lemma ListRowsShape(fields: seq<string>, articles: seq<Record>)
    ensures |ListRows(fields, articles)| == |articles|
    ensures forall i :: 0 <= i < |articles| ==> ListRows(fields, articles)[i] == RowAfter(fields, articles[..i + 1])
    ensures forall i :: 0 <= i < |articles| ==> "index" in ListRows(fields, articles)[i] && ListRows(fields, articles)[i]["index"] == Int(i)
  {
    ListRowsAfter(fields, articles);
    forall i | 0 <= i < |articles|
      ensures "index" in RowAfter(fields, articles[..i + 1]) && RowAfter(fields, articles[..i + 1])["index"] == Int(i)
    {
      assert |articles[..i + 1]| == i + 1;
    }
  }

  /** The i-th row is the row variable after the first i + 1 articles. */
  lemma {:induction false} ListRowsAfter(fields: seq<string>, articles: seq<Record>)
    ensures |ListRows(fields, articles)| == |articles|
    ensures forall i :: 0 <= i < |articles| ==> ListRows(fields, articles)[i] == RowAfter(fields, articles[..i + 1])
  {
    if articles != [] {
      var init := articles[..|articles| - 1];
      ListRowsAfter(fields, init);
      forall i | 0 <= i < |articles| ensures ListRows(fields, articles)[i] == RowAfter(fields, articles[..i + 1]) {
        if i < |init| {
          assert init[..i + 1] == articles[..i + 1];
        } else {
          assert articles[..i + 1] == articles;
        }
      }
    }
  }

  predicate SomeArticleHas(articles: seq<Record>, k: string) {
    exists j :: 0 <= j < |articles| && HasKey(articles[j], k)
  }

  /**
   * A row holds `index` and exactly the requested fields that this article
   * or an earlier one carried: keys of earlier articles persist.
   */
  lemma {:induction false} RowAfterKeys(fields: seq<string>, articles: seq<Record>, k: string)
    requires articles != []
    ensures k in RowAfter(fields, articles) <==> k == "index" || (k in fields && SomeArticleHas(articles, k))
  {
    var init := articles[..|articles| - 1];
    var last := articles[|articles| - 1];
    MergeRecordKeys(RowAfter(fields, init), fields, last, k);
    if init != [] {
      RowAfterKeys(fields, init, k);
    }
    if SomeArticleHas(init, k) {
      var j :| 0 <= j < |init| && HasKey(init[j], k);
      assert articles[j] == init[j];
    }
    if SomeArticleHas(articles, k) {
      var j :| 0 <= j < |articles| && HasKey(articles[j], k);
      if j < |init| {
        assert init[j] == articles[j];
      }
    }
  }

  /**
   * A requested field other than `index` holds, converted, the value of the
   * latest article (up to this one) that carries it.
   */
  lemma {:induction false} RowAfterLatestValue(fields: seq<string>, articles: seq<Record>, k: string, j: int)
    requires k in fields && k != "index"
    requires 0 <= j < |articles| && HasKey(articles[j], k)
    requires forall m :: j < m < |articles| ==> !HasKey(articles[m], k)
    ensures k in RowAfter(fields, articles)
    ensures Lookup(articles[j], k).Some?
    ensures RowAfter(fields, articles)[k] == ConvertValue(k, Lookup(articles[j], k).value)
  {
    var init := articles[..|articles| - 1];
    var last := articles[|articles| - 1];
    RowAfterKeys(fields, articles, k);
    assert SomeArticleHas(articles, k);
    MergeRecordValue(RowAfter(fields, init), fields, last, k);
    if j < |articles| - 1 {
      assert !HasKey(last, k);
      LookupFinds(last, k);
      assert init[j] == articles[j];
      forall m | j < m < |init| ensures !HasKey(init[m], k) {
        assert init[m] == articles[m];
      }
      RowAfterLatestValue(fields, init, k, j);
    } else {
      LookupFinds(last, k);
    }
  }

  /** Rendering a single article gives the same row as rendering a one-article list. */
  lemma SingleRowIsFirstListRow(fields: seq<string>, rec: Record)
    ensures ListRows(fields, [rec]) == [SingleRow(fields, rec)]
  {
    assert [rec][..0] == [];
    assert RowAfter(fields, [rec]) == MergeRecord(RowAfter(fields, []), fields, rec)["index" := Int(0)];
    assert ListRows(fields, [rec]) == ListRows(fields, []) + [RowAfter(fields, [rec])];
  }

  /** The single row holds `index` 0 and exactly the requested fields the record carries. */
  lemma SingleRowKeys(fields: seq<string>, rec: Record, k: string)
    ensures k in SingleRow(fields, rec) <==> k == "index" || (k in fields && HasKey(rec, k))
    ensures SingleRow(fields, rec)["index"] == Int(0)
  {
    MergeRecordKeys(map[], fields, rec, k);
  }

  /** The six keys `toRow` copies. */
  const ToRowKeys: set<string> := {"id", "title", "content", "snippet", "publishedDate", "updatedAt"}

  /** `$article[$k]`: the value, or NULL for a missing key. */
  function ValueAt(rec: Record, k: string): Value {
    match Lookup(rec, k)
    case Some(v) => v
    case None => Null
  }

  /**
   * `toRow`: the six fixed keys, with the timestamps converted as the
   * render methods convert them, and the given index.
   */
  function ToRow(article: Record, index: int): (r: Row)
    ensures r.Keys == ToRowKeys + {"index"}
    ensures r["index"] == Int(index)
    ensures forall k :: k in ToRowKeys ==> r[k] == ConvertValue(k, ValueAt(article, k))
  {
    map[
      "id" := ValueAt(article, "id"),
      "title" := ValueAt(article, "title"),
      "content" := ValueAt(article, "content"),
      "snippet" := ValueAt(article, "snippet"),
      "publishedDate" := Int(TruncDiv(ToInt(ValueAt(article, "publishedDate")), 1000)),
      "updatedAt" := Int(TruncDiv(ToInt(ValueAt(article, "updatedAt")), 1000)),
      "index" := Int(index)
    ]
  }

  /**
   * What `toRow` puts under each of its keys: a key the article lacks gives
   * NULL, except a timestamp, which the cast and `intdiv` turn into 0; a key
   * the article has gives its value, a timestamp converted to seconds.
   */
  lemma ToRowValues(article: Record, index: int, k: string)
    requires k in ToRowKeys
    ensures !HasKey(article, k) ==> ToRow(article, index)[k] == (if IsTimestampField(k) then Int(0) else Null)
    ensures HasKey(article, k) && !IsTimestampField(k) ==> Lookup(article, k) == Some(ToRow(article, index)[k])
    ensures HasKey(article, k) && IsTimestampField(k) ==>
      Lookup(article, k).Some? && ToRow(article, index)[k] == ConvertValue(k, Lookup(article, k).value)
  {
    LookupFinds(article, k);
  }

  /**
   * When exactly the six keys are requested and the record carries them
   * all, `toRow` and `renderSingleArticle` build the same row.
   */
  lemma ToRowAgreesWithSingleRow(fields: seq<string>, rec: Record)
    requires forall f :: f in fields <==> f in ToRowKeys
    requires forall k :: k in ToRowKeys ==> HasKey(rec, k)
    ensures SingleRow(fields, rec) == ToRow(rec, 0)
  {
    var s := SingleRow(fields, rec);
    var t := ToRow(rec, 0);
    forall k ensures k in s <==> k in t {
      SingleRowKeys(fields, rec, k);
    }
    forall k | k in s ensures s[k] == t[k] {
      SingleRowKeys(fields, rec, k);
      if k != "index" {
        MergeRecordValue(map[], fields, rec, k);
        LookupFinds(rec, k);
      }
    }
  }

  // ----------------------------------------------------------------------
  // Retrying a failing service
  // ----------------------------------------------------------------------

  /**
   * `execute` as written: on an exception it calls itself again, with no
   * bound. `fuel` bounds the recursion; the result is the number of calls
   * made and the response, or None when the fuel ran out first.
   */
  function AttemptsAsWritten(service: (Request, nat) -> Outcome, req: Request, attempt: nat, fuel: nat): Option<(nat, Response)>
    decreases fuel
  {
    if fuel == 0 then None
    else match service(req, attempt)
      case Returns(response) => Some((attempt + 1, response))
      case Throws(_) => AttemptsAsWritten(service, req, attempt + 1, fuel - 1)
  }

  /** A service that always throws keeps `execute` recursing past every bound. */
  lemma {:induction false} FailingServiceRecursesForever(service: (Request, nat) -> Outcome, req: Request, attempt: nat, fuel: nat)
    requires forall n :: service(req, n).Throws?
    ensures AttemptsAsWritten(service, req, attempt, fuel) == None
    decreases fuel
  {
    if fuel > 0 {
      FailingServiceRecursesForever(service, req, attempt + 1, fuel - 1);
    }
  }

  /** The intended policy: one retry after a failure, then give up with no rows. */
  function RetryOnce(service: (Request, nat) -> Outcome, req: Request): (r: (nat, Option<Response>))
    ensures 1 <= r.0 <= 2
    ensures r.0 == 2 <==> service(req, 0).Throws?
    ensures r.1.None? <==> service(req, 0).Throws? && service(req, 1).Throws?
  {
    match service(req, 0)
    case Returns(response) => (1, Some(response))
    case Throws(_) =>
      match service(req, 1)
      case Returns(response) => (2, Some(response))
      case Throws(_) => (2, None)
  }

  /** Whenever the unbounded recursion succeeds within two calls, retrying once gives the same outcome. */
  lemma RetryOnceAgreesWithinTwoCalls(service: (Request, nat) -> Outcome, req: Request, fuel: nat, calls: nat, response: Response)
    requires AttemptsAsWritten(service, req, 0, fuel) == Some((calls, response))
    requires calls <= 2
    ensures RetryOnce(service, req) == (calls, Some(response))
  {
    if service(req, 0).Throws? {
      assert fuel >= 2;
      if service(req, 1).Throws? {
        AttemptsFromLaterCallCount(service, req, 2, fuel - 2);
        assert false;
      }
    }
  }

  lemma {:induction false} AttemptsFromLaterCallCount(service: (Request, nat) -> Outcome, req: Request, attempt: nat, fuel: nat)
    ensures match AttemptsAsWritten(service, req, attempt, fuel)
      case Some(p) => p.0 > attempt
      case None => true
    decreases fuel
  {
    if fuel > 0 && service(req, attempt).Throws? {
      AttemptsFromLaterCallCount(service, req, attempt + 1, fuel - 1);
    }
  }

  // ----------------------------------------------------------------------
  // Aborting
  // ----------------------------------------------------------------------

  function AbortErrors(errors: seq<Value>, msg: Value): (r: seq<Value>)
    ensures Truthy(msg) ==> r == errors + [msg]
    ensures !Truthy(msg) ==> r == errors
  {
    if Truthy(msg) then errors + [msg] else errors
  }

  /**
   * `abort` as written: once the query string is set it calls itself again,
   * forever. Returns the error list, or None when `fuel` ran out.
   */
  function AbortAsWritten(errors: seq<Value>, msg: Value, querySet: bool, fuel: nat): Option<seq<Value>>
    decreases fuel
  {
    if fuel == 0 then None
    else if querySet then AbortAsWritten(AbortErrors(errors, msg), msg, querySet, fuel - 1)
    else Some(AbortErrors(errors, msg))
  }

  /** After the query string is set, no amount of fuel lets `abort` return. */
  lemma {:induction false} AbortNeverReturnsOnceQuerySet(errors: seq<Value>, msg: Value, fuel: nat)
    ensures AbortAsWritten(errors, msg, true, fuel) == None
    decreases fuel
  {
    if fuel > 0 {
      AbortNeverReturnsOnceQuerySet(AbortErrors(errors, msg), msg, fuel - 1);
    }
  }

  // ----------------------------------------------------------------------
  // The query plugin
  // ----------------------------------------------------------------------

  /** The nested loops of `query()` over the groups and their conditions: one argument line per condition. */
  method BuildArguments(keys: seq<Key>, groups: map<Key, WhereGroup>) returns (arguments: string)
    ensures arguments == Arguments(Flatten(keys, groups))
  {
    arguments := "";
    var gi := 0;
    while gi < |keys|
      invariant 0 <= gi <= |keys|
      invariant arguments == Arguments(Flatten(keys[..gi], groups))
    {
      var conditions := ConditionsOf(groups, keys[gi]);
      assert Flatten(keys[..gi + 1], groups) == Flatten(keys[..gi], groups) + conditions by {
        assert keys[..gi + 1][..gi] == keys[..gi];
      }
      arguments := AppendArguments(arguments, Flatten(keys[..gi], groups), conditions);
      gi := gi + 1;
    }
    assert keys[..gi] == keys;
  }

  lemma ArgumentsTakeSnoc(before: seq<Condition>, conditions: seq<Condition>, i: int)
    requires 0 <= i < |conditions|
    ensures Arguments(before + conditions[..i + 1]) == Arguments(before + conditions[..i]) + Argument(conditions[i])
  {
    AppendTakeSnoc(before, conditions, i);
    ConcatMapSnoc(Argument, before + conditions[..i], conditions[i]);
  }

  /** The inner loop of `query()`: the argument lines of one group appended to those before it. */
  method AppendArguments(arguments: string, ghost before: seq<Condition>, conditions: seq<Condition>) returns (r: string)
    requires arguments == Arguments(before)
    ensures r == Arguments(before + conditions)
  {
    r := arguments;
    var ci := 0;
    assert before + conditions[..0] == before;
    while ci < |conditions|
      invariant 0 <= ci <= |conditions|
      invariant r == Arguments(before + conditions[..ci])
    {
      ArgumentsTakeSnoc(before, conditions, ci);
      r := r + Argument(conditions[ci]);
      ci := ci + 1;
    }
    assert conditions[..ci] == conditions;
  }

  /** The loop of `query()` over the fields: one field name per line. */
  method BuildSelection(fields: seq<string>) returns (selection: string)
    ensures selection == Selection(fields)
  {
    selection := "";
    var index := 0;
    while index < |fields|
      invariant 0 <= index <= |fields|
      invariant selection == Selection(fields[..index])
    {
      assert fields[..index + 1][..index] == fields[..index];
      if index > 0 {
        selection := selection + "\n  " + fields[index];
      } else {
        selection := selection + fields[index];
      }
      index := index + 1;
    }
    assert fields[..index] == fields;
  }

  class SiteViewQuery {
    /** The requested fields, in insertion order (the source keeps `$fields[$f] = $f`). */
    var fields: seq<string>
    /** The WHERE groups, keyed by group id, in insertion order. */
    var where: OMap<Key, WhereGroup>
    /** Group-0 condition values keyed by dot-free field name. */
    var contextualFilters: map<string, Value>
    /** The rows of the view the query fills (`$view->result`). */
    var result: seq<Row>
    var siteKey: string
    var siteToken: string
    var errors: seq<Value>
    var aborted: bool

    ghost predicate Valid()
      reads this
    {
      Distinct(fields) && where.Valid()
    }

    constructor ()
      ensures Valid()
      ensures fields == [] && where == EmptyMap() && contextualFilters == map[]
      ensures result == [] && errors == [] && !aborted
      ensures siteKey == "" && siteToken == ""
    {
      fields := [];
      where := EmptyMap();
      contextualFilters := map[];
      result := [];
      siteKey := "";
      siteToken := "";
      errors := [];
      aborted := false;
    }

    /** `ensureTable`: this backend has no tables to join. */
    method EnsureTable() returns (alias: string)
      ensures alias == ""
    {
      alias := "";
    }

    /** `addField`: table, alias and params are ignored; the field is its own name. */
    method AddField(table: Value, field: string, alias: string, params: Value) returns (name: string)
      requires Valid()
      modifies this`fields
      ensures Valid()
      ensures name == field
      ensures fields == WithField(old(fields), field)
    {
      fields := WithField(fields, field);
      name := field;
    }

    /**
     * `addWhere`: an empty group becomes group 0 and also records the value
     * as a contextual filter; the condition goes at the end of its group.
     */
    method AddWhere(group: Value, field: string, value: Value, operator: Value)
      requires Valid()
      requires group.Arr? ==> !Truthy(group)
      modifies this`where, this`contextualFilters
      ensures Valid()
      ensures where == WithCondition(old(where), GroupKey(group), Condition(field, value, operator))
      ensures !Truthy(group) ==> contextualFilters == old(contextualFilters)[RemoveChar(field, '.') := value]
      ensures Truthy(group) ==> contextualFilters == old(contextualFilters)
    {
      var g := GroupKey(group);
      if !Truthy(group) {
        contextualFilters := contextualFilters[RemoveChar(field, '.') := value];
      }
      where := WithCondition(where, g, Condition(field, value, operator));
    }

    /** `query()`: `getCount` changes nothing. */
    method Query(getCount: bool) returns (document: string)
      requires Valid()
      ensures document == Document(fields, where, contextualFilters)
    {
      // The source appends each argument line to the content type argument
      // directly; the lines are collected first here, which gives the same text.
      var arguments := BuildArguments(where.keys, where.vals);
      var condition := ContentTypeArgument + arguments + ")";
      var selection := BuildSelection(fields);

      var entity := "articles";
      if |contextualFilters| != 0 {
        entity := "article";
      }
      document := entity + " " + condition + " {\n  " + selection + "\n}";
      assert entity == RootName(contextualFilters);
    }

    /** The document stored for the view: the query and the count query are the same text. */
    method Build() returns (query: string, countQuery: string)
      requires Valid()
      ensures query == countQuery
      ensures query == Document(fields, where, contextualFilters)
    {
      query := Query(false);
      countQuery := Query(true);
    }

    /**
     * `renderMultipleArticles`: one row per article, carrying the row
     * variable over from one article to the next.
     */
    method RenderMultipleArticles(articles: seq<Record>)
      modifies this`result
      ensures result == old(result) + ListRows(fields, articles)
    {
      var row: Row := map[];
      var index := 0;
      while index < |articles|
        invariant 0 <= index <= |articles|
        invariant row == RowAfter(fields, articles[..index])
        invariant result == old(result) + ListRows(fields, articles[..index])
      {
        var data := articles[index];
        ghost var start := row;
        var j := 0;
        while j < |data|
          invariant 0 <= j <= |data|
          invariant row == MergeRecord(start, fields, data[..j])
        {
          assert data[..j + 1][..j] == data[..j];
          var name := data[j].key;
          if name in fields {
            row := row[name := ConvertValue(name, data[j].val)];
          }
          j := j + 1;
        }
        assert data[..j] == data;
        row := row["index" := Int(index)];
        assert articles[..index + 1][..index] == articles[..index];
        result := result + [row];
        index := index + 1;
      }
      assert articles[..index] == articles;
    }

    /** `renderSingleArticle`: one row with index 0, only when a requested field came back. */
    method RenderSingleArticle(article: Record)
      modifies this`result
      ensures result == old(result) + SingleRows(fields, article)
    {
      var shares := exists i :: 0 <= i < |article| && article[i].key in fields;
      if shares {
        var row: Row := map[];
        var j := 0;
        while j < |article|
          invariant 0 <= j <= |article|
          invariant row == MergeRecord(map[], fields, article[..j])
        {
          assert article[..j + 1][..j] == article[..j];
          var name := article[j].key;
          if name in fields {
            row := row[name := ConvertValue(name, article[j].val)];
          }
          j := j + 1;
        }
        assert article[..j] == article;
        row := row["index" := Int(0)];
        result := result + [row];
      }
    }

    /**
     * `execute`, with the retry after an exception bounded to one: nothing
     * happens when the site does not load; otherwise one request chosen from
     * the contextual filters, repeated once if it throws, and the rows of
     * its response appended.
     */
    method Execute(site: Option<Site>, service: (Request, nat) -> Outcome) returns (calls: seq<Request>)
      requires Valid()
      modifies this`result, this`siteKey, this`siteToken
      ensures site.None? ==> calls == [] && result == old(result)
      ensures site.None? ==> siteKey == old(siteKey) && siteToken == old(siteToken)
      ensures site.Some? ==> siteKey == site.value.siteKey && siteToken == site.value.siteToken
      ensures site.Some? ==>
        var req := RequestFor(contextualFilters, site.value);
        var outcome := RetryOnce(service, req);
        && calls == seq(outcome.0, _ => req)
        && result == old(result) + (if outcome.1.Some? then ResponseRows(fields, outcome.1.value) else [])
    {
      calls := [];
      if site.Some? {
        siteKey := site.value.siteKey;
        siteToken := site.value.siteToken;
        var req := RequestFor(contextualFilters, site.value);
        var outcome := service(req, 0);
        calls := [req];
        if outcome.Throws? {
          outcome := service(req, 1);
          calls := calls + [req];
        }
        if outcome.Returns? {
          var response := outcome.response;
          if response.articles.Some? {
            RenderMultipleArticles(response.articles.value);
          }
          if response.article.Some? {
            RenderSingleArticle(response.article.value);
          }
        }
      }
    }

    /** `abort`, without the self-call: record a non-empty message and set the flag. */
    method Abort(msg: Value)
      modifies this`errors, this`aborted
      ensures aborted
      ensures errors == AbortErrors(old(errors), msg)
    {
      if Truthy(msg) {
        errors := errors + [msg];
      }
      aborted := true;
    }
  }
}
