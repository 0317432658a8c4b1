/**
 * The tags field of a view (class PccTags): the list of an article's tags,
 * each optionally rendered as a link whose path is built from a pattern
 * holding a `{{ tag }}` token.
 */
module Tags {
  import opened Php

  /** The token a tags path pattern may contain. */
  const TagToken: string := "{{ tag }}"

  /** The path that disables the link and leaves the tag as plain text. */
  const FrontPath: string := "<front>"

  /** The default of the `tags_path` option. */
  const DefaultTagsPath: string := ""

  /**
   * `validateOptionsForm`: an error is reported exactly when the path does
   * not start with `/`, whether or not links are on, so also for the
   * default path and for `<front>`.
   */
  function TagsPathError(path: string): (error: bool)
    ensures error <==> |path| == 0 || path[0] != '/'
    ensures path == DefaultTagsPath || path == FrontPath ==> error
  {
    !StartsWith(path, "/")
  }

  // ----------------------------------------------------------------------
  // The tag items
  // ----------------------------------------------------------------------

  /** The item stored for one tag: `['tags' => $tag]`. */
  function Item(tag: Value): Value {
    Arr([Pair(StrKey("tags"), tag)])
  }

  /** `render_item`: the item's `tags` entry. */
  function RenderItem(item: Value): (r: Value)
    ensures forall tag :: item == Item(tag) ==> r == tag
  {
    Get(item, StrKey("tags"))
  }

  /**
   * The entries a row's field value contributes: a non-empty array gives
   * its entries; anything else gives none (a falsy value is skipped, and
   * `foreach` over a scalar does nothing).
   */
  function TagEntries(v: Value): (r: seq<Pair<Key, Value>>)
    ensures !Truthy(v) ==> r == []
    ensures v.Arr? ==> r == v.entries
  {
    if Truthy(v) && v.Arr? then v.entries else []
  }

  /** The entries of all rows, row after row. */
  function AllTags(rows: seq<Value>): seq<Pair<Key, Value>> {
    if rows == [] then [] else AllTags(rows[..|rows| - 1]) + TagEntries(rows[|rows| - 1])
  }

  /** `$items[$key]['tags'] = $tag` for each entry, in order. */
  function PutTags(m: OMap<Key, Value>, entries: seq<Pair<Key, Value>>): OMap<Key, Value> {
    if entries == [] then m
    else
      var last := entries[|entries| - 1];
      PutTags(m, entries[..|entries| - 1]).Put(last.key, Item(last.val))
  }

  /** Storing one more entry stores it after the others. */
  lemma PutTagsSnoc(m: OMap<Key, Value>, entries: seq<Pair<Key, Value>>, e: Pair<Key, Value>)
    ensures PutTags(m, entries + [e]) == PutTags(m, entries).Put(e.key, Item(e.val))
  {
    assert (entries + [e])[..|entries|] == entries;
  }

  /** The items `preRender` leaves for the rows' field values. */
  function TagItems(rows: seq<Value>): OMap<Key, Value> {
    PutTags(EmptyMap(), AllTags(rows))
  }

  /**
   * After the entries are stored, a key is present exactly when it was
   * present before or some entry has it; the item holds the tag of the last
   * entry with that key, and untouched keys keep their item and position.
   */
  lemma {:induction false} PutTagsContents(m: OMap<Key, Value>, entries: seq<Pair<Key, Value>>)
    requires m.Valid()
    ensures PutTags(m, entries).Valid()
    ensures |m.keys| <= |PutTags(m, entries).keys|
    ensures PutTags(m, entries).keys[..|m.keys|] == m.keys
    ensures forall k :: k in PutTags(m, entries).vals <==> k in m.vals || HasKey(entries, k)
    ensures forall k :: HasKey(entries, k) ==>
      Lookup(entries, k).Some? && PutTags(m, entries).vals[k] == Item(Lookup(entries, k).value)
    ensures forall k :: k in m.vals && !HasKey(entries, k) ==> PutTags(m, entries).vals[k] == m.vals[k]
  {
    if entries != [] {
      var init, last := entries[..|entries| - 1], entries[|entries| - 1];
      PutTagsContents(m, init);
      var before := PutTags(m, init);
      forall k ensures HasKey(entries, k) <==> HasKey(init, k) || last.key == k {
        HasKeySplit(entries, k);
      }
      assert before.keys[..|m.keys|] == m.keys;
      if last.key !in before.vals {
        assert (before.keys + [last.key])[..|m.keys|] == before.keys[..|m.keys|];
      }
    }
  }

  /** `preRender` keeps, for every key, the tag of the last row that has it. */
  lemma TagItemsLastWins(rows: seq<Value>, k: Key)
    ensures TagItems(rows).Valid()
    ensures k in TagItems(rows).vals <==> HasKey(AllTags(rows), k)
    ensures k in TagItems(rows).vals ==>
      Lookup(AllTags(rows), k).Some? && RenderItem(TagItems(rows).vals[k]) == Lookup(AllTags(rows), k).value
  {
    PutTagsContents(EmptyMap(), AllTags(rows));
  }

  /** A row whose field value is empty, or not an array, leaves the items as they were. */
  lemma EmptyRowAddsNothing(rows: seq<Value>, v: Value)
    requires !Truthy(v) || !v.Arr?
    ensures TagItems(rows + [v]) == TagItems(rows)
  {
    assert (rows + [v])[..|rows|] == rows;
    assert AllTags(rows + [v]) == AllTags(rows) + [];
    assert AllTags(rows) + [] == AllTags(rows);
  }

  // ----------------------------------------------------------------------
  // The link
  // ----------------------------------------------------------------------

  /** The tag's form in a link path: lower-cased, each space turned into `-`. */
  function Slug(value: string): (slug: string)
    ensures |slug| == |value|
    ensures ' ' !in slug
    ensures forall i :: 0 <= i < |slug| ==> !IsUpper(slug[i])
    ensures forall i :: 0 <= i < |value| && value[i] == ' ' ==> slug[i] == '-'
    ensures forall i :: 0 <= i < |value| && value[i] != ' ' ==> slug[i] == LowerChar(value[i])
  {
    ReplaceChar(ToLower(value), ' ', '-')
  }

  /** What `renderTagAsLink` and `renderText` produce. */
  datatype Rendered =
    | Text(text: string)
      /** A link render element: its title and the path given to `Url::fromUserInput`. */
    | Link(title: string, path: string)

  /**
   * `renderTagAsLink`: the value itself for the path `<front>`; otherwise a
   * link titled with the value, to the tag-stripped path with every token
   * replaced by the slug. `stripTags` stands for PHP's `strip_tags`.
   */
  function TagLink(path: string, value: string, stripTags: string -> string): (r: Rendered)
    ensures path == FrontPath <==> r.Text?
    ensures r.Text? ==> r.text == value
    ensures r.Link? ==> r.title == value
  {
    if path != FrontPath then
      Link(value, ReplaceAll(stripTags(path), TagToken, Slug(value)))
    else
      Text(value)
  }

  /**
   * `renderText`: a link exactly when links are switched on and the path is
   * not `<front>`; the text shown, plain or as the link title, is always the
   * value, and a link goes where `renderTagAsLink` sends it.
   */
  function RenderText(makeLink: bool, path: string, value: string, stripTags: string -> string): (r: Rendered)
    ensures r.Link? <==> makeLink && path != FrontPath
    ensures r.Text? ==> r.text == value
    ensures r.Link? ==> r.title == value && r == TagLink(path, value, stripTags)
    ensures !makeLink ==> r == Text(value)
  {
    if makeLink then TagLink(path, value, stripTags) else Text(value)
  }

  /** A path without the token links to the stripped path as it is. */
  lemma PathWithoutTokenIsKept(path: string, value: string, stripTags: string -> string)
    requires path != FrontPath
    requires forall i :: !OccursAt(stripTags(path), TagToken, i)
    ensures TagLink(path, value, stripTags) == Link(value, stripTags(path))
  {
    ReplaceAbsentToken(stripTags(path), TagToken, Slug(value));
  }

  /**
   * The first occurrence of the token is replaced by the slug, and the text
   * before it is kept.
   */
  lemma {:induction false} ReplaceFirstToken(p: string, q: string, token: string, replacement: string)
    requires token != []
    requires forall i :: 0 <= i < |p| ==> !OccursAt(p + token, token, i)
    ensures ReplaceAll(p + token + q, token, replacement) == p + replacement + ReplaceAll(q, token, replacement)
  {
    var s := p + token + q;
    if p == [] {
      assert s == token + q;
      assert s[..|token|] == token;
      assert s[|token|..] == q;
    } else {
      assert (p + token)[..|token|] == s[..|token|];
      assert !OccursAt(p + token, token, 0);
      assert s[..|token|] != token;
      forall i | 0 <= i < |p[1..]| ensures !OccursAt(p[1..] + token, token, i) {
        assert (p[1..] + token)[i..i + |token|] == (p + token)[i + 1..i + 1 + |token|];
        assert !OccursAt(p + token, token, i + 1);
      }
      ReplaceFirstToken(p[1..], q, token, replacement);
      assert s[1..] == p[1..] + token + q;
      assert [s[0]] + (p[1..] + replacement + ReplaceAll(q, token, replacement))
          == p + replacement + ReplaceAll(q, token, replacement);
    }
  }

  /** A pattern ending in the token links to the pattern's head followed by the slug. */
  lemma TokenAtEndIsSlug(path: string, value: string, stripTags: string -> string, head: string)
    requires path != FrontPath
    requires stripTags(path) == head + TagToken
    requires forall i :: 0 <= i < |head| ==> !OccursAt(head + TagToken, TagToken, i)
    ensures TagLink(path, value, stripTags) == Link(value, head + Slug(value))
  {
    assert head + TagToken == head + TagToken + [];
    ReplaceFirstToken(head, [], TagToken, Slug(value));
    assert head + Slug(value) + [] == head + Slug(value);
  }

  // ----------------------------------------------------------------------
  // The field
  // ----------------------------------------------------------------------

  class TagsField {
    /** The items shared by every row, keyed by tag key, in insertion order. */
    var items: OMap<Key, Value>

    ghost predicate Valid()
      reads this
    {
      items.Valid()
    }

    constructor ()
      ensures Valid() && items == EmptyMap()
    {
      items := EmptyMap();
    }

    /**
     * `preRender`: clears the items, then stores every tag of every row's
     * field value, row by row.
     */
    method PreRender(rows: seq<Value>)
      modifies this`items
      ensures items == TagItems(rows)
      ensures Valid()
    {
      items := EmptyMap();
      var i := 0;
      while i < |rows|
        invariant 0 <= i <= |rows|
        invariant items == PutTags(EmptyMap(), AllTags(rows[..i]))
      {
        var tags := rows[i];
        ghost var before := AllTags(rows[..i]);
        assert AllTags(rows[..i + 1]) == before + TagEntries(tags) by {
          assert rows[..i + 1][..i] == rows[..i];
        }
        if Truthy(tags) && tags.Arr? {
          var entries := tags.entries;
          var j := 0;
          assert before + entries[..0] == before;
          while j < |entries|
            invariant 0 <= j <= |entries|
            invariant items == PutTags(EmptyMap(), before + entries[..j])
          {
            AppendTakeSnoc(before, entries, j);
            PutTagsSnoc(EmptyMap(), before + entries[..j], entries[j]);
            items := items.Put(entries[j].key, Item(entries[j].val));
            j := j + 1;
          }
          assert entries[..j] == entries;
        } else {
          assert TagEntries(tags) == [];
          assert before + [] == before;
        }
        i := i + 1;
      }
      assert rows[..i] == rows;
      assert TagItems(rows).Valid() by {
        PutTagsContents(EmptyMap(), AllTags(rows));
      }
    }

    /** `getItems`: the shared items whatever the row (the empty array when there are none). */
    method GetItems(row: Value) returns (r: OMap<Key, Value>)
      requires Valid()
      ensures r.keys == items.keys && r.vals == items.vals
    {
      if items.keys != [] {
        r := items;
      } else {
        r := EmptyMap();
        assert items.vals == map[] by {
          assert forall k :: k in items.vals ==> k in items.keys;
        }
      }
    }
  }
}
