/**
 * The metadata field of a view (class PccMetadata): the site's metadata
 * fields are offered as radio options, and a row shows the value of the
 * selected one.
 */
module Metadata {
  import opened Php

  /** The one metadata field whose value is an object holding a millisecond timestamp. */
  const PostDate: string := "Post Date"

  /** PHP's `isset($a[$k])` on a value: an array with a non-NULL entry under `k`. */
  predicate IsSetIn(v: Value, k: Key) {
    v.Arr? && Lookup(v.entries, k).Some? && Lookup(v.entries, k).value != Null
  }

  /**
   * `render`: nothing (NULL) unless the row value is non-empty and has a
   * non-NULL entry under the selected field; then that entry, or its
   * `msSinceEpoch` member for `Post Date`.
   */
  function Render(selected: string, value: Value): (r: Value)
    ensures !Truthy(value) || !IsSetIn(value, KeyOfString(selected)) ==> r == Null
    ensures Truthy(value) && IsSetIn(value, KeyOfString(selected)) && selected != PostDate ==>
      r != Null && Lookup(value.entries, KeyOfString(selected)) == Some(r)
    ensures Truthy(value) && IsSetIn(value, KeyOfString(selected)) && selected == PostDate ==>
      r == Get(Lookup(value.entries, KeyOfString(selected)).value, StrKey("msSinceEpoch"))
  {
    var k := KeyOfString(selected);
    if Truthy(value) && IsSetIn(value, k) then
      if selected == PostDate then Get(Get(value, k), StrKey("msSinceEpoch"))
      else Get(value, k)
    else Null
  }

  /** A field other than `Post Date` shows exactly the stored entry, and only a set one. */
  lemma RenderShowsStoredEntry(selected: string, entries: seq<Pair<Key, Value>>)
    requires selected != PostDate
    ensures Render(selected, Arr(entries)) != Null <==> Lookup(entries, KeyOfString(selected)).Some? && Lookup(entries, KeyOfString(selected)).value != Null
    ensures Render(selected, Arr(entries)) != Null ==> Lookup(entries, KeyOfString(selected)) == Some(Render(selected, Arr(entries)))
  {
    if Lookup(entries, KeyOfString(selected)).Some? {
      assert |entries| > 0;
    }
  }

  /** `validateOptionsForm`: an error exactly when the selection is falsy (so also for `''` and `'0'`). */
  function SelectionError(selected: Value): (error: bool)
    ensures error <==> (selected == Null || selected == Bool(false) || selected == Int(0)
                    || selected == Str("") || selected == Str("0") || selected == Arr([]))
  {
    !Truthy(selected)
  }

  // ----------------------------------------------------------------------
  // The options form
  // ----------------------------------------------------------------------

  /** The form element `buildOptionsForm` adds for the metadata selection. */
  datatype MetadataForm =
    | NoElement
      /** Radios over the options: option key to its label. */
    | Radios(options: OMap<Key, string>)
    | NotAvailable
      /** A title that is an array cannot be an array key: PHP throws. */
    | IllegalOffset

  /** `$data['title']`. */
  function Title(data: Value): Value {
    Get(data, StrKey("title"))
  }

  /** One option per field: the title as key and as label. */
  function OptionPairs(metadata: seq<Value>): (pairs: seq<Pair<Key, string>>)
    requires forall i :: 0 <= i < |metadata| ==> !Title(metadata[i]).Arr?
    ensures |pairs| == |metadata|
    ensures forall i :: 0 <= i < |metadata| ==>
      pairs[i] == Pair(KeyOf(Title(metadata[i])), StringOf(Title(metadata[i])))
  {
    seq(|metadata|, i requires 0 <= i < |metadata| => Pair(KeyOf(Title(metadata[i])), StringOf(Title(metadata[i]))))
  }

  /** The options for the metadata fields, in order; None when a title is an array. */
  function Options(metadata: seq<Value>): Option<OMap<Key, string>> {
    if exists i :: 0 <= i < |metadata| && Title(metadata[i]).Arr? then None
    else Some(PutAll(EmptyMap(), OptionPairs(metadata)))
  }

  /** The metadata fields of decoded site data: `$site_data_arr['data']['site']['metadataFields']`. */
  function MetadataFields(siteData: Value): Value {
    Get(Get(Get(siteData, StrKey("data")), StrKey("site")), StrKey("metadataFields"))
  }

  /** The entries `foreach` visits: an array's values, nothing for anything else. */
  function Values(v: Value): seq<Value> {
    if v.Arr? then seq(|v.entries|, i requires 0 <= i < |v.entries| => v.entries[i].val) else []
  }

  /** The metadata fields `buildOptionsForm` iterates over: none without site data or with empty fields. */
  function MetadataList(siteData: Option<Value>): seq<Value> {
    if siteData.Some? && Truthy(MetadataFields(siteData.value)) then Values(MetadataFields(siteData.value)) else []
  }

  /**
   * The element built: none when the site does not load; radios when some
   * option was collected; otherwise the "not available" markup.
   * `siteData` is the decoded site data, None when the service returned none.
   */
  function Form(siteLoaded: bool, siteData: Option<Value>): MetadataForm {
    if !siteLoaded then NoElement
    else
      match Options(MetadataList(siteData))
      case None => IllegalOffset
      case Some(options) => if options.keys != [] then Radios(options) else NotAvailable
  }

  /**
   * The options are keyed by the titles: a key is present exactly when some
   * field's title gives it, the keys are distinct (duplicates collapse) and
   * there are at most as many as fields. They are listed in the order of the
   * first field giving each (`FirstIndex` of the option pairs is that
   * field), and each key is labelled by the last field giving it.
   */
  lemma OptionsKeys(metadata: seq<Value>)
    requires Options(metadata).Some?
    ensures Options(metadata).value.Valid()
    ensures |Options(metadata).value.keys| <= |metadata|
    ensures forall k :: k in Options(metadata).value.vals <==>
      exists i :: 0 <= i < |metadata| && KeyOf(Title(metadata[i])) == k
    ensures InFirstOrder(Options(metadata).value.keys, OptionPairs(metadata))
    ensures forall k :: k in Options(metadata).value.vals ==> LabelledByLastField(metadata, k)
  {
    var pairs := OptionPairs(metadata);
    PutAllContents(EmptyMap(), pairs);
    PutAllKeysInFirstOrder(pairs);
    forall k ensures HasKey(pairs, k) <==> exists i :: 0 <= i < |metadata| && KeyOf(Title(metadata[i])) == k {
      if HasKey(pairs, k) {
        var i :| 0 <= i < |pairs| && pairs[i].key == k;
        assert KeyOf(Title(metadata[i])) == k;
      }
    }
    forall k | k in Options(metadata).value.vals ensures LabelledByLastField(metadata, k) {
      OptionLabel(metadata, k);
    }
  }

  /** The option `k` is labelled by the title of the last field whose title gives `k`. */
  ghost predicate LabelledByLastField(metadata: seq<Value>, k: Key)
    requires Options(metadata).Some? && k in Options(metadata).value.vals
  {
    exists i :: 0 <= i < |metadata| && KeyOf(Title(metadata[i])) == k
      && Options(metadata).value.vals[k] == StringOf(Title(metadata[i]))
      && (forall j :: i < j < |metadata| ==> KeyOf(Title(metadata[j])) != k)
  }

  lemma OptionLabel(metadata: seq<Value>, k: Key)
    requires Options(metadata).Some? && k in Options(metadata).value.vals
    ensures LabelledByLastField(metadata, k)
  {
    var pairs := OptionPairs(metadata);
    PutAllContents(EmptyMap(), pairs);
    var i := LastIndexOf(pairs, k);
    assert forall j :: i < j < |metadata| ==> pairs[j].key != k;
  }

  /**
   * Every title, NULL included, gives a key, so there is some option
   * exactly when there is some metadata field.
   */
  lemma OptionsNonEmpty(metadata: seq<Value>)
    requires Options(metadata).Some?
    ensures Options(metadata).value.keys != [] <==> |metadata| > 0
  {
    OptionsKeys(metadata);
    var options := Options(metadata).value;
    if |metadata| > 0 {
      assert KeyOf(Title(metadata[0])) in options.vals;
    }
  }

  /** The `foreach` over the metadata fields: one option per title, in order. */
  method CollectOptions(metadata: seq<Value>) returns (r: Option<OMap<Key, string>>)
    ensures r == Options(metadata)
  {
    var options: OMap<Key, string> := EmptyMap();
    var i := 0;
    while i < |metadata|
      invariant 0 <= i <= |metadata|
      invariant forall j :: 0 <= j < i ==> !Title(metadata[j]).Arr?
      invariant options == PutAll(EmptyMap(), OptionPairs(metadata[..i]))
    {
      var title := Title(metadata[i]);
      if title.Arr? {
        return None;
      }
      assert forall j :: 0 <= j < i + 1 ==> !Title(metadata[j]).Arr? by {
        forall j | 0 <= j < i + 1 ensures !Title(metadata[j]).Arr? {
          if j == i {
            assert Title(metadata[j]) == title;
          }
        }
      }
      ghost var pairs := OptionPairs(metadata[..i]);
      ghost var pair := Pair(KeyOf(title), StringOf(title));
      assert OptionPairs(metadata[..i + 1]) == pairs + [pair] by {
        forall j | 0 <= j < i ensures OptionPairs(metadata[..i + 1])[j] == pairs[j] {
          assert metadata[..i + 1][j] == metadata[..i][j];
        }
      }
      PutAllSnoc(EmptyMap(), pairs, pair);
      options := options.Put(KeyOf(title), StringOf(title));
      i := i + 1;
    }
    assert metadata[..i] == metadata;
    r := Some(options);
  }

  /**
   * `buildOptionsForm`'s metadata element, over the site data already
   * fetched and decoded: nothing when the site does not load, radios over
   * the collected options, or the "not available" markup when there are none.
   */
  method BuildOptionsForm(siteLoaded: bool, siteData: Option<Value>) returns (form: MetadataForm)
    ensures form == Form(siteLoaded, siteData)
    ensures form == NoElement <==> !siteLoaded
    ensures form == IllegalOffset <==>
      siteLoaded && exists i :: 0 <= i < |MetadataList(siteData)| && Title(MetadataList(siteData)[i]).Arr?
    ensures form.Radios? <==> siteLoaded && Options(MetadataList(siteData)).Some? && |MetadataList(siteData)| > 0
    ensures form.Radios? ==> form.options == Options(MetadataList(siteData)).value
  {
    if !siteLoaded {
      return NoElement;
    }
    var metadata: seq<Value> := [];
    if siteData.Some? && Truthy(MetadataFields(siteData.value)) {
      metadata := Values(MetadataFields(siteData.value));
    }
    var options := CollectOptions(metadata);
    if options.None? {
      form := IllegalOffset;
    } else {
      OptionsNonEmpty(metadata);
      if options.value.keys != [] {
        form := Radios(options.value);
      } else {
        form := NotAvailable;
      }
    }
  }
}
