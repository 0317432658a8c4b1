/**
 * The smart component manager of the smart components sub-module
 * (class SmartComponentManager): it maps the site's single-directory
 * components flagged `pcc_component` to smart component descriptions,
 * keyed by upper-cased machine name, and caches the whole map.
 */
module SmartComponents {
  import opened Php

  /**
   * What the component plugin manager returns for one component: whether it
   * is a Component plugin, the `pcc_component` entry of its definition
   * (NULL when absent), and its metadata's machine name, name and schema.
   */
  datatype Component = Component(
    isComponent: bool,
    pccFlag: Value,
    machineName: string,
    name: Value,
    schema: Value)

  /** One field of a smart component. */
  datatype Field = Field(displayName: Value, required: bool, fieldType: Value)

  /** A smart component: `['title' => ..., 'iconUrl' => NULL, 'fields' => ...]`. */
  datatype SmartComponent = SmartComponent(title: Value, iconUrl: Value, fields: OMap<Key, Field>)

  // ----------------------------------------------------------------------
  // Selecting the PCC components
  // ----------------------------------------------------------------------

  predicate IsPcc(c: Component) {
    c.isComponent && Truthy(c.pccFlag)
  }

  /** The components kept by `getAllPccComponents`, in their order. */
  function PccComponents(cs: seq<Component>): seq<Component> {
    if cs == [] then []
    else PccComponents(cs[..|cs| - 1]) + (if IsPcc(cs[|cs| - 1]) then [cs[|cs| - 1]] else [])
  }

  /**
   * Exactly the flagged Component plugins are kept, nothing is added, each
   * kept component appears as often as in the list, and the kept ones are in
   * their original order.
   */
  lemma PccComponentsMembers(cs: seq<Component>)
    ensures |PccComponents(cs)| <= |cs|
    ensures forall c :: c in PccComponents(cs) <==> c in cs && IsPcc(c)
    ensures forall c :: multiset(PccComponents(cs))[c] == if IsPcc(c) then multiset(cs)[c] else 0
    ensures IsSubsequence(PccComponents(cs), cs)
  {
    PccComponentsCounts(cs);
    PccComponentsInOrder(cs);
  }

  lemma {:induction false} PccComponentsCounts(cs: seq<Component>)
    ensures |PccComponents(cs)| <= |cs|
    ensures forall c :: multiset(PccComponents(cs))[c] == if IsPcc(c) then multiset(cs)[c] else 0
  {
    if cs != [] {
      var init, last := cs[..|cs| - 1], cs[|cs| - 1];
      PccComponentsCounts(init);
      assert cs == init + [last];
      assert multiset(cs) == multiset(init) + multiset{last};
      assert multiset(PccComponents(cs))
          == multiset(PccComponents(init)) + (if IsPcc(last) then multiset{last} else multiset{});
    }
  }

  lemma {:induction false} PccComponentsInOrder(cs: seq<Component>)
    ensures IsSubsequence(PccComponents(cs), cs)
  {
    if cs != [] {
      var init, last := cs[..|cs| - 1], cs[|cs| - 1];
      PccComponentsInOrder(init);
      var kept := PccComponents(cs);
      if IsPcc(last) {
        assert kept[..|kept| - 1] == PccComponents(init);
      } else {
        assert kept == PccComponents(init);
      }
    }
  }

  /** `getAllPccComponents`. */
  method GetAllPccComponents(all: seq<Component>) returns (pcc: seq<Component>)
    ensures pcc == PccComponents(all)
  {
    pcc := [];
    var i := 0;
    while i < |all|
      invariant 0 <= i <= |all|
      invariant pcc == PccComponents(all[..i])
    {
      assert all[..i + 1][..i] == all[..i];
      if all[i].isComponent && Truthy(all[i].pccFlag) {
        pcc := pcc + [all[i]];
      }
      i := i + 1;
    }
    assert all[..i] == all;
  }

  // ----------------------------------------------------------------------
  // Fields
  // ----------------------------------------------------------------------

  /**
   * PHP's loose `==` between an array key and a value, as `in_array` uses
   * it, for keys and values that are canonical: a string key equals the
   * same string, an integer key the same integer or its decimal string.
   */
  predicate LooseEquals(k: Key, v: Value) {
    match v
    case Null => k == IntKey(0) || k == StrKey("")
    case Bool(b) => b == (if k.IntKey? then k.n != 0 else k.s != "" && k.s != "0")
    case Int(i) => k == IntKey(i)
    case Str(s) => if k.IntKey? then IntToString(k.n) == s else k.s == s
    case Arr(_) => false
  }

  /** `in_array($field, $required)`. */
  predicate InArray(k: Key, values: seq<Value>) {
    exists i :: 0 <= i < |values| && LooseEquals(k, values[i])
  }

  /** The values `foreach` visits: an array's values, nothing for anything else. */
  function Values(v: Value): (r: seq<Value>)
    ensures v.Arr? ==> |r| == |v.entries| && forall i :: 0 <= i < |r| ==> r[i] == v.entries[i].val
    ensures !v.Arr? ==> r == []
  {
    if v.Arr? then seq(|v.entries|, i requires 0 <= i < |v.entries| => v.entries[i].val) else []
  }

  /** The entries `foreach` visits: an array's entries, nothing for anything else. */
  function Entries(v: Value): seq<Pair<Key, Value>> {
    if v.Arr? then v.entries else []
  }

  /** `$schema['required'] ?? []`. */
  function RequiredFields(schema: Value): seq<Value> {
    Values(Get(schema, StrKey("required")))
  }

  /** The type of a property: its first listed type when non-empty, `object` otherwise. */
  function FieldType(definition: Value): (t: Value)
    ensures Truthy(Get(Get(definition, StrKey("type")), IntKey(0))) ==> t == Get(Get(definition, StrKey("type")), IntKey(0))
    ensures !Truthy(Get(Get(definition, StrKey("type")), IntKey(0))) ==> t == Str("object")
    ensures Truthy(t)
  {
    var first := Get(Get(definition, StrKey("type")), IntKey(0));
    if Truthy(first) then first else Str("object")
  }

  /** The field built for one schema property. */
  function FieldOf(name: Key, definition: Value, required: seq<Value>): Field {
    Field(Get(definition, StrKey("title")), InArray(name, required), FieldType(definition))
  }

  /** The property entries `getFields` visits: none when `properties` is empty. */
  function Properties(schema: Value): seq<Pair<Key, Value>> {
    var properties := Get(schema, StrKey("properties"));
    if Truthy(properties) then Entries(properties) else []
  }

  function FieldPairs(properties: seq<Pair<Key, Value>>, required: seq<Value>): (pairs: seq<Pair<Key, Field>>)
    ensures |pairs| == |properties|
    ensures forall i :: 0 <= i < |properties| ==>
      pairs[i] == Pair(properties[i].key, FieldOf(properties[i].key, properties[i].val, required))
  {
    seq(|properties|, i requires 0 <= i < |properties| =>
      Pair(properties[i].key, FieldOf(properties[i].key, properties[i].val, required)))
  }

  /** The fields of a schema, in property order. */
  function Fields(schema: Value): OMap<Key, Field> {
    PutAll(EmptyMap(), FieldPairs(Properties(schema), RequiredFields(schema)))
  }

  /**
   * One field per property name: the display name is the property's title,
   * `required` holds exactly when the name is listed as required, and the
   * type is the first listed type or `object`; no properties give no fields.
   */
  lemma FieldsContents(schema: Value, k: Key)
    ensures Fields(schema).Valid()
    ensures Properties(schema) == [] ==> Fields(schema).keys == []
    ensures k in Fields(schema).vals <==> HasKey(Properties(schema), k)
    ensures k in Fields(schema).vals ==> Lookup(Properties(schema), k).Some?
    ensures k in Fields(schema).vals ==>
      var definition := Lookup(Properties(schema), k).value;
      var field := Fields(schema).vals[k];
      && field.displayName == Get(definition, StrKey("title"))
      && (field.required <==> InArray(k, RequiredFields(schema)))
      && field.fieldType == FieldType(definition)
  {
    var properties := Properties(schema);
    var pairs := FieldPairs(properties, RequiredFields(schema));
    PutAllContents(EmptyMap(), pairs);
    assert HasKey(pairs, k) <==> HasKey(properties, k) by {
      if HasKey(pairs, k) {
        var i :| 0 <= i < |pairs| && pairs[i].key == k;
        assert properties[i].key == k;
      }
      if HasKey(properties, k) {
        var i :| 0 <= i < |properties| && properties[i].key == k;
        assert pairs[i].key == k;
      }
    }
    if HasKey(properties, k) {
      LookupOfFieldPairs(properties, RequiredFields(schema), k);
    }
  }

  /** Looking a name up among the field pairs gives the field of the property looked up. */
  lemma {:induction false} LookupOfFieldPairs(properties: seq<Pair<Key, Value>>, required: seq<Value>, k: Key)
    requires HasKey(properties, k)
    ensures Lookup(properties, k).Some?
    ensures Lookup(FieldPairs(properties, required), k)
      == Some(FieldOf(k, Lookup(properties, k).value, required))
  {
    var pairs := FieldPairs(properties, required);
    var n := |properties|;
    var init := properties[..n - 1];
    assert pairs[..n - 1] == FieldPairs(init, required);
    if properties[n - 1].key != k {
      HasKeySplit(properties, k);
      LookupOfFieldPairs(init, required, k);
    }
  }

  /** `getFields`. */
  method GetFields(schema: Value) returns (fields: OMap<Key, Field>)
    ensures fields == Fields(schema)
  {
    var required := RequiredFields(schema);
    var properties: seq<Pair<Key, Value>> := [];
    if Truthy(Get(schema, StrKey("properties"))) {
      properties := Entries(Get(schema, StrKey("properties")));
    }
    fields := EmptyMap();
    ghost var all := FieldPairs(properties, required);
    var i := 0;
    while i < |properties|
      invariant 0 <= i <= |properties|
      invariant fields == PutAll(EmptyMap(), all[..i])
    {
      var name := properties[i].key;
      var definition := properties[i].val;
      var first := Get(Get(definition, StrKey("type")), IntKey(0));
      var field := Field(Get(definition, StrKey("title")), InArray(name, required),
                         if Truthy(first) then first else Str("object"));
      assert all[i] == Pair(name, field);
      PutAllTakeSnoc(EmptyMap(), all, i);
      fields := fields.Put(name, field);
      i := i + 1;
    }
    assert all[..i] == all;
  }

  /** `toSmartComponent`. */
  function ToSmartComponent(c: Component): (s: SmartComponent)
    ensures s.title == c.name && s.iconUrl == Null && s.fields == Fields(c.schema)
  {
    SmartComponent(c.name, Null, Fields(c.schema))
  }

  // ----------------------------------------------------------------------
  // The map of smart components
  // ----------------------------------------------------------------------

  /** The key of a component: its machine name upper-cased, as an array key. */
  function ComponentKey(c: Component): Key {
    KeyOfString(ToUpper(c.machineName))
  }

  /** The map `getAllSmartComponents` computes from the PCC components. */
  function SmartComponentMap(pcc: seq<Component>): OMap<Key, SmartComponent> {
    PutAll(EmptyMap(), PairsOf(pcc, ComponentKey, ToSmartComponent))
  }

  /**
   * Each component appears under its upper-cased machine name, and a later
   * component with the same key replaces an earlier one.
   */
  lemma SmartComponentMapContents(pcc: seq<Component>, k: Key)
    ensures SmartComponentMap(pcc).Valid()
    ensures k in SmartComponentMap(pcc).vals <==> exists i :: 0 <= i < |pcc| && ComponentKey(pcc[i]) == k
    ensures k in SmartComponentMap(pcc).vals ==>
      exists i :: 0 <= i < |pcc| && ComponentKey(pcc[i]) == k
        && SmartComponentMap(pcc).vals[k] == ToSmartComponent(pcc[i])
        && forall j :: i < j < |pcc| ==> ComponentKey(pcc[j]) != k
  {
    PutAllPairsOf(pcc, ComponentKey, ToSmartComponent, k);
  }

  /** The `foreach` of `getAllSmartComponents`: each component under its upper-cased machine name. */
  method CollectSmartComponents(pcc: seq<Component>) returns (r: OMap<Key, SmartComponent>)
    ensures r == SmartComponentMap(pcc)
  {
    r := EmptyMap();
    ghost var all := PairsOf(pcc, ComponentKey, ToSmartComponent);
    var i := 0;
    while i < |pcc|
      invariant 0 <= i <= |pcc|
      invariant r == PutAll(EmptyMap(), all[..i])
    {
      var key := ComponentKey(pcc[i]);
      var smart := ToSmartComponent(pcc[i]);
      PutAllTakeSnoc(EmptyMap(), all, i);
      r := r.Put(key, smart);
      i := i + 1;
    }
    assert all[..i] == all;
  }

  /** The last component whose machine name is exactly `name`. */
  function LastMatch(cs: seq<Component>, name: string): Option<Component> {
    if cs == [] then None
    else if cs[|cs| - 1].machineName == name then Some(cs[|cs| - 1])
    else LastMatch(cs[..|cs| - 1], name)
  }

  /** The match found is the last component with that exact machine name; none when there is none. */
  lemma {:induction false} LastMatchIsLast(cs: seq<Component>, name: string)
    ensures LastMatch(cs, name).None? <==> forall i :: 0 <= i < |cs| ==> cs[i].machineName != name
    ensures LastMatch(cs, name).Some? ==>
      exists i :: 0 <= i < |cs| && cs[i] == LastMatch(cs, name).value && cs[i].machineName == name
        && forall j :: i < j < |cs| ==> cs[j].machineName != name
  {
    if cs != [] {
      var init := cs[..|cs| - 1];
      LastMatchIsLast(init, name);
      if cs[|cs| - 1].machineName != name && LastMatch(init, name).Some? {
        var i :| 0 <= i < |init| && init[i] == LastMatch(init, name).value && init[i].machineName == name
          && forall j :: i < j < |init| ==> init[j].machineName != name;
        assert cs[i] == init[i];
      }
    }
  }

  /**
   * The manager, over a fixed component list (what the plugin manager
   * returns) and the cache entry of the smart component map (None when the
   * cache holds no entry).
   */
  class SmartComponentManager {
    const components: seq<Component>
    var cache: Option<OMap<Key, SmartComponent>>

    constructor (components: seq<Component>, cache: Option<OMap<Key, SmartComponent>>)
      ensures this.components == components && this.cache == cache
    {
      this.components := components;
      this.cache := cache;
    }

    /**
     * `getAllSmartComponents`: any cache entry is returned as it is (even an
     * empty map, since the entry object is never empty); otherwise the map is
     * computed, stored in the cache and returned.
     */
    method GetAllSmartComponents() returns (r: OMap<Key, SmartComponent>)
      modifies this`cache
      ensures old(cache).Some? ==> r == old(cache).value && cache == old(cache)
      ensures old(cache).None? ==> r == SmartComponentMap(PccComponents(components)) && cache == Some(r)
    {
      if cache.Some? {
        return cache.value;
      }
      var pcc := GetAllPccComponents(components);
      r := CollectSmartComponents(pcc);
      cache := Some(r);
    }

    /**
     * `getSmartComponent`: the component stored under the id, from the cache
     * when it has it and from the map otherwise; None (the empty array) when
     * the map has no entry for the id.
     */
    method GetSmartComponent(componentId: string) returns (r: Option<SmartComponent>)
      modifies this`cache
      ensures old(cache).Some? ==> cache == old(cache)
      ensures old(cache).None? ==> cache == Some(SmartComponentMap(PccComponents(components)))
      ensures cache.Some?
      ensures KeyOfString(componentId) in cache.value.vals <==> r.Some?
      ensures r.Some? ==> r.value == cache.value.vals[KeyOfString(componentId)]
    {
      var k := KeyOfString(componentId);
      if cache.Some? && cache.value.keys != [] && k in cache.value.vals {
        return Some(cache.value.vals[k]);
      }
      var all := GetAllSmartComponents();
      if k in all.vals {
        r := Some(all.vals[k]);
      } else {
        r := None;
      }
    }

    /** `getSDCComponent`: the last PCC component whose machine name is exactly `machineName`. */
    method GetSDCComponent(machineName: string) returns (r: Option<Component>)
      ensures r == LastMatch(PccComponents(components), machineName)
    {
      var pcc := GetAllPccComponents(components);
      assert forall c :: c in pcc ==> IsPcc(c) by {
        PccComponentsMembers(components);
      }
      r := None;
      var i := 0;
      while i < |pcc|
        invariant 0 <= i <= |pcc|
        invariant r == LastMatch(pcc[..i], machineName)
      {
        assert pcc[..i + 1][..i] == pcc[..i];
        assert pcc[i] in pcc;
        if pcc[i].isComponent && machineName == pcc[i].machineName {
          r := Some(pcc[i]);
        }
        i := i + 1;
      }
      assert pcc[..i] == pcc;
    }
  }
}
