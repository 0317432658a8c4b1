/**
 * The view helper (class PccSiteViewHelper): the mapping of a config
 * entity, found among the typed-config definitions by the entity type's
 * config prefix. The definitions and the prefix, which the source asks
 * Drupal's services for, are parameters here.
 */
module ViewHelper {
  import opened Php

  /** `$value['type'] == 'config_entity'` under PHP's loose comparison; NULL (not set) never matches. */
  predicate IsConfigEntity(t: Value) {
    t == Str("config_entity") || t == Bool(true)
  }

  /** A definition the search stops at: a config entity whose name starts with the prefix. */
  predicate Matches(def: Pair<string, Value>, prefix: string) {
    IsConfigEntity(Get(def.val, StrKey("type"))) && StartsWith(def.key, prefix)
  }

  /** `$value['mapping'] ?? NULL`. */
  function MappingOf(def: Pair<string, Value>): Value {
    Get(def.val, StrKey("mapping"))
  }

  /**
   * `getMapping`, over the definitions in iteration order: the mapping of
   * the first matching definition (NULL when it has none, without looking
   * further), or `[]` when no definition matches.
   */
  function GetMapping(defs: seq<Pair<string, Value>>, prefix: string): (r: Value)
    ensures (forall i :: 0 <= i < |defs| ==> !Matches(defs[i], prefix)) ==> r == Arr([])
    ensures forall i ::
      (0 <= i < |defs| && Matches(defs[i], prefix) && forall j :: 0 <= j < i ==> !Matches(defs[j], prefix))
      ==> r == MappingOf(defs[i])
  {
    if defs == [] then Arr([])
    else if Matches(defs[0], prefix) then MappingOf(defs[0])
    else
      var r := GetMapping(defs[1..], prefix);
      assert forall i :: 1 <= i < |defs| ==> defs[i] == defs[1..][i - 1];
      r
  }

  /** A first match with no mapping gives NULL whatever follows it. */
  lemma MatchWithoutMappingStops(def: Pair<string, Value>, rest: seq<Pair<string, Value>>, prefix: string)
    requires Matches(def, prefix)
    requires !def.val.Arr? || !HasKey(def.val.entries, StrKey("mapping"))
    ensures GetMapping([def] + rest, prefix) == Null
  {
    if def.val.Arr? {
      LookupFinds(def.val.entries, StrKey("mapping"));
    }
  }
}
