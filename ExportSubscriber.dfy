/**
 * The config-export subscriber (class PccSiteEventSubscriber): when the
 * configuration is exported, every PCC site config is written back with its
 * site key and site token blanked, so that the secrets never leave the site.
 */
module ExportSubscriber {
  import opened Php

  /** The value of `ConfigEvents::STORAGE_TRANSFORM_EXPORT`. */
  const StorageTransformExport: string := "config.transform.export"

  /** The prefix of the PCC site config names; there is no trailing dot. */
  const PccSiteConfigPrefix: string := "pcx_connect.pcc_site"

  const SiteKey: Key := StrKey("site_key")
  const SiteToken: Key := StrKey("site_token")

  /** A config's data: its top-level entries in order. */
  type ConfigData = OMap<Key, Value>

  /**
   * `getSubscribedEvents`: one listener, `onExportTransform`, for the export
   * transform event and for no other event.
   */
  function SubscribedEvents(): (events: map<string, seq<seq<string>>>)
    ensures events.Keys == {StorageTransformExport}
    ensures events[StorageTransformExport] == [["onExportTransform"]]
  {
    map[StorageTransformExport := [["onExportTransform"]]]
  }

  // ----------------------------------------------------------------------
  // Selecting the site configs
  // ----------------------------------------------------------------------

  /** The names that start with the prefix, in their original order. */
  function Matching(configs: seq<string>, prefix: string): (r: seq<string>)
    ensures |r| <= |configs|
  {
    if configs == [] then []
    else
      var last := configs[|configs| - 1];
      Matching(configs[..|configs| - 1], prefix) + (if StartsWith(last, prefix) then [last] else [])
  }

  /**
   * The selected names are exactly the names that start with the prefix,
   * and they keep the order they had in the list.
   */
  lemma {:induction false} MatchingIsFilter(configs: seq<string>, prefix: string)
    ensures forall c :: c in Matching(configs, prefix) <==> c in configs && StartsWith(c, prefix)
    ensures IsSubsequence(Matching(configs, prefix), configs)
  {
    if configs != [] {
      var init, last := configs[..|configs| - 1], configs[|configs| - 1];
      MatchingIsFilter(init, prefix);
      assert configs == init + [last];
      var a := Matching(configs, prefix);
      if StartsWith(last, prefix) {
        assert a[..|a| - 1] == Matching(init, prefix);
      } else {
        assert a == Matching(init, prefix);
      }
    }
  }

  /** Without a trailing dot in the prefix, a longer name such as `pcx_connect.pcc_site_x` is selected too. */
  lemma LongerNameMatches()
    ensures Matching(["pcx_connect.pcc_site_x", "pcx_connect.settings"], PccSiteConfigPrefix) == ["pcx_connect.pcc_site_x"]
  {
    var cs := ["pcx_connect.pcc_site_x", "pcx_connect.settings"];
    assert cs[..1] == ["pcx_connect.pcc_site_x"];
    assert cs[..1][..0] == [];
    assert "pcx_connect.pcc_site_x"[..|PccSiteConfigPrefix|] == PccSiteConfigPrefix;
    assert "pcx_connect.settings"[..|PccSiteConfigPrefix|] != PccSiteConfigPrefix by {
      assert "pcx_connect.settings"[12] != PccSiteConfigPrefix[12];
    }
  }

  /** `getPccSiteConfigs`: the loop that keeps the names starting with the prefix. */
  method GetPccSiteConfigs(configs: seq<string>, prefix: string) returns (r: seq<string>)
    ensures r == Matching(configs, prefix)
  {
    r := [];
    var i := 0;
    while i < |configs|
      invariant 0 <= i <= |configs|
      invariant r == Matching(configs[..i], prefix)
    {
      assert configs[..i + 1][..i] == configs[..i];
      if StartsWith(configs[i], prefix) {
        r := r + [configs[i]];
      }
      i := i + 1;
    }
    assert configs[..i] == configs;
  }

  // ----------------------------------------------------------------------
  // Blanking the secrets
  // ----------------------------------------------------------------------

  /** `$pcc_site['site_key'] = ''; $pcc_site['site_token'] = '';` */
  function Blank(data: ConfigData): ConfigData {
    data.Put(SiteKey, Str("")).Put(SiteToken, Str(""))
  }

  /**
   * After blanking, both secrets are `''`; every other entry keeps its value
   * and the existing entries keep their order (a missing secret is added at
   * the end); blanking twice is blanking once.
   */
  lemma BlankSecrets(data: ConfigData)
    ensures data.Valid() ==> Blank(data).Valid()
    ensures SiteKey in Blank(data).vals && Blank(data).vals[SiteKey] == Str("")
    ensures SiteToken in Blank(data).vals && Blank(data).vals[SiteToken] == Str("")
    ensures forall k :: k in data.vals && k != SiteKey && k != SiteToken ==> k in Blank(data).vals && Blank(data).vals[k] == data.vals[k]
    ensures forall k :: k in Blank(data).vals ==> k in data.vals || k == SiteKey || k == SiteToken
    ensures |data.keys| <= |Blank(data).keys| && Blank(data).keys[..|data.keys|] == data.keys
    ensures Blank(Blank(data)) == Blank(data)
  {
    var once := Blank(data);
    assert once.keys[..|data.keys|] == data.keys by {
      var mid := data.Put(SiteKey, Str(""));
      assert mid.keys[..|data.keys|] == data.keys;
    }
    assert Blank(once).vals == once.vals;
  }

  /**
   * What the export leaves in storage: the same names in the same order,
   * every name with the prefix blanked and every other config as it was.
   */
  function ExportTransform(configs: OMap<string, ConfigData>, prefix: string): OMap<string, ConfigData> {
    OMap(configs.keys, map n | n in configs.vals :: if StartsWith(n, prefix) then Blank(configs.vals[n]) else configs.vals[n])
  }

  /**
   * After the export transform every selected config has both secrets
   * blanked and its other entries unchanged, every other config is as it
   * was, and a second transform changes nothing.
   */
  lemma ExportTransformBlanksSecrets(configs: OMap<string, ConfigData>, prefix: string, n: string)
    requires configs.Valid()
    ensures ExportTransform(configs, prefix).Valid()
    ensures n in ExportTransform(configs, prefix).vals <==> n in configs.vals
    ensures n in configs.vals && StartsWith(n, prefix) ==>
      var data := ExportTransform(configs, prefix).vals[n];
      && SiteKey in data.vals && data.vals[SiteKey] == Str("")
      && SiteToken in data.vals && data.vals[SiteToken] == Str("")
      && forall k :: k in configs.vals[n].vals && k != SiteKey && k != SiteToken ==> k in data.vals && data.vals[k] == configs.vals[n].vals[k]
    ensures n in configs.vals && !StartsWith(n, prefix) ==> ExportTransform(configs, prefix).vals[n] == configs.vals[n]
  {
    if n in configs.vals {
      BlankSecrets(configs.vals[n]);
    }
  }

  /** Applying the export transform twice gives the storage it gives once. */
  lemma ExportTransformIdempotent(configs: OMap<string, ConfigData>, prefix: string)
    ensures ExportTransform(ExportTransform(configs, prefix), prefix) == ExportTransform(configs, prefix)
  {
    var once := ExportTransform(configs, prefix);
    forall n | n in configs.vals && StartsWith(n, prefix)
      ensures Blank(once.vals[n]) == once.vals[n]
    {
      BlankSecrets(configs.vals[n]);
    }
  }

  // ----------------------------------------------------------------------
  // The storage and the listener
  // ----------------------------------------------------------------------

  /** The config storage the export event carries: config name to data. */
  class ConfigStorage {
    var configs: OMap<string, ConfigData>
    /** The names written, in the order of the writes. */
    ghost var writes: seq<string>

    ghost predicate Valid()
      reads this
    {
      configs.Valid()
    }

    constructor (initial: OMap<string, ConfigData>)
      requires initial.Valid()
      ensures Valid() && configs == initial && writes == []
    {
      configs := initial;
      writes := [];
    }

    /** `listAll`: every config name. */
    method ListAll() returns (names: seq<string>)
      ensures names == configs.keys
    {
      names := configs.keys;
    }

    /** `read`: the data stored under the name; None (PHP `false`) when there is none. */
    method Read(name: string) returns (data: Option<ConfigData>)
      ensures name in configs.vals <==> data.Some?
      ensures data.Some? ==> data.value == configs.vals[name]
    {
      if name in configs.vals {
        data := Some(configs.vals[name]);
      } else {
        data := None;
      }
    }

    /** `write`: stores the data under the name. */
    method Write(name: string, data: ConfigData)
      modifies this
      ensures configs == old(configs).Put(name, data)
      ensures writes == old(writes) + [name]
    {
      configs := configs.Put(name, data);
      writes := writes + [name];
    }
  }

  /** The storage part-way through the export: the names in `done` blanked. */
  ghost function Progress(orig: OMap<string, ConfigData>, done: seq<string>): OMap<string, ConfigData> {
    OMap(orig.keys, map n | n in orig.vals :: if n in done then Blank(orig.vals[n]) else orig.vals[n])
  }

  /** Reading, blanking and writing back one more name extends the progress by it. */
  lemma ProgressStep(orig: OMap<string, ConfigData>, done: seq<string>, name: string, site: ConfigData)
    requires orig.Valid() && name in orig.vals
    requires site == Progress(orig, done).vals[name]
    ensures Progress(orig, done).Put(name, Blank(site)) == Progress(orig, done + [name])
  {
    var put, after := Progress(orig, done).Put(name, Blank(site)), Progress(orig, done + [name]);
    assert put.keys == after.keys;
    forall n | n in orig.vals
      ensures put.vals[n] == after.vals[n]
    {
      if n == name {
        BlankSecrets(orig.vals[name]);
      } else {
        assert n in done + [name] <==> n in done;
      }
    }
    assert put.vals == after.vals;
  }

  /** Once every selected name is done, the storage is the export transform of the original. */
  lemma ProgressDone(orig: OMap<string, ConfigData>, prefix: string)
    requires orig.Valid()
    ensures Progress(orig, Matching(orig.keys, prefix)) == ExportTransform(orig, prefix)
  {
    var names := Matching(orig.keys, prefix);
    var done, all := Progress(orig, names), ExportTransform(orig, prefix);
    assert done.vals.Keys == all.vals.Keys;
    forall n | n in orig.vals
      ensures done.vals[n] == all.vals[n]
    {
      MatchingIsFilter(orig.keys, prefix);
      assert n in names <==> StartsWith(n, prefix);
    }
    assert done.vals == all.vals;
  }

  /**
   * The body of the loop of `onExportTransform`: the config is read, its
   * secrets are blanked and it is written back.
   */
  method BlankSiteConfig(storage: ConfigStorage, ghost orig: OMap<string, ConfigData>, names: seq<string>, j: int)
    requires orig.Valid() && 0 <= j < |names| && names[j] in orig.vals
    requires storage.configs == Progress(orig, names[..j])
    modifies storage
    ensures storage.configs == Progress(orig, names[..j + 1])
    ensures storage.writes == old(storage.writes) + [names[j]]
  {
    var name := names[j];
    TakeSnoc(names, j);
    var data := storage.Read(name);
    var site := if data.Some? then data.value else EmptyMap();
    ProgressStep(orig, names[..j], name, site);
    ghost var blanked := Blank(site);
    site := site.Put(SiteKey, Str(""));
    site := site.Put(SiteToken, Str(""));
    assert site == blanked;
    storage.Write(name, site);
  }

  /**
   * `onExportTransform`: every PCC site config is read, blanked and written
   * back, in the order the storage lists them; no other config is written.
   */
  method OnExportTransform(storage: ConfigStorage)
    requires storage.Valid()
    modifies storage
    ensures storage.Valid()
    ensures storage.configs == ExportTransform(old(storage.configs), PccSiteConfigPrefix)
    ensures storage.writes == old(storage.writes) + Matching(old(storage.configs).keys, PccSiteConfigPrefix)
  {
    ghost var orig, written := storage.configs, storage.writes;
    var all := storage.ListAll();
    var names := GetPccSiteConfigs(all, PccSiteConfigPrefix);
    assert forall n :: n in names ==> n in orig.vals by {
      MatchingIsFilter(all, PccSiteConfigPrefix);
    }
    assert Progress(orig, []) == orig;
    if names != [] {
      var j := 0;
      while j < |names|
        invariant 0 <= j <= |names|
        invariant storage.configs == Progress(orig, names[..j])
        invariant storage.writes == written + names[..j]
      {
        BlankSiteConfig(storage, orig, names, j);
        AppendTakeSnoc(written, names, j);
        j := j + 1;
      }
      assert names[..j] == names;
    }
    ProgressDone(orig, PccSiteConfigPrefix);
    assert storage.Valid() by {
      ExportTransformBlanksSecrets(orig, PccSiteConfigPrefix, "");
    }
  }
}
