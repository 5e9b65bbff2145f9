/** The policy file, the runtime overlay beside it, and what an edit looks like when it is read back. */
module OverlayFiles {
  import opened Options
  import opened ConfigOverlay
  import opened ProviderConfig

  /** A file that is missing or does not parse is None. */
  function ReadConfig(policy: Option<Object>, runtime: Option<Object>): Object {
    match (policy, runtime)
    case (Some(p), Some(r)) => Merge(p, r)
    case (Some(p), None) => p
    case (None, Some(r)) => r
    case (None, None) => map[]
  }

  /** A file that is missing does not count; the overlay is merged over the policy. */
  lemma ReadConfigExactly(policy: Object, runtime: Object)
    ensures ReadConfig(Some(policy), Some(runtime)) == Merge(policy, runtime)
    ensures ReadConfig(Some(policy), None) == policy
    ensures ReadConfig(None, Some(runtime)) == runtime
    ensures ReadConfig(None, None) == map[]
    ensures ReadConfig(None, Some(runtime)) == Merge(map[], runtime)
  {
    assert Merge(map[], runtime) == runtime;
  }

  class ConfigFiles {
    const policy: Option<Object>
    var runtime: Option<Object>

    constructor (policy: Option<Object>, runtime: Option<Object>)
      ensures this.policy == policy && this.runtime == runtime
    {
      this.policy := policy;
      this.runtime := runtime;
    }

    method ReadConfigFile() returns (config: Object)
      ensures config == ReadConfig(policy, runtime)
    {
      if policy.Some? && runtime.Some? {
        config := DeepMerge(policy.value, runtime.value);
      } else if policy.Some? {
        config := policy.value;
      } else if runtime.Some? {
        config := runtime.value;
      } else {
        config := map[];
      }
    }

    method WriteConfigFile(config: Object)
      modifies this
      ensures runtime == Some(config)
    {
      runtime := Some(config);
    }

    /** Read, upsert the provider and its endpoint, write the whole result as the overlay. */
    method ConfigureProvider(input: ProviderInput) returns (ok: bool)
      modifies this
      ensures var merged := ReadConfig(policy, old(runtime));
              ok <==> !FindThrows(ProvidersOf(merged), "id", input.id)
                      && !FindThrows(EndpointsOf(merged), "label", EndpointLabel(input))
      ensures ok ==> runtime == Some(Configured(ReadConfig(policy, old(runtime)), input))
      ensures ok ==> ProviderEntry(input) in ProvidersOf(ReadConfig(policy, runtime))
      ensures ok ==> (EndpointEntry(input) in EndpointsOf(ReadConfig(policy, runtime))
                      <==> NoArrayContainers(ReadConfig(policy, old(runtime))))
      ensures ok ==> exists e :: e in ProvidersOf(ReadConfig(policy, runtime)) && IsProviderEntry(e, input)
      ensures ok && NoArrayContainers(ReadConfig(policy, old(runtime))) ==>
                exists e :: e in EndpointsOf(ReadConfig(policy, runtime)) && IsEndpointEntry(e, input)
      ensures !ok ==> runtime == old(runtime)
    {
      var raw := ReadConfigFile();
      var rawConfig := new RawConfig(raw);
      var done := rawConfig.UpsertConfiguredProvider(input);
      if !done {
        return false;
      }
      var providers := Upserted(ProvidersOf(raw), "id", input.id, ProviderEntry(input));
      ProvidersOverwrite(raw, providers, []);
      done := rawConfig.UpsertProviderPrivateEndpoint(input);
      if !done {
        return false;
      }
      var endpoints := Upserted(EndpointsOf(raw), "label", EndpointLabel(input), EndpointEntry(input));
      WriteConfigFile(rawConfig.root);
      ProviderEntryFields(input);
      EndpointEntryFields(input);
      ArraysReadBack(policy, raw, providers, endpoints);
      var i := UpsertReadBack(ProvidersOf(raw), "id", input.id, ProviderEntry(input));
      var j := UpsertReadBack(EndpointsOf(raw), "label", EndpointLabel(input), EndpointEntry(input));
      return true;
    }

    /** A provider removed from the merged configuration is gone for every later read, declared by the policy or not. */
    method RemoveProvider(providerId: string) returns (ok: bool, removal: Removal)
      modifies this
      ensures var merged := ReadConfig(policy, old(runtime));
              ok <==> Null !in ProvidersOf(merged) && Null !in EndpointsOf(merged)
      ensures ok ==> EndpointsOf(ReadConfig(policy, runtime)) ==
                     Without(EndpointsOf(ReadConfig(policy, old(runtime))), "label", DefaultEndpointLabel(providerId))
      ensures ok ==> runtime == Some(Removed(ReadConfig(policy, old(runtime)), providerId))
      ensures ok ==> forall e :: e in ProvidersOf(ReadConfig(policy, runtime)) <==>
                                 e in ProvidersOf(ReadConfig(policy, old(runtime))) && !HasField(e, "id", providerId)
      ensures !ok ==> runtime == old(runtime)
    {
      var raw := ReadConfigFile();
      var rawConfig := new RawConfig(raw);
      ok, removal := rawConfig.RemoveConfiguredProvider(providerId);
      if ok {
        WriteConfigFile(rawConfig.root);
        WithoutMembers(ProvidersOf(raw), "id", providerId);
        RemovalReadBack(policy, raw, providerId);
      }
    }
  }

  // ----- One file over another

  /** The file says nothing about the endpoint list, nor replaces an object on the way to it. */
  predicate SilentOnEndpoints(file: Object) {
    "security" in file ==>
      && file["security"].Obj?
      && ("network" in file["security"].fields ==>
            && file["security"].fields["network"].Obj?
            && "privateEndpoints" !in file["security"].fields["network"].fields)
  }

  lemma LayeredFields(below: Object, above: Object, key: string)
    ensures Fields(Merge(below, above), key) ==
            if key !in above then Fields(below, key)
            else if above[key].Obj? then Merge(Fields(below, key), above[key].fields)
            else map[]
  {
    if key in above && above[key].Obj? && !(key in below && below[key].Obj?) {
      assert Merge(map[], above[key].fields) == above[key].fields;
    }
  }

  lemma LayeredItems(below: Object, above: Object, key: string)
    ensures Items(Merge(below, above), key) == if key in above then Items(above, key) else Items(below, key)
  {
  }

  lemma LayeredEndpoints(below: Object, above: Object)
    ensures EndpointsOf(Merge(below, above)) ==
            if SilentOnEndpoints(above) then EndpointsOf(below) else EndpointsOf(above)
  {
    LayeredFields(below, above, "security");
    if "security" in above && above["security"].Obj? {
      var security, security' := Fields(below, "security"), above["security"].fields;
      LayeredFields(security, security', "network");
      if "network" in security' && security'["network"].Obj? {
        LayeredItems(Fields(security, "network"), security'["network"].fields, "privateEndpoints");
      }
    }
  }

  lemma NotSilentAfterWrite(w: Object)
    requires !NoArrayContainers(w) || "privateEndpoints" in Fields(Fields(w, "security"), "network")
    ensures !SilentOnEndpoints(w)
  {
  }

  lemma WrittenOver(policy: Option<Object>, w: Object)
    requires "providers" in w && !SilentOnEndpoints(w)
    ensures ProvidersOf(ReadConfig(policy, Some(w))) == ProvidersOf(w)
    ensures EndpointsOf(ReadConfig(policy, Some(w))) == EndpointsOf(w)
  {
    if policy.Some? {
      LayeredItems(policy.value, w, "providers");
      LayeredEndpoints(policy.value, w);
    }
  }

  /** Both arrays are read back as written, over any policy: an array in the overlay replaces what lies below it. */
  lemma ArraysReadBack(policy: Option<Object>, merged: Object, providers: seq<Json>, endpoints: seq<Json>)
    ensures ProvidersOf(ReadConfig(policy, Some(Edited(merged, providers, endpoints)))) == providers
    ensures EndpointsOf(ReadConfig(policy, Some(Edited(merged, providers, endpoints))))
         == EndpointsKept(merged, endpoints)
  {
    EditedArrays(merged, providers, endpoints);
    NotSilentAfterWrite(Edited(merged, providers, endpoints));
    WrittenOver(policy, Edited(merged, providers, endpoints));
  }

  /** So they are after a removal, also one that turns a `network` array into an object. */
  lemma RemovalReadBack(policy: Option<Object>, merged: Object, providerId: string)
    ensures ProvidersOf(ReadConfig(policy, Some(Removed(merged, providerId))))
         == Without(ProvidersOf(merged), "id", providerId)
    ensures EndpointsOf(ReadConfig(policy, Some(Removed(merged, providerId))))
         == Without(EndpointsOf(merged), "label", DefaultEndpointLabel(providerId))
  {
    var providers := Without(ProvidersOf(merged), "id", providerId);
    var endpoints := Without(EndpointsOf(merged), "label", DefaultEndpointLabel(providerId));
    ProvidersOverwrite(merged, providers, []);
    if NetworkIsArray(WithProviders(merged, providers)) {
      var w := Removed(merged, providerId);
      NotSilentAfterWrite(w);
      WrittenOver(policy, w);
    } else {
      if !NoArrayContainers(merged) {
        ArraysHideEndpoints(merged);
      }
      ArraysReadBack(policy, merged, providers, endpoints);
    }
  }

  // ----- Exactly when the whole configuration is read back as written

  /**
   * Every key of the policy's `security` and `security.network` objects is still visible in the merged
   * configuration, so the overlay has not replaced one of these objects by something else.
   */
  predicate ShadowFree(policy: Object, merged: Object) {
    "security" in policy && policy["security"].Obj? ==>
      var security := policy["security"].fields;
      && security.Keys <= Fields(merged, "security").Keys + {"network"}
      && ("network" in security && security["network"].Obj? ==>
            security["network"].fields.Keys
              <= Fields(Fields(merged, "security"), "network").Keys + {"privateEndpoints"})
  }

  lemma ProvidersCovered(merged: Object, policy: Object, providers: seq<Json>)
    requires Covers(merged, policy)
    ensures Covers(WithProviders(merged, providers), policy)
  {
  }

  /**
   * One object with one of its keys replaced by an object covers what the original covered, given the new
   * child does.
   */
  lemma CoversAfterPut(w: Object, p: Object, key: string, child: Object)
    requires forall k :: k in p && k != key ==> k in w && (p[k].Obj? && w[k].Obj? ==> Covers(w[k].fields, p[k].fields))
    ensures Covers(w[key := Obj(child)], p) <==> (key in p && p[key].Obj? ==> Covers(child, p[key].fields))
  {
  }

  lemma NetworkCovered(security: Object, p: Object, endpoints: seq<Json>)
    requires "network" in p && p["network"].Obj? && "network" in security && security["network"].Obj? ==>
               Covers(security["network"].fields, p["network"].fields)
    requires "network" in p && p["network"].Obj?
    ensures Covers(Fields(security, "network")["privateEndpoints" := Arr(endpoints)], p["network"].fields) <==>
            p["network"].fields.Keys <= Fields(security, "network").Keys + {"privateEndpoints"}
  {
  }

  lemma SecurityCovered(merged: Object, policy: Object, endpoints: seq<Json>)
    requires NoArrayContainers(merged) && Covers(merged, policy) && "security" in policy && policy["security"].Obj?
    ensures Covers(WithEndpoints(merged, endpoints)["security"].fields, policy["security"].fields)
        <==> ShadowFree(policy, merged)
  {
    var p := policy["security"].fields;
    var security := Fields(merged, "security");
    var network := Fields(security, "network")["privateEndpoints" := Arr(endpoints)];
    if p.Keys <= security.Keys + {"network"} {
      assert forall k :: k in p && k != "network" ==> k in security;
      CoversAfterPut(security, p, "network", network);
      if "network" in p && p["network"].Obj? {
        NetworkCovered(security, p, endpoints);
      }
    } else {
      var k :| k in p && k !in security && k != "network";
      assert k !in security["network" := Obj(network)];
    }
  }

  lemma EndpointsCovered(merged: Object, policy: Object, endpoints: seq<Json>)
    requires NoArrayContainers(merged) && Covers(merged, policy)
    ensures Covers(WithEndpoints(merged, endpoints), policy) <==> ShadowFree(policy, merged)
  {
    var security := WithEndpoints(merged, endpoints)["security"].fields;
    CoversAfterPut(merged, policy, "security", security);
    if "security" in policy && policy["security"].Obj? {
      SecurityCovered(merged, policy, endpoints);
    }
  }

  lemma MergedCoversPolicy(policy: Object, runtime: Option<Object>)
    ensures Covers(ReadConfig(Some(policy), runtime), policy)
  {
    if runtime.Some? {
      MergeCoversBase(policy, runtime.value);
    } else {
      CoversItself(policy);
    }
  }

  /**
   * Editing the merged configuration and writing it as the overlay yields exactly the edited configuration
   * on the next read if and only if the overlay had not already shadowed the policy's security objects.
   */
  lemma ReadAfterWriteExactly(policy: Object, runtime: Option<Object>, providers: seq<Json>, endpoints: seq<Json>)
    ensures var merged := ReadConfig(Some(policy), runtime);
            ReadConfig(Some(policy), Some(Edited(merged, providers, endpoints))) == Edited(merged, providers, endpoints)
            <==> ShadowFree(policy, merged) || !NoArrayContainers(merged)
  {
    var merged := ReadConfig(Some(policy), runtime);
    MergedCoversPolicy(policy, runtime);
    ProvidersCovered(merged, policy, providers);
    ProvidersOverwrite(merged, providers, []);
    if NoArrayContainers(merged) {
      EndpointsCovered(WithProviders(merged, providers), policy, endpoints);
    }
    MergeIsOverlayExactly(policy, Edited(merged, providers, endpoints));
  }

  /** Well-formed containers in the merged configuration are enough. */
  lemma WellFormedContainersSuffice(policy: Object, runtime: Option<Object>)
    requires var merged := ReadConfig(Some(policy), runtime);
             && "security" in merged && merged["security"].Obj?
             && "network" in merged["security"].fields && merged["security"].fields["network"].Obj?
    ensures ShadowFree(policy, ReadConfig(Some(policy), runtime))
  {
    MergedCoversPolicy(policy, runtime);
    var merged := ReadConfig(Some(policy), runtime);
    if "security" in policy && policy["security"].Obj? {
      assert Covers(merged["security"].fields, policy["security"].fields);
      var security := policy["security"].fields;
      if "network" in security && security["network"].Obj? {
        assert Covers(merged["security"].fields["network"].fields, security["network"].fields);
      }
    }
  }

  /** An overlay that sets `security` to null hides a policy key, and writing an edit brings the key back. */
  lemma ShadowedKeyReturns(providers: seq<Json>, endpoints: seq<Json>)
    ensures var policy: Object := map["security" := Obj(map["audit" := Bool(true)])];
            var merged := ReadConfig(Some(policy), Some(map["security" := Null]));
            ReadConfig(Some(policy), Some(Edited(merged, providers, endpoints))) != Edited(merged, providers, endpoints)
  {
    var policy: Object := map["security" := Obj(map["audit" := Bool(true)])];
    var runtime: Object := map["security" := Null];
    ReadAfterWriteExactly(policy, Some(runtime), providers, endpoints);
    assert Merge(policy, runtime)["security"] == Null;
    assert "audit" in policy["security"].fields;
  }

  // ----- The private file on top

  /**
   * What `loadConfig` hands to the schema: the private file is merged over policy and overlay. (A policy
   * file that does not parse makes it throw instead.)
   */
  function LoadConfig(policy: Option<Object>, runtime: Option<Object>, secret: Option<Object>): Object {
    var config := ReadConfig(policy, runtime);
    if secret.Some? then Merge(config, secret.value) else config
  }

  /** After an edit the program sees the edited arrays, each if and only if the private file leaves it alone. */
  lemma LoadedAfterEdit(
    policy: Option<Object>, merged: Object, providers: seq<Json>, endpoints: seq<Json>, secret: Object)
    ensures var loaded := LoadConfig(policy, Some(Edited(merged, providers, endpoints)), Some(secret));
            && ProvidersOf(loaded) == (if "providers" in secret then ProvidersOf(secret) else providers)
            && EndpointsOf(loaded)
               == (if SilentOnEndpoints(secret) then EndpointsKept(merged, endpoints) else EndpointsOf(secret))
  {
    ArraysReadBack(policy, merged, providers, endpoints);
    var below := ReadConfig(policy, Some(Edited(merged, providers, endpoints)));
    LayeredItems(below, secret, "providers");
    LayeredEndpoints(below, secret);
  }

  ghost predicate Declares(config: Object, providerId: string) {
    exists e :: e in ProvidersOf(config) && HasField(e, "id", providerId)
  }

  /** A removed provider is back in the program's configuration if and only if the private file declares it. */
  lemma OnlyThePrivateFileRevives(
    policy: Option<Object>, merged: Object, providerId: string, secret: Option<Object>)
    ensures Declares(LoadConfig(policy, Some(Removed(merged, providerId)), secret), providerId)
       <==> secret.Some? && Declares(secret.value, providerId)
  {
    WithoutMembers(ProvidersOf(merged), "id", providerId);
    RemovalReadBack(policy, merged, providerId);
    if secret.Some? {
      LayeredItems(ReadConfig(policy, Some(Removed(merged, providerId))), secret.value, "providers");
    }
  }
}
