/** Editing the provider list of the merged configuration and writing it back as the runtime overlay. */
module ProviderConfig {
  import opened Options
  import opened Text
  import opened ConfigOverlay

  /** The provider input; normalization has produced `baseUrl`, `host`, `port` and the list of services. */
  datatype ProviderInput = ProviderInput(
    id: string, baseUrl: string, services: seq<string>, description: Option<string>,
    endpointLabel: Option<string>, endpointDescription: Option<string>, host: string, port: string)

  // ----- Array elements: found by a string field, replaced or filtered

  /** `element[field] === value`; reading a field of `null` throws. */
  predicate HasField(element: Json, field: string, value: string) {
    element.Obj? && field in element.fields && element.fields[field] == Str(value)
  }

  /** `findIndex` meets `null` before it meets a match. */
  predicate FindThrows(elements: seq<Json>, field: string, value: string) {
    elements != []
    && (elements[0] == Null
        || (!HasField(elements[0], field, value) && FindThrows(elements[1..], field, value)))
  }

  /** The scan throws exactly when a null stands before every match. */
  lemma {:induction false} FindThrowsExactly(elements: seq<Json>, field: string, value: string)
    ensures FindThrows(elements, field, value) <==>
              exists k :: 0 <= k < |elements| && elements[k] == Null
                          && forall j :: 0 <= j < k ==> !HasField(elements[j], field, value)
  {
    if elements != [] {
      var rest := elements[1..];
      FindThrowsExactly(rest, field, value);
      if k :| 0 <= k < |rest| && rest[k] == Null && forall j :: 0 <= j < k ==> !HasField(rest[j], field, value) {
        assert elements[k + 1] == Null;
        assert forall j :: 0 < j < k + 1 ==> elements[j] == rest[j - 1];
      }
      if k :| 0 < k < |elements| && elements[k] == Null
              && forall j :: 0 <= j < k ==> !HasField(elements[j], field, value) {
        assert rest[k - 1] == Null;
        assert forall j :: 0 <= j < k - 1 ==> rest[j] == elements[j + 1];
        assert !HasField(elements[0], field, value);
      }
    }
  }

  /** The elements with the first match replaced, or with `next` at the end when there is none. */
  function Upserted(elements: seq<Json>, field: string, value: string, next: Json): seq<Json> {
    if elements == [] then [next]
    else if HasField(elements[0], field, value) then [next] + elements[1..]
    else [elements[0]] + Upserted(elements[1..], field, value, next)
  }

  function Without(elements: seq<Json>, field: string, value: string): (kept: seq<Json>)
    ensures |kept| <= |elements|
  {
    if elements == [] then []
    else if HasField(elements[0], field, value) then Without(elements[1..], field, value)
    else [elements[0]] + Without(elements[1..], field, value)
  }

  method FindIndex(elements: seq<Json>, field: string, value: string) returns (threw: bool, index: int)
    ensures threw <==> FindThrows(elements, field, value)
    ensures !threw ==> -1 <= index < |elements|
    ensures !threw && index == -1 ==> forall k :: 0 <= k < |elements| ==> !HasField(elements[k], field, value)
    ensures !threw && index >= 0 ==> HasField(elements[index], field, value)
                                     && forall k :: 0 <= k < index ==> !HasField(elements[k], field, value)
  {
    threw, index := false, 0;
    while index < |elements|
      invariant 0 <= index <= |elements|
      invariant FindThrows(elements, field, value) <==> FindThrows(elements[index..], field, value)
      invariant forall k :: 0 <= k < index ==> !HasField(elements[k], field, value)
    {
      if elements[index] == Null {
        return true, index;
      }
      if HasField(elements[index], field, value) {
        return;
      }
      assert elements[index..][1..] == elements[index + 1..];
      index := index + 1;
    }
    index := -1;
  }

  lemma {:induction false} UpsertByIndex(elements: seq<Json>, field: string, value: string, next: Json, index: int)
    requires -1 <= index < |elements|
    requires index == -1 ==> forall k :: 0 <= k < |elements| ==> !HasField(elements[k], field, value)
    requires index >= 0 ==> HasField(elements[index], field, value)
                            && forall k :: 0 <= k < index ==> !HasField(elements[k], field, value)
    ensures Upserted(elements, field, value, next) == if index == -1 then elements + [next] else elements[index := next]
    decreases |elements|
  {
    if elements != [] && index != 0 {
      assert !HasField(elements[0], field, value);
      UpsertByIndex(elements[1..], field, value, next, if index == -1 then -1 else index - 1);
      assert elements == [elements[0]] + elements[1..];
    }
  }

  /** An upsert changes one position at most, and afterwards the first match, at `k`, is `next`. */
  lemma {:induction false} UpsertReadBack(elements: seq<Json>, field: string, value: string, next: Json)
      returns (k: nat)
    requires HasField(next, field, value)
    ensures k < |Upserted(elements, field, value, next)| && Upserted(elements, field, value, next)[k] == next
    ensures forall i :: 0 <= i < k ==> !HasField(Upserted(elements, field, value, next)[i], field, value)
    ensures k <= |elements| && (k < |elements| ==> HasField(elements[k], field, value))
    ensures Upserted(elements, field, value, next) == if k < |elements| then elements[k := next] else elements + [next]
    decreases |elements|
  {
    if elements == [] || HasField(elements[0], field, value) {
      k := 0;
    } else {
      var rest := UpsertReadBack(elements[1..], field, value, next);
      k := rest + 1;
      assert elements == [elements[0]] + elements[1..];
    }
  }

  /** In one array, removing what was just added or edited is the same as removing it before. */
  lemma {:induction false} RemoveUndoesUpsert(elements: seq<Json>, field: string, value: string, next: Json)
    requires HasField(next, field, value)
    ensures Without(Upserted(elements, field, value, next), field, value) == Without(elements, field, value)
    decreases |elements|
  {
    if elements != [] && !HasField(elements[0], field, value) {
      RemoveUndoesUpsert(elements[1..], field, value, next);
    }
  }

  lemma {:induction false} UpsertTwice(elements: seq<Json>, field: string, value: string, next: Json)
    requires HasField(next, field, value)
    ensures Upserted(Upserted(elements, field, value, next), field, value, next)
        == Upserted(elements, field, value, next)
    decreases |elements|
  {
    if elements != [] && !HasField(elements[0], field, value) {
      UpsertTwice(elements[1..], field, value, next);
    }
  }

  /** The first element that matches is `next` already. */
  predicate FirstMatchIs(elements: seq<Json>, field: string, value: string, next: Json) {
    elements != []
    && if HasField(elements[0], field, value) then elements[0] == next
       else FirstMatchIs(elements[1..], field, value, next)
  }

  lemma {:induction false} UpsertIsNoop(elements: seq<Json>, field: string, value: string, next: Json)
    ensures Upserted(elements, field, value, next) == elements <==> FirstMatchIs(elements, field, value, next)
    ensures next in Upserted(elements, field, value, next)
    decreases |elements|
  {
    if elements != [] {
      assert elements == [elements[0]] + elements[1..];
      if !HasField(elements[0], field, value) {
        UpsertIsNoop(elements[1..], field, value, next);
        assert Upserted(elements, field, value, next)[1..] == Upserted(elements[1..], field, value, next);
      }
    }
  }

  /** A removal of other elements passes an upsert by. */
  lemma {:induction false} WithoutOthers(elements: seq<Json>, field: string, value: string, other: string, next: Json)
    requires HasField(next, field, value) && value != other
    ensures Without(Upserted(elements, field, value, next), field, other)
         == Upserted(Without(elements, field, other), field, value, next)
    ensures FirstMatchIs(Without(elements, field, other), field, value, next)
       <==> FirstMatchIs(elements, field, value, next)
    decreases |elements|
  {
    if elements != [] {
      var rest := elements[1..];
      WithoutOthers(rest, field, value, other, next);
      if HasField(elements[0], field, value) {
        assert Without(elements, field, other) == [elements[0]] + Without(rest, field, other);
        assert ([next] + rest)[1..] == rest;
      } else if !HasField(elements[0], field, other) {
        assert Without(elements, field, other) == [elements[0]] + Without(rest, field, other);
        assert ([elements[0]] + Upserted(rest, field, value, next))[1..] == Upserted(rest, field, value, next);
      }
    }
  }

  /** Removing the elements with another value undoes an upsert only if the upsert changed nothing. */
  lemma RemoveMissesUpsert(elements: seq<Json>, field: string, value: string, other: string, next: Json)
    requires HasField(next, field, value) && value != other
    ensures Without(Upserted(elements, field, value, next), field, other) == Without(elements, field, other)
       <==> FirstMatchIs(elements, field, value, next)
    ensures next in Without(Upserted(elements, field, value, next), field, other)
  {
    WithoutOthers(elements, field, value, other, next);
    UpsertIsNoop(Without(elements, field, other), field, value, next);
  }

  // ----- The configuration object and its two arrays

  function Fields(root: Object, key: string): Object {
    if key in root && root[key].Obj? then root[key].fields else map[]
  }

  function Items(root: Object, key: string): seq<Json> {
    if key in root && root[key].Arr? then root[key].items else []
  }

  function ProvidersOf(root: Object): seq<Json> {
    Items(root, "providers")
  }

  function EndpointsOf(root: Object): seq<Json> {
    Items(Fields(Fields(root, "security"), "network"), "privateEndpoints")
  }

  function WithProviders(root: Object, providers: seq<Json>): Object {
    root["providers" := Arr(providers)]
  }

  /** `security` and `security.network` may be anything but arrays. */
  predicate NoArrayContainers(root: Object) {
    && ("security" in root ==> !root["security"].Arr?)
    && ("network" in Fields(root, "security") ==> !Fields(root, "security")["network"].Arr?)
  }

  /** Any missing or non-object container on the way becomes an object. */
  function PutEndpoints(root: Object, endpoints: seq<Json>): Object {
    var security := Fields(root, "security");
    var network := Fields(security, "network")["privateEndpoints" := Arr(endpoints)];
    root["security" := Obj(security["network" := Obj(network)])]
  }

  /** On an array the list becomes a named property, which serialization drops. */
  function WithEndpoints(root: Object, endpoints: seq<Json>): Object {
    if NoArrayContainers(root) then PutEndpoints(root, endpoints) else root
  }

  /** What is left of a list written to `root`. */
  function EndpointsKept(root: Object, endpoints: seq<Json>): seq<Json> {
    if NoArrayContainers(root) then endpoints else []
  }

  lemma PutOverwrites(root: Object, first: seq<Json>, second: seq<Json>)
    ensures PutEndpoints(PutEndpoints(root, first), second) == PutEndpoints(root, second)
    ensures EndpointsOf(PutEndpoints(root, first)) == first && NoArrayContainers(PutEndpoints(root, first))
  {
    var once := PutEndpoints(root, first);
    var security := Fields(root, "security");
    var network := Fields(security, "network");
    assert Fields(once, "security") == security["network" := Obj(network["privateEndpoints" := Arr(first)])];
    assert Fields(Fields(once, "security"), "network") == network["privateEndpoints" := Arr(first)];
    assert network["privateEndpoints" := Arr(first)]["privateEndpoints" := Arr(second)]
        == network["privateEndpoints" := Arr(second)];
    var network2 := network["privateEndpoints" := Arr(second)];
    assert security["network" := Obj(network["privateEndpoints" := Arr(first)])]["network" := Obj(network2)]
        == security["network" := Obj(network2)];
  }

  /** Writing the endpoints twice keeps the second list only, and the provider list is elsewhere. */
  lemma EndpointsOverwrite(root: Object, first: seq<Json>, second: seq<Json>)
    ensures WithEndpoints(WithEndpoints(root, first), second) == WithEndpoints(root, second)
    ensures EndpointsOf(WithEndpoints(root, first)) == EndpointsKept(root, first)
    ensures NoArrayContainers(WithEndpoints(root, first)) == NoArrayContainers(root)
    ensures ProvidersOf(WithEndpoints(root, first)) == ProvidersOf(root)
  {
    PutOverwrites(root, first, second);
  }

  lemma ProvidersOverwrite(root: Object, first: seq<Json>, second: seq<Json>)
    ensures WithProviders(WithProviders(root, first), second) == WithProviders(root, second)
    ensures ProvidersOf(WithProviders(root, first)) == first
    ensures EndpointsOf(WithProviders(root, first)) == EndpointsOf(root)
    ensures NoArrayContainers(WithProviders(root, first)) == NoArrayContainers(root)
  {
    assert Fields(WithProviders(root, first), "security") == Fields(root, "security");
  }

  /** Spreading an array into an object: its elements under their indices. */
  function Spread(items: seq<Json>): Object {
    if items == [] then map[] else Spread(items[..|items| - 1])[Decimal(|items| - 1) := items[|items| - 1]]
  }

  lemma {:induction false} SpreadHolds(items: seq<Json>, i: nat)
    requires i < |items|
    ensures Decimal(i) in Spread(items) && Spread(items)[Decimal(i)] == items[i]
  {
    var last := |items| - 1;
    if i < last {
      if Decimal(i) == Decimal(last) {
        DecimalInjective(i, last);
      }
      SpreadHolds(items[..last], i);
    }
  }

  lemma {:induction false} SpreadHoldsOnly(items: seq<Json>, key: string) returns (i: nat)
    requires key in Spread(items)
    ensures i < |items| && key == Decimal(i)
  {
    var last := |items| - 1;
    if key == Decimal(last) {
      i := last;
    } else {
      i := SpreadHoldsOnly(items[..last], key);
    }
  }

  predicate NetworkIsArray(root: Object) {
    "network" in Fields(root, "security") && Fields(root, "security")["network"].Arr?
  }

  /** A removal replaces `network` by a copy with the new list; a copy of an array is an object. */
  function AfterRemoval(root: Object, endpoints: seq<Json>): Object {
    if NetworkIsArray(root) then
      var security := Fields(root, "security");
      var network := Spread(security["network"].items)["privateEndpoints" := Arr(endpoints)];
      root["security" := Obj(security["network" := Obj(network)])]
    else WithEndpoints(root, endpoints)
  }

  function EndpointLabel(input: ProviderInput): string {
    if input.endpointLabel.Some? && Trim(input.endpointLabel.value) != "" then Trim(input.endpointLabel.value)
    else DefaultEndpointLabel(input.id)
  }

  function DefaultEndpointLabel(id: string): string {
    "provider-" + id
  }

  function Strings(items: seq<string>): seq<Json> {
    seq(|items|, i requires 0 <= i < |items| => Str(items[i]))
  }

  /** An undefined description is dropped when the configuration is serialized. */
  function ProviderEntry(input: ProviderInput): (entry: Json)
    ensures HasField(entry, "id", input.id)
  {
    var fields := map["id" := Str(input.id), "baseUrl" := Str(input.baseUrl),
        "services" := Arr(Strings(input.services))];
    Obj(if input.description.Some? then fields["description" := Str(input.description.value)] else fields)
  }

  function EndpointDescription(input: ProviderInput): string {
    if input.endpointDescription.Some? && Trim(input.endpointDescription.value) != ""
    then Trim(input.endpointDescription.value)
    else if input.description.Some? && input.description.value != "" then input.description.value
    else input.id + " provider sidecar"
  }

  function EndpointEntry(input: ProviderInput): (entry: Json)
    ensures HasField(entry, "label", EndpointLabel(input))
  {
    Obj(map["label" := Str(EndpointLabel(input)), "host" := Str(input.host), "ports" := Arr([Num(input.port)]),
            "description" := Str(EndpointDescription(input))])
  }

  // ----- The entries, field by field

  /** A text without its white space, where there is one. */
  predicate Given(text: Option<string>) {
    text.Some? && !AllSpace(text.value)
  }

  ghost predicate IsProviderEntry(e: Json, input: ProviderInput) {
    && e.Obj? && {"id", "baseUrl", "services"} <= e.fields.Keys <= {"id", "baseUrl", "services", "description"}
    && e.fields["id"] == Str(input.id) && e.fields["baseUrl"] == Str(input.baseUrl)
    && e.fields["services"].Arr? && |e.fields["services"].items| == |input.services|
    && (forall k :: 0 <= k < |input.services| ==> e.fields["services"].items[k] == Str(input.services[k]))
    && ("description" in e.fields <==> input.description.Some?)
    && (input.description.Some? ==> e.fields["description"] == Str(input.description.value))
  }

  ghost predicate IsEndpointEntry(e: Json, input: ProviderInput) {
    && e.Obj? && e.fields.Keys == {"label", "host", "ports", "description"}
    && e.fields["host"] == Str(input.host) && e.fields["ports"] == Arr([Num(input.port)])
    && e.fields["label"].Str? && e.fields["description"].Str?
    && (if Given(input.endpointLabel) then Stripped(e.fields["label"].s, input.endpointLabel.value)
        else e.fields["label"].s == "provider-" + input.id)
    && (if Given(input.endpointDescription) then Stripped(e.fields["description"].s, input.endpointDescription.value)
        else if input.description.Some? && input.description.value != ""
        then e.fields["description"].s == input.description.value
        else e.fields["description"].s == input.id + " provider sidecar")
  }

  lemma ProviderEntryFields(input: ProviderInput)
    ensures IsProviderEntry(ProviderEntry(input), input)
  {
  }

  lemma EndpointEntryFields(input: ProviderInput)
    ensures IsEndpointEntry(EndpointEntry(input), input)
  {
    if input.endpointLabel.Some? {
      TrimStrips(input.endpointLabel.value);
    }
    if input.endpointDescription.Some? {
      TrimStrips(input.endpointDescription.value);
    }
  }

  /** Different providers have different default labels, so no removal takes another provider's endpoint by it. */
  lemma DefaultLabelsDiffer(id: string, other: string)
    requires DefaultEndpointLabel(id) == DefaultEndpointLabel(other)
    ensures id == other && DefaultEndpointLabel(id) == "provider-" + id
  {
    assert DefaultEndpointLabel(id)[9..] == id && DefaultEndpointLabel(other)[9..] == other;
  }

  // ----- The edits, in place

  datatype Removal = Removal(removedProvider: bool, removedPrivateEndpoint: bool)

  /** The configuration object, by the text that it is serialized to. */
  class RawConfig {
    var root: Object
    var hidden: seq<Json>  // the endpoint list that hangs on an array as a named property

    constructor (root: Object)
      ensures this.root == root && hidden == []
    {
      this.root := root;
      hidden := [];
    }

    function Endpoints(): seq<Json>
      reads this
    {
      if NoArrayContainers(root) then EndpointsOf(root) else hidden
    }

    /** Returns false when the scan of the array throws; nothing is written then. */
    method UpsertConfiguredProvider(input: ProviderInput) returns (ok: bool)
      modifies this`root
      ensures ok <==> !FindThrows(ProvidersOf(old(root)), "id", input.id)
      ensures ok ==>
                root == WithProviders(old(root), Upserted(ProvidersOf(old(root)), "id", input.id, ProviderEntry(input)))
    {
      var providers := EnsureProviderConfigArray();
      var next := ProviderEntry(input);
      var threw, existingIndex := FindIndex(providers, "id", input.id);
      if threw {
        return false;
      }
      UpsertByIndex(providers, "id", input.id, next, existingIndex);
      if existingIndex == -1 {
        providers := providers + [next];
      } else {
        providers := providers[existingIndex := next];
      }
      root := root["providers" := Arr(providers)];
      return true;
    }

    method EnsureProviderConfigArray() returns (providers: seq<Json>)
      modifies this`root
      ensures providers == ProvidersOf(old(root))
      ensures root == WithProviders(old(root), providers)
    {
      if !("providers" in root && root["providers"].Arr?) {
        root := root["providers" := Arr([])];
      }
      providers := root["providers"].items;
    }

    method EnsurePrivateEndpointsArray() returns (endpoints: seq<Json>)
      modifies this`root
      ensures endpoints == old(Endpoints())
      ensures root == WithEndpoints(old(root), endpoints)
    {
      if !("security" in root && (root["security"].Obj? || root["security"].Arr?)) {
        root := root["security" := Obj(map[])];
      }
      if root["security"].Arr? {
        return hidden;
      }
      var security := root["security"].fields;
      if !("network" in security && (security["network"].Obj? || security["network"].Arr?)) {
        security := security["network" := Obj(map[])];
      }
      if security["network"].Arr? {
        return hidden;
      }
      var network := security["network"].fields;
      if !("privateEndpoints" in network && network["privateEndpoints"].Arr?) {
        network := network["privateEndpoints" := Arr([])];
      }
      endpoints := network["privateEndpoints"].items;
      ghost var before := Fields(old(root), "security");
      assert network == Fields(before, "network")["privateEndpoints" := Arr(endpoints)];
      assert security["network" := Obj(network)] == before["network" := Obj(network)];
      assert root["security" := Obj(before["network" := Obj(network)])]
          == old(root)["security" := Obj(before["network" := Obj(network)])];
      root := root["security" := Obj(security["network" := Obj(network)])];
    }

    /** The list is changed where it hangs: in the object, or on an array, out of the serializer's sight. */
    method StoreEndpoints(endpoints: seq<Json>)
      modifies this
      ensures root == WithEndpoints(old(root), endpoints)
      ensures hidden == if NoArrayContainers(old(root)) then old(hidden) else endpoints
    {
      if NoArrayContainers(root) {
        root := PutEndpoints(root, endpoints);
      } else {
        hidden := endpoints;
      }
    }

    method UpsertProviderPrivateEndpoint(input: ProviderInput) returns (ok: bool)
      modifies this
      ensures ok <==> !FindThrows(old(Endpoints()), "label", EndpointLabel(input))
      ensures ok ==> var endpoints := Upserted(old(Endpoints()), "label", EndpointLabel(input), EndpointEntry(input));
                     && root == WithEndpoints(old(root), endpoints)
                     && hidden == if NoArrayContainers(old(root)) then old(hidden) else endpoints
    {
      var endpoints := EnsurePrivateEndpointsArray();
      ghost var found := endpoints;
      var endpointLabel := EndpointLabel(input);
      var next := EndpointEntry(input);
      var threw, existingIndex := FindIndex(endpoints, "label", endpointLabel);
      if threw {
        return false;
      }
      UpsertByIndex(endpoints, "label", endpointLabel, next, existingIndex);
      if existingIndex == -1 {
        endpoints := endpoints + [next];
      } else {
        endpoints := endpoints[existingIndex := next];
      }
      EndpointsOverwrite(old(root), found, endpoints);
      StoreEndpoints(endpoints);
      return true;
    }

    /** The `network` object is replaced by a copy; the copy of an array is an object and takes the list with it. */
    method ReplaceNetwork(endpoints: seq<Json>)
      modifies this
      ensures root == AfterRemoval(old(root), endpoints)
      ensures hidden == if NoArrayContainers(old(root)) || NetworkIsArray(old(root)) then old(hidden) else endpoints
    {
      if NetworkIsArray(root) {
        var security := root["security"].fields;
        var network := Spread(security["network"].items)["privateEndpoints" := Arr(endpoints)];
        root := root["security" := Obj(security["network" := Obj(network)])];
      } else {
        StoreEndpoints(endpoints);
      }
    }

    method RemoveConfiguredProvider(providerId: string) returns (ok: bool, removal: Removal)
      modifies this
      ensures ok <==> Null !in ProvidersOf(old(root)) && Null !in old(Endpoints())
      ensures ok ==> root == RemovedWith(old(root), old(Endpoints()), providerId)
      ensures ok ==>
                removal.removedProvider == (exists e :: e in ProvidersOf(old(root)) && HasField(e, "id", providerId))
      ensures ok ==> removal.removedPrivateEndpoint ==
                     (exists e :: e in old(Endpoints()) && HasField(e, "label", DefaultEndpointLabel(providerId)))
    {
      removal := Removal(false, false);
      var providers := EnsureProviderConfigArray();
      if Null in providers {
        return false, removal;
      }
      var nextProviders := Filter(providers, "id", providerId);
      root := root["providers" := Arr(nextProviders)];

      ProvidersOverwrite(old(root), providers, nextProviders);
      var endpoints := EnsurePrivateEndpointsArray();
      if Null in endpoints {
        return false, removal;
      }
      var endpointLabel := DefaultEndpointLabel(providerId);
      var nextEndpoints := Filter(endpoints, "label", endpointLabel);
      RemovalOverwrites(WithProviders(old(root), nextProviders), endpoints, nextEndpoints);
      ReplaceNetwork(nextEndpoints);
      WithoutShrinks(providers, "id", providerId);
      WithoutShrinks(endpoints, "label", endpointLabel);
      return true, Removal(|nextProviders| != |providers|, |nextEndpoints| != |endpoints|);
    }
  }

  lemma RemovalOverwrites(root: Object, first: seq<Json>, second: seq<Json>)
    ensures AfterRemoval(WithEndpoints(root, first), second) == AfterRemoval(root, second)
  {
    EndpointsOverwrite(root, first, second);
  }

  method Filter(elements: seq<Json>, field: string, value: string) returns (kept: seq<Json>)
    ensures kept == Without(elements, field, value)
  {
    kept := [];
    for k := 0 to |elements|
      invariant Without(elements, field, value) == kept + Without(elements[k..], field, value)
    {
      assert elements[k..][1..] == elements[k + 1..];
      if !HasField(elements[k], field, value) {
        kept := kept + [elements[k]];
      }
    }
  }

  lemma {:induction false} WithoutMembers(elements: seq<Json>, field: string, value: string)
    ensures forall e :: e in Without(elements, field, value) <==> e in elements && !HasField(e, field, value)
  {
    if elements != [] {
      WithoutMembers(elements[1..], field, value);
      assert elements == [elements[0]] + elements[1..];
    }
  }

  lemma {:induction false} WithoutShrinks(elements: seq<Json>, field: string, value: string)
    ensures |Without(elements, field, value)| != |elements| <==> exists e :: e in elements && HasField(e, field, value)
  {
    if elements != [] {
      WithoutShrinks(elements[1..], field, value);
      assert elements == [elements[0]] + elements[1..];
      assert HasField(elements[0], field, value) ==> elements[0] in elements;
    }
  }

  /** Filtering works element by element, so it keeps the order. */
  lemma {:induction false} WithoutKeepsOrder(front: seq<Json>, back: seq<Json>, field: string, value: string)
    ensures Without(front + back, field, value) == Without(front, field, value) + Without(back, field, value)
    decreases |front|
  {
    if front == [] {
      assert front + back == back;
    } else {
      WithoutKeepsOrder(front[1..], back, field, value);
      assert (front + back)[0] == front[0] && (front + back)[1..] == front[1..] + back;
    }
  }

  /** Removing a provider that is not there changes nothing. */
  lemma {:induction false} WithoutKeepsOthers(elements: seq<Json>, field: string, value: string)
    requires forall k :: 0 <= k < |elements| ==> !HasField(elements[k], field, value)
    ensures Without(elements, field, value) == elements
    decreases |elements|
  {
    if elements != [] {
      WithoutKeepsOthers(elements[1..], field, value);
    }
  }

  // ----- Whole edits

  function RemovedWith(root: Object, endpoints: seq<Json>, providerId: string): Object {
    AfterRemoval(WithProviders(root, Without(ProvidersOf(root), "id", providerId)),
                 Without(endpoints, "label", DefaultEndpointLabel(providerId)))
  }

  function Removed(root: Object, providerId: string): Object {
    RemovedWith(root, EndpointsOf(root), providerId)
  }

  function Configured(root: Object, input: ProviderInput): Object {
    WithEndpoints(WithProviders(root, Upserted(ProvidersOf(root), "id", input.id, ProviderEntry(input))),
                  Upserted(EndpointsOf(root), "label", EndpointLabel(input), EndpointEntry(input)))
  }

  /** What both edits write. */
  function Edited(root: Object, providers: seq<Json>, endpoints: seq<Json>): Object {
    WithEndpoints(WithProviders(root, providers), endpoints)
  }

  /** The members of an object value, none for any other. */
  function Members(root: Object, key: string): set<string> {
    if key in root && root[key].Obj? then root[key].fields.Keys else {}
  }

  /** An edit touches one key of the configuration, one of `security` and one of `network`, and no other. */
  lemma EditTouchesOnly(root: Object, providers: seq<Json>, endpoints: seq<Json>)
    requires NoArrayContainers(root)
    ensures var w := Edited(root, providers, endpoints);
            && w.Keys == root.Keys + {"providers", "security"} && w["providers"] == Arr(providers)
            && (forall k :: k in root && k != "providers" && k != "security" ==> w[k] == root[k])
            && w["security"].Obj? && w["security"].fields.Keys == Members(root, "security") + {"network"}
            && (forall k :: k in Members(root, "security") && k != "network" ==>
                  w["security"].fields[k] == root["security"].fields[k])
            && w["security"].fields["network"].Obj?
            && var network := w["security"].fields["network"].fields;
               && network.Keys == Members(Fields(root, "security"), "network") + {"privateEndpoints"}
               && network["privateEndpoints"] == Arr(endpoints)
               && forall k :: k in Members(Fields(root, "security"), "network") && k != "privateEndpoints" ==>
                    network[k] == root["security"].fields["network"].fields[k]
  {
    ProvidersOverwrite(root, providers, []);
  }

  /** With an array in the way only the provider list changes. */
  lemma EditTouchesProvidersOnly(root: Object, providers: seq<Json>, endpoints: seq<Json>)
    requires !NoArrayContainers(root)
    ensures Edited(root, providers, endpoints) == root["providers" := Arr(providers)]
  {
    ProvidersOverwrite(root, providers, []);
  }

  lemma EditedArrays(root: Object, providers: seq<Json>, endpoints: seq<Json>)
    ensures ProvidersOf(Edited(root, providers, endpoints)) == providers
    ensures EndpointsOf(Edited(root, providers, endpoints)) == EndpointsKept(root, endpoints)
    ensures NoArrayContainers(Edited(root, providers, endpoints)) == NoArrayContainers(root)
  {
    ProvidersOverwrite(root, providers, []);
    EndpointsOverwrite(WithProviders(root, providers), endpoints, []);
  }

  /** A removal over a `network` array leaves its elements under their indices, beside the list. */
  lemma RemovalCopiesArray(root: Object, endpoints: seq<Json>, i: nat)
    requires NetworkIsArray(root) && i < |root["security"].fields["network"].items|
    ensures var w := AfterRemoval(root, endpoints);
            && "security" in w && w["security"].Obj? && "network" in w["security"].fields
            && w["security"].fields["network"].Obj?
            && var network := w["security"].fields["network"].fields;
               && "privateEndpoints" in network && network["privateEndpoints"] == Arr(endpoints)
               && Decimal(i) in network && network[Decimal(i)] == root["security"].fields["network"].items[i]
  {
    SpreadHolds(root["security"].fields["network"].items, i);
    DecimalRoundTrip(i);
    assert DigitValue(Decimal(i)[0]).Some? && DigitValue("privateEndpoints"[0]) == None;
  }

  /** Of two edits in a row only the second counts. */
  lemma EditedOver(
    root: Object, providers: seq<Json>, endpoints: seq<Json>, providers': seq<Json>, endpoints': seq<Json>)
    ensures Edited(Edited(root, providers, endpoints), providers', endpoints') == Edited(root, providers', endpoints')
  {
    WritesCommute(WithProviders(root, providers), endpoints, providers');
    ProvidersOverwrite(root, providers, providers');
    EndpointsOverwrite(WithProviders(root, providers'), endpoints, endpoints');
  }

  lemma WritesCommute(root: Object, endpoints: seq<Json>, providers: seq<Json>)
    ensures WithProviders(WithEndpoints(root, endpoints), providers)
         == WithEndpoints(WithProviders(root, providers), endpoints)
  {
    ProvidersOverwrite(root, providers, []);
    if NoArrayContainers(root) {
      var security := PutEndpoints(root, endpoints)["security"];
      assert root["security" := security]["providers" := Arr(providers)]
          == root["providers" := Arr(providers)]["security" := security];
      assert Fields(WithProviders(root, providers), "security") == Fields(root, "security");
    }
  }

  lemma ArraysHideEndpoints(root: Object)
    requires !NoArrayContainers(root)
    ensures EndpointsOf(root) == []
  {
  }

  /** Configuring the same provider twice is configuring it once. */
  lemma ConfigureTwice(root: Object, input: ProviderInput)
    ensures Configured(Configured(root, input), input) == Configured(root, input)
  {
    var providers := Upserted(ProvidersOf(root), "id", input.id, ProviderEntry(input));
    var endpoints := Upserted(EndpointsOf(root), "label", EndpointLabel(input), EndpointEntry(input));
    EditedArrays(root, providers, endpoints);
    UpsertTwice(ProvidersOf(root), "id", input.id, ProviderEntry(input));
    UpsertTwice(EndpointsOf(root), "label", EndpointLabel(input), EndpointEntry(input));
    if !NoArrayContainers(root) {
      ArraysHideEndpoints(root);
    }
    EditedOver(root, providers, endpoints, providers, endpoints);
  }

  /** The removal looks for the default label; under any other the endpoint is left, new or as it was before. */
  predicate RemovalFindsEndpoint(root: Object, input: ProviderInput) {
    EndpointLabel(input) == DefaultEndpointLabel(input.id)
    || FirstMatchIs(EndpointsOf(root), "label", EndpointLabel(input), EndpointEntry(input))
  }

  lemma RemovedIsEdited(root: Object, providerId: string)
    requires NoArrayContainers(root)
    ensures Removed(root, providerId) == Edited(root, Without(ProvidersOf(root), "id", providerId),
                                                Without(EndpointsOf(root), "label", DefaultEndpointLabel(providerId)))
  {
    ProvidersOverwrite(root, Without(ProvidersOf(root), "id", providerId), []);
  }

  lemma RemovedAfterConfigure(root: Object, input: ProviderInput)
    requires NoArrayContainers(root)
    ensures Removed(Configured(root, input), input.id)
         == Edited(root, Without(ProvidersOf(root), "id", input.id),
                   Without(Upserted(EndpointsOf(root), "label", EndpointLabel(input), EndpointEntry(input)),
                           "label", DefaultEndpointLabel(input.id)))
  {
    var providers := Upserted(ProvidersOf(root), "id", input.id, ProviderEntry(input));
    var endpoints := Upserted(EndpointsOf(root), "label", EndpointLabel(input), EndpointEntry(input));
    EditedArrays(root, providers, endpoints);
    RemoveUndoesUpsert(ProvidersOf(root), "id", input.id, ProviderEntry(input));
    RemovedIsEdited(Configured(root, input), input.id);
    EditedOver(root, providers, endpoints, Without(providers, "id", input.id),
               Without(endpoints, "label", DefaultEndpointLabel(input.id)));
  }

  /** On array containers no endpoint is kept that a removal could miss. */
  lemma RemoveUndoesOnArrays(root: Object, input: ProviderInput)
    requires !NoArrayContainers(root)
    ensures Removed(Configured(root, input), input.id) == Removed(root, input.id)
  {
    var providers := Upserted(ProvidersOf(root), "id", input.id, ProviderEntry(input));
    ProvidersOverwrite(root, providers, Without(ProvidersOf(root), "id", input.id));
    RemoveUndoesUpsert(ProvidersOf(root), "id", input.id, ProviderEntry(input));
    assert Configured(root, input) == WithProviders(root, providers);
  }

  lemma RemoveUndoesOnObjects(root: Object, input: ProviderInput)
    requires NoArrayContainers(root)
    ensures Removed(Configured(root, input), input.id) == Removed(root, input.id) <==> RemovalFindsEndpoint(root, input)
  {
    var own, usual := EndpointLabel(input), DefaultEndpointLabel(input.id);
    var providers := Without(ProvidersOf(root), "id", input.id);
    var endpoints := Upserted(EndpointsOf(root), "label", own, EndpointEntry(input));
    RemovedAfterConfigure(root, input);
    RemovedIsEdited(root, input.id);
    EditedArrays(root, providers, Without(endpoints, "label", usual));
    EditedArrays(root, providers, Without(EndpointsOf(root), "label", usual));
    if own == usual {
      RemoveUndoesUpsert(EndpointsOf(root), "label", own, EndpointEntry(input));
    } else {
      RemoveMissesUpsert(EndpointsOf(root), "label", own, usual, EndpointEntry(input));
    }
  }

  /** Removing a provider undoes configuring it if and only if the removal finds its endpoint or none was kept. */
  lemma RemoveUndoesConfigureExactly(root: Object, input: ProviderInput)
    ensures Removed(Configured(root, input), input.id) == Removed(root, input.id)
       <==> RemovalFindsEndpoint(root, input) || !NoArrayContainers(root)
  {
    if NoArrayContainers(root) {
      RemoveUndoesOnObjects(root, input);
    } else {
      RemoveUndoesOnArrays(root, input);
    }
  }

  /** Under a label of its own the endpoint survives the removal of its provider, if it was kept at all. */
  lemma OwnLabelSurvives(root: Object, input: ProviderInput)
    requires EndpointLabel(input) != DefaultEndpointLabel(input.id) && NoArrayContainers(root)
    ensures EndpointEntry(input) in EndpointsOf(Removed(Configured(root, input), input.id))
  {
    RemovedAfterConfigure(root, input);
    var endpoints := Upserted(EndpointsOf(root), "label", EndpointLabel(input), EndpointEntry(input));
    EditedArrays(root, Without(ProvidersOf(root), "id", input.id),
                 Without(endpoints, "label", DefaultEndpointLabel(input.id)));
    RemoveMissesUpsert(EndpointsOf(root), "label", EndpointLabel(input), DefaultEndpointLabel(input.id),
                       EndpointEntry(input));
  }

  const LABELLED := ProviderInput("bank", "http://bank:3001", ["finance"], None, Some("sidecars"), None, "bank", "3001")

  /** Such an input, configured and removed again on an empty configuration. */
  lemma LabelledInputLeavesEndpoint()
    ensures Removed(Configured(map[], LABELLED), "bank") != Removed(map[], "bank")
    ensures EndpointEntry(LABELLED) in EndpointsOf(Removed(Configured(map[], LABELLED), "bank"))
  {
    assert EndpointLabel(LABELLED)[0] == 's' && DefaultEndpointLabel("bank")[0] == 'p';
    OwnLabelSurvives(map[], LABELLED);
    RemoveUndoesConfigureExactly(map[], LABELLED);
  }
}
