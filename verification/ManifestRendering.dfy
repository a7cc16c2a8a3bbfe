/** What rendering a TKE manifest does to it, as functions on its contents (`renderTkeManifest` and its setters). */
module ManifestRendering {
  import opened JsText
  import opened JsonValue

  // The named parts of a manifest item; `rest` stands for all other members of an object.

  datatype Metadata = Metadata(name: Option<string>, namespace: Option<string>, rest: Json)

  datatype Container = Container(name: string, image: Option<string>, rest: Json)

  datatype PodSpec = PodSpec(
    imagePullSecrets: Option<seq<string>>, initContainers: Option<seq<Container>>, containers: Option<seq<Container>>,
    rest: Json)

  datatype Template = Template(spec: Option<PodSpec>, rest: Json)

  datatype Tls = Tls(hosts: seq<string>, secretName: string)

  datatype Rule = Rule(host: Option<string>, rest: Json)

  datatype Spec = Spec(
    template: Option<Template>, ingressClassName: Option<string>, tls: Option<seq<Tls>>, rules: Option<seq<Rule>>,
    rest: Json)

  datatype Item = Item(
    kind: string, metadata: Option<Metadata>, data: Option<map<string, Json>>, spec: Option<Spec>, rest: Json)

  datatype Manifest = Manifest(items: Option<seq<Item>>, rest: Json)

  type Values = map<string, string>

  /** `values[key]`, "" standing for `undefined`. */
  function ValueOf(values: Values, key: string): string {
    if key in values then values[key] else ""
  }

  const CLOUD_CONTAINERS: seq<string> := ["control-plane", "ledger", "fabric", "ledger-schema-migration"]

  // ----- the setters -----

  function WithNamespace(item: Item, namespace: string): Item {
    var m := if item.metadata.Some? then item.metadata.value else Metadata(None, None, Obj([]));
    item.(metadata := Some(if item.kind == "Namespace" then m.(name := Some(namespace))
                           else m.(namespace := Some(namespace))))
  }

  /** `data` with the value of each listed key it has. */
  function WithData(data: map<string, Json>, keys: seq<string>, values: Values): map<string, Json> {
    map k | k in data :: if k in keys then Str(ValueOf(values, k)) else data[k]
  }

  function WithConfig(item: Item, keys: seq<string>, values: Values): Item {
    if item.kind != "ConfigMap" || item.data.None? then item
    else item.(data := Some(WithData(item.data.value, keys, values)))
  }

  function WithImage(c: Container, image: string): Container {
    if c.name in CLOUD_CONTAINERS then c.(image := Some(image)) else c
  }

  function WithImages(cs: seq<Container>, image: string): (r: seq<Container>)
    ensures |r| == |cs|
    ensures forall k | 0 <= k < |cs| :: r[k] == WithImage(cs[k], image)
  {
    seq(|cs|, k requires 0 <= k < |cs| => WithImage(cs[k], image))
  }

  function OptImages(cs: Option<seq<Container>>, image: string): Option<seq<Container>> {
    if cs.None? then None else Some(WithImages(cs.value, image))
  }

  function WithPod(pod: PodSpec, values: Values): PodSpec {
    pod.(imagePullSecrets := Some([ValueOf(values, "OPL_IMAGE_PULL_SECRET_NAME")]),
         initContainers := OptImages(pod.initContainers, ValueOf(values, "OPL_CLOUD_IMAGE")),
         containers := OptImages(pod.containers, ValueOf(values, "OPL_CLOUD_IMAGE")))
  }

  predicate HasPod(item: Item) {
    item.spec.Some? && item.spec.value.template.Some? && item.spec.value.template.value.spec.Some?
  }

  function WithDeployment(item: Item, values: Values): Item {
    if item.kind != "Deployment" || !HasPod(item) then item
    else
      var spec := item.spec.value;
      var template := spec.template.value;
      item.(spec := Some(spec.(template := Some(template.(spec := Some(WithPod(template.spec.value, values)))))))
  }

  function WithHost(rules: seq<Rule>, k: nat, host: string): seq<Rule> {
    if k < |rules| then rules[k := rules[k].(host := Some(host))] else rules
  }

  function WithRules(rules: Option<seq<Rule>>, values: Values): Option<seq<Rule>> {
    if rules.None? then None
    else Some(WithHost(WithHost(rules.value, 0, ValueOf(values, "OPL_CONSOLE_DOMAIN")),
                       1, ValueOf(values, "OPL_WORKSPACE_DOMAIN")))
  }

  function TlsOf(values: Values): seq<Tls> {
    [Tls([ValueOf(values, "OPL_CONSOLE_DOMAIN")], ValueOf(values, "OPL_CONSOLE_TLS_SECRET_NAME")),
     Tls([ValueOf(values, "OPL_WORKSPACE_DOMAIN")], ValueOf(values, "OPL_WORKSPACE_TLS_SECRET_NAME"))]
  }

  function WithIngress(item: Item, values: Values): Item {
    if item.kind != "Ingress" then item
    else
      var spec := if item.spec.Some? then item.spec.value else Spec(None, None, None, None, Obj([]));
      item.(spec := Some(spec.(ingressClassName := Some(ValueOf(values, "OPL_INGRESS_CLASS")),
                               tls := Some(TlsOf(values)),
                               rules := WithRules(spec.rules, values))))
  }

  function RenderedItem(item: Item, keys: seq<string>, values: Values): Item {
    WithIngress(WithDeployment(WithConfig(WithNamespace(item, ValueOf(values, "OPL_K8S_NAMESPACE")), keys, values),
                               values), values)
  }

  // ----- the manifest -----

  predicate IsSharedIngress(item: Item) {
    item.kind == "Ingress" && item.metadata.Some? && item.metadata.value.name == Some("opl-cloud")
  }

  function Survivors(items: seq<Item>): seq<Item> {
    if items == [] then []
    else (if IsSharedIngress(items[0]) then [] else [items[0]]) + Survivors(items[1..])
  }

  /** The items rendered, after dropping the shared ingress if asked to. */
  function Selected(items: Option<seq<Item>>, skipSharedIngress: bool): Option<seq<Item>> {
    if skipSharedIngress then Some(Survivors(if items.Some? then items.value else []))
    else items
  }

  function RenderedItems(items: seq<Item>, keys: seq<string>, values: Values): (r: seq<Item>)
    ensures |r| == |items|
    ensures forall k | 0 <= k < |items| :: r[k] == RenderedItem(items[k], keys, values)
  {
    seq(|items|, k requires 0 <= k < |items| => RenderedItem(items[k], keys, values))
  }

  function Rendered(m: Manifest, keys: seq<string>, values: Values, skipSharedIngress: bool): Manifest {
    var items := Selected(m.items, skipSharedIngress);
    m.(items := if items.None? then None else Some(RenderedItems(items.value, keys, values)))
  }

  // ----- the demands on the values -----

  datatype RenderError = MissingValues(keys: seq<string>) | ZoneRegionMismatch

  function Missing(keys: seq<string>, values: Values): seq<string> {
    if keys == [] then []
    else (if Trim(ValueOf(values, keys[0])) == "" then [keys[0]] else []) + Missing(keys[1..], values)
  }

  predicate OnOneLine(s: string) {
    forall i | 0 <= i < |s| :: s[i] != '\n' && s[i] != '\r' && s[i] as int != 0x2028 && s[i] as int != 0x2029
  }

  /** `zone.match(/^(.*)-\d+$/)?.[1] === region`. */
  predicate ZoneIsIn(zone: string, region: string) {
    && |region| + 1 < |zone| && zone[..|region|] == region && zone[|region|] == '-'
    && OnOneLine(region) && AllDigits(zone[|region| + 1..])
  }

  function RequiredValues(keys: seq<string>, values: Values): Option<RenderError> {
    if Missing(keys, values) != [] then Some(MissingValues(Missing(keys, values)))
    else if !ZoneIsIn(ValueOf(values, "OPL_TENCENT_ZONE"), ValueOf(values, "TENCENTCLOUD_REGION"))
    then Some(ZoneRegionMismatch)
    else None
  }

  function Render(m: Manifest, keys: seq<string>, values: Values, skipSharedIngress: bool)
    : Result<Manifest, RenderError>
  {
    var fault := RequiredValues(keys, values);
    if fault.Some? then Err(fault.value) else Ok(Rendered(m, keys, values, skipSharedIngress))
  }

  /** The listed keys without a value are reported, each as often as it is listed, and no others. */
  lemma {:induction false} MissingAre(keys: seq<string>, values: Values)
    ensures multiset(Missing(keys, values)) <= multiset(keys)
    ensures forall k :: multiset(Missing(keys, values))[k]
                        == if Trim(ValueOf(values, k)) == "" then multiset(keys)[k] else 0
  {
    if keys != [] {
      MissingAre(keys[1..], values);
      assert keys == [keys[0]] + keys[1..];
    }
  }

  lemma DigitAfter(zone: string, region: string, i: nat)
    requires ZoneIsIn(zone, region)
    ensures |region| < i < |zone| ==> zone[i] != '-'
  {
    if |region| < i < |zone| {
      assert zone[i] == zone[|region| + 1..][i - |region| - 1];
    }
  }

  /** The region test pins down the zone: a region, a dash and digits, split at the last dash. */
  lemma ZoneHasOneRegion(zone: string, a: string, b: string)
    requires ZoneIsIn(zone, a) && ZoneIsIn(zone, b)
    ensures a == b
  {
    DigitAfter(zone, a, |b|);
    DigitAfter(zone, b, |a|);
  }

  // ----- the overwrite law -----

  lemma ImagesOverwrite(cs: Option<seq<Container>>, a: string, b: string)
    ensures OptImages(OptImages(cs, a), b) == OptImages(cs, b)
  {
    if cs.Some? {
      assert WithImages(WithImages(cs.value, a), b) == WithImages(cs.value, b);
    }
  }

  lemma DataOverwrites(data: map<string, Json>, keys: seq<string>, v1: Values, v2: Values)
    ensures WithData(WithData(data, keys, v1), keys, v2) == WithData(data, keys, v2)
  {
  }

  lemma RulesOverwrite(rules: Option<seq<Rule>>, v1: Values, v2: Values)
    ensures WithRules(WithRules(rules, v1), v2) == WithRules(rules, v2)
  {
    if rules.Some? {
      var a, b := WithRules(WithRules(rules, v1), v2).value, WithRules(rules, v2).value;
      forall k | 0 <= k < |a| ensures a[k] == b[k] {
        assert k == 0 || k == 1 || b[k] == rules.value[k];
      }
      assert a == b;
    }
  }

  // The members of a rendered item, each a function of the item's kind and the same member.

  function RenderedMetadata(kind: string, metadata: Option<Metadata>, values: Values): Option<Metadata> {
    WithNamespace(Item(kind, metadata, None, None, Null), ValueOf(values, "OPL_K8S_NAMESPACE")).metadata
  }

  function RenderedData(kind: string, data: Option<map<string, Json>>, keys: seq<string>, values: Values)
    : Option<map<string, Json>>
  {
    if kind != "ConfigMap" || data.None? then data else Some(WithData(data.value, keys, values))
  }

  function RenderedSpec(kind: string, spec: Option<Spec>, values: Values): Option<Spec> {
    if kind == "Deployment" then WithDeployment(Item(kind, None, None, spec, Null), values).spec
    else if kind == "Ingress" then WithIngress(Item(kind, None, None, spec, Null), values).spec
    else spec
  }

  lemma RenderedByMember(x: Item, keys: seq<string>, values: Values)
    ensures RenderedItem(x, keys, values)
            == Item(x.kind, RenderedMetadata(x.kind, x.metadata, values), RenderedData(x.kind, x.data, keys, values),
                    RenderedSpec(x.kind, x.spec, values), x.rest)
  {
    var x1 := WithNamespace(x, ValueOf(values, "OPL_K8S_NAMESPACE"));
    assert x1 == x.(metadata := RenderedMetadata(x.kind, x.metadata, values));
    var x2 := WithConfig(x1, keys, values);
    assert x2 == x1.(data := RenderedData(x.kind, x.data, keys, values));
    var x3 := WithDeployment(x2, values);
    if x.kind == "Deployment" {
      assert x3 == x2.(spec := RenderedSpec(x.kind, x.spec, values));
    } else {
      assert x3 == x2;
    }
  }

  lemma MetadataOverwrites(kind: string, m: Option<Metadata>, v1: Values, v2: Values)
    ensures RenderedMetadata(kind, RenderedMetadata(kind, m, v1), v2) == RenderedMetadata(kind, m, v2)
  {
  }

  lemma SpecOverwrites(kind: string, spec: Option<Spec>, v1: Values, v2: Values)
    ensures RenderedSpec(kind, RenderedSpec(kind, spec, v1), v2) == RenderedSpec(kind, spec, v2)
  {
    if kind == "Deployment" {
      DeploymentOverwrites(spec, v1, v2);
    } else if kind == "Ingress" {
      RulesOverwrite(if spec.Some? then spec.value.rules else None, v1, v2);
    }
  }

  lemma PodOverwrites(pod: PodSpec, v1: Values, v2: Values)
    ensures WithPod(WithPod(pod, v1), v2) == WithPod(pod, v2)
  {
    ImagesOverwrite(pod.initContainers, ValueOf(v1, "OPL_CLOUD_IMAGE"), ValueOf(v2, "OPL_CLOUD_IMAGE"));
    ImagesOverwrite(pod.containers, ValueOf(v1, "OPL_CLOUD_IMAGE"), ValueOf(v2, "OPL_CLOUD_IMAGE"));
  }

  lemma DeploymentOverwrites(spec: Option<Spec>, v1: Values, v2: Values)
    ensures RenderedSpec("Deployment", RenderedSpec("Deployment", spec, v1), v2) == RenderedSpec("Deployment", spec, v2)
  {
    if spec.Some? && spec.value.template.Some? && spec.value.template.value.spec.Some? {
      PodOverwrites(spec.value.template.value.spec.value, v1, v2);
    }
  }

  /** Rendering an item twice leaves no trace of the first values. */
  lemma ItemOverwrites(x: Item, keys: seq<string>, v1: Values, v2: Values)
    ensures RenderedItem(RenderedItem(x, keys, v1), keys, v2) == RenderedItem(x, keys, v2)
  {
    RenderedByMember(x, keys, v1);
    RenderedByMember(RenderedItem(x, keys, v1), keys, v2);
    RenderedByMember(x, keys, v2);
    MetadataOverwrites(x.kind, x.metadata, v1, v2);
    SpecOverwrites(x.kind, x.spec, v1, v2);
    if x.data.Some? {
      DataOverwrites(x.data.value, keys, v1, v2);
    }
  }

  /** Rendering never makes an item the shared ingress, nor stops it from being it. */
  lemma StaysShared(x: Item, keys: seq<string>, values: Values)
    ensures IsSharedIngress(RenderedItem(x, keys, values)) <==> IsSharedIngress(x)
  {
    RenderedByMember(x, keys, values);
  }

  lemma RenderedCons(x: Item, rest: seq<Item>, keys: seq<string>, values: Values)
    ensures RenderedItems([x] + rest, keys, values) == [RenderedItem(x, keys, values)] + RenderedItems(rest, keys, values)
  {
  }

  lemma SurvivorsCons(x: Item, rest: seq<Item>)
    ensures Survivors([x] + rest) == (if IsSharedIngress(x) then [] else [x]) + Survivors(rest)
  {
    assert ([x] + rest)[1..] == rest;
  }

  lemma {:induction false} SurvivorsRendered(items: seq<Item>, keys: seq<string>, values: Values)
    ensures Survivors(RenderedItems(items, keys, values)) == RenderedItems(Survivors(items), keys, values)
  {
    if items != [] {
      SurvivorsRendered(items[1..], keys, values);
      StaysShared(items[0], keys, values);
      assert items == [items[0]] + items[1..];
      RenderedCons(items[0], items[1..], keys, values);
      RenderedCons(items[0], Survivors(items[1..]), keys, values);
      SurvivorsCons(RenderedItem(items[0], keys, values), RenderedItems(items[1..], keys, values));
      SurvivorsCons(items[0], items[1..]);
    }
  }

  lemma {:induction false} SurvivorsTwice(items: seq<Item>)
    ensures Survivors(Survivors(items)) == Survivors(items)
  {
    if items != [] {
      SurvivorsTwice(items[1..]);
      if IsSharedIngress(items[0]) {
        assert Survivors(items) == Survivors(items[1..]);
      } else {
        assert Survivors(items)[1..] == Survivors(items[1..]);
      }
    }
  }

  lemma RenderedItemsOverwrite(items: seq<Item>, keys: seq<string>, v1: Values, v2: Values)
    ensures RenderedItems(RenderedItems(items, keys, v1), keys, v2) == RenderedItems(items, keys, v2)
  {
    var a, b := RenderedItems(RenderedItems(items, keys, v1), keys, v2), RenderedItems(items, keys, v2);
    forall k | 0 <= k < |items| ensures a[k] == b[k] {
      ItemOverwrites(items[k], keys, v1, v2);
    }
  }

  /** The overwrite law: rendering with some values and then with others is rendering once with the others,
      the shared ingress being dropped if either pass drops it. The outcome includes the errors. */
  lemma RenderOverwrites(m: Manifest, keys: seq<string>, v1: Values, skip1: bool, v2: Values, skip2: bool)
    requires Render(m, keys, v1, skip1).Ok?
    ensures Render(Render(m, keys, v1, skip1).value, keys, v2, skip2) == Render(m, keys, v2, skip1 || skip2)
  {
    var items := if m.items.Some? then m.items.value else [];
    RenderedItemsOverwrite(items, keys, v1, v2);
    RenderedItemsOverwrite(Survivors(items), keys, v1, v2);
    SurvivorsRendered(items, keys, v1);
    SurvivorsRendered(Survivors(items), keys, v1);
    SurvivorsTwice(items);
  }

  /** Hence rendering is idempotent. */
  lemma RenderIdempotent(m: Manifest, keys: seq<string>, values: Values, skip: bool)
    requires Render(m, keys, values, skip).Ok?
    ensures Render(Render(m, keys, values, skip).value, keys, values, skip) == Render(m, keys, values, skip)
  {
    RenderOverwrites(m, keys, values, skip, values, skip);
  }

  // ----- what a rendered item says -----

  ghost predicate ImagesShow(cs: Option<seq<Container>>, image: string) {
    cs.Some? ==> forall k | 0 <= k < |cs.value| && RunsTheCloudImage(cs.value[k].name) :: cs.value[k].image == Some(image)
  }

  ghost predicate RunsTheCloudImage(name: string) {
    name == "control-plane" || name == "ledger" || name == "fabric" || name == "ledger-schema-migration"
  }

  ghost predicate PodShows(pod: PodSpec, values: Values) {
    && pod.imagePullSecrets == Some([ValueOf(values, "OPL_IMAGE_PULL_SECRET_NAME")])
    && ImagesShow(pod.initContainers, ValueOf(values, "OPL_CLOUD_IMAGE"))
    && ImagesShow(pod.containers, ValueOf(values, "OPL_CLOUD_IMAGE"))
  }

  ghost predicate IngressShows(spec: Spec, values: Values) {
    && spec.ingressClassName == Some(ValueOf(values, "OPL_INGRESS_CLASS"))
    && spec.tls == Some([
         Tls([ValueOf(values, "OPL_CONSOLE_DOMAIN")], ValueOf(values, "OPL_CONSOLE_TLS_SECRET_NAME")),
         Tls([ValueOf(values, "OPL_WORKSPACE_DOMAIN")], ValueOf(values, "OPL_WORKSPACE_TLS_SECRET_NAME"))])
    && (spec.rules.Some? && |spec.rules.value| > 0 ==>
          spec.rules.value[0].host == Some(ValueOf(values, "OPL_CONSOLE_DOMAIN")))
    && (spec.rules.Some? && |spec.rules.value| > 1 ==>
          spec.rules.value[1].host == Some(ValueOf(values, "OPL_WORKSPACE_DOMAIN")))
  }

  /** Everything a deployment asks of an item is in place. */
  ghost predicate Shows(x: Item, keys: seq<string>, values: Values) {
    && x.metadata.Some?
    && (if x.kind == "Namespace" then x.metadata.value.name == Some(ValueOf(values, "OPL_K8S_NAMESPACE"))
        else x.metadata.value.namespace == Some(ValueOf(values, "OPL_K8S_NAMESPACE")))
    && (x.kind == "ConfigMap" && x.data.Some? ==>
          forall k | k in keys && k in x.data.value :: x.data.value[k] == Str(ValueOf(values, k)))
    && (x.kind == "Deployment" && HasPod(x) ==> PodShows(x.spec.value.template.value.spec.value, values))
    && (x.kind == "Ingress" ==> x.spec.Some? && IngressShows(x.spec.value, values))
  }

  lemma ImagesUnchangedIff(cs: Option<seq<Container>>, image: string)
    ensures OptImages(cs, image) == cs <==> ImagesShow(cs, image)
  {
    if cs.Some? {
      if ImagesShow(cs, image) {
        assert WithImages(cs.value, image) == cs.value;
      } else {
        var k :| 0 <= k < |cs.value| && RunsTheCloudImage(cs.value[k].name) && cs.value[k].image != Some(image);
        assert WithImages(cs.value, image)[k] != cs.value[k];
      }
    }
  }

  lemma DataUnchangedIff(data: map<string, Json>, keys: seq<string>, values: Values)
    ensures WithData(data, keys, values) == data
            <==> forall k | k in keys && k in data :: data[k] == Str(ValueOf(values, k))
  {
    var r := WithData(data, keys, values);
    assert r.Keys == data.Keys;
    if r == data {
      forall k | k in keys && k in data ensures data[k] == Str(ValueOf(values, k)) {
        assert r[k] == data[k];
      }
    }
  }

  lemma RulesUnchangedIff(rules: Option<seq<Rule>>, values: Values)
    ensures WithRules(rules, values) == rules <==>
            && (rules.Some? && |rules.value| > 0 ==> rules.value[0].host == Some(ValueOf(values, "OPL_CONSOLE_DOMAIN")))
            && (rules.Some? && |rules.value| > 1 ==> rules.value[1].host == Some(ValueOf(values, "OPL_WORKSPACE_DOMAIN")))
  {
    if rules.Some? {
      var a, b := ValueOf(values, "OPL_CONSOLE_DOMAIN"), ValueOf(values, "OPL_WORKSPACE_DOMAIN");
      HostsUnchangedIff(rules.value, a, b);
    }
  }

  lemma HostsUnchangedIff(rules: seq<Rule>, a: string, b: string)
    ensures WithHost(WithHost(rules, 0, a), 1, b) == rules <==>
            (|rules| > 0 ==> rules[0].host == Some(a)) && (|rules| > 1 ==> rules[1].host == Some(b))
  {
    var r := WithHost(WithHost(rules, 0, a), 1, b);
    if |rules| > 0 {
      assert r[0] == rules[0].(host := Some(a));
    }
    if |rules| > 1 {
      assert r[1] == rules[1].(host := Some(b));
    }
    if (|rules| > 0 ==> rules[0].host == Some(a)) && (|rules| > 1 ==> rules[1].host == Some(b)) {
      assert r == rules;
    }
  }

  lemma PodUnchangedIff(pod: PodSpec, values: Values)
    ensures WithPod(pod, values) == pod <==> PodShows(pod, values)
  {
    ImagesUnchangedIff(pod.initContainers, ValueOf(values, "OPL_CLOUD_IMAGE"));
    ImagesUnchangedIff(pod.containers, ValueOf(values, "OPL_CLOUD_IMAGE"));
  }

  lemma SpecUnchangedIff(x: Item, values: Values)
    ensures RenderedSpec(x.kind, x.spec, values) == x.spec <==>
            && (x.kind == "Deployment" && HasPod(x) ==> PodShows(x.spec.value.template.value.spec.value, values))
            && (x.kind == "Ingress" ==> x.spec.Some? && IngressShows(x.spec.value, values))
  {
    if x.kind == "Deployment" && HasPod(x) {
      PodUnchangedIff(x.spec.value.template.value.spec.value, values);
    } else if x.kind == "Ingress" && x.spec.Some? {
      RulesUnchangedIff(x.spec.value.rules, values);
    }
  }

  /** Rendering changes nothing exactly when the item already shows all the values. */
  lemma UnchangedIffShows(x: Item, keys: seq<string>, values: Values)
    ensures RenderedItem(x, keys, values) == x <==> Shows(x, keys, values)
  {
    RenderedByMember(x, keys, values);
    SpecUnchangedIff(x, values);
    if x.data.Some? {
      DataUnchangedIff(x.data.value, keys, values);
    }
  }

  /** A rendered item shows all the values. */
  lemma RenderedShows(x: Item, keys: seq<string>, values: Values)
    ensures Shows(RenderedItem(x, keys, values), keys, values)
  {
    ItemOverwrites(x, keys, values, values);
    UnchangedIffShows(RenderedItem(x, keys, values), keys, values);
  }

  // ----- what rendering leaves alone -----

  ghost predicate SameButImages(a: Option<seq<Container>>, b: Option<seq<Container>>) {
    && (a.Some? <==> b.Some?)
    && (a.Some? ==>
          && |a.value| == |b.value|
          && forall k | 0 <= k < |a.value| ::
               b.value[k].name == a.value[k].name && b.value[k].rest == a.value[k].rest
               && (!RunsTheCloudImage(a.value[k].name) ==> b.value[k] == a.value[k]))
  }

  ghost predicate SameButHosts(a: Option<seq<Rule>>, b: Option<seq<Rule>>) {
    && (a.Some? <==> b.Some?)
    && (a.Some? ==>
          && |a.value| == |b.value|
          && forall k | 0 <= k < |a.value| ::
               b.value[k].rest == a.value[k].rest && (k >= 2 ==> b.value[k] == a.value[k]))
  }

  /** `b` is `a` but for the members rendering is there to set. */
  ghost predicate SameButNamed(a: Item, b: Item, keys: seq<string>) {
    && b.kind == a.kind && b.rest == a.rest
    && b.metadata.Some?
    && (a.metadata.Some? ==>
          && b.metadata.value.rest == a.metadata.value.rest
          && (a.kind == "Namespace" ==> b.metadata.value.namespace == a.metadata.value.namespace)
          && (a.kind != "Namespace" ==> b.metadata.value.name == a.metadata.value.name))
    && (a.metadata.None? ==>
          && b.metadata.value.rest == Obj([])
          && (if a.kind == "Namespace" then b.metadata.value.namespace == None else b.metadata.value.name == None))
    && (b.data.Some? <==> a.data.Some?)
    && (a.data.Some? ==>
          && b.data.value.Keys == a.data.value.Keys
          && forall k | k in a.data.value && (a.kind != "ConfigMap" || k !in keys) :: b.data.value[k] == a.data.value[k])
    && (a.kind != "Deployment" && a.kind != "Ingress" ==> b.spec == a.spec)
    && (a.kind == "Ingress" && a.spec.Some? ==>
          && b.spec.Some? && b.spec.value.template == a.spec.value.template && b.spec.value.rest == a.spec.value.rest
          && SameButHosts(a.spec.value.rules, b.spec.value.rules))
    && (a.kind == "Ingress" && a.spec.None? ==>
          && b.spec.Some? && b.spec.value.template == None && b.spec.value.rules == None && b.spec.value.rest == Obj([]))
    && (a.kind == "Deployment" && !HasPod(a) ==> b.spec == a.spec)
    && (a.kind == "Deployment" && HasPod(a) ==>
          && HasPod(b)
          && b.spec.value == a.spec.value.(template := b.spec.value.template)
          && b.spec.value.template.value.rest == a.spec.value.template.value.rest
          && var p, q := a.spec.value.template.value.spec.value, b.spec.value.template.value.spec.value;
             q.rest == p.rest && SameButImages(p.initContainers, q.initContainers)
             && SameButImages(p.containers, q.containers))
  }

  lemma HostsLeaveTheRest(rules: Option<seq<Rule>>, values: Values)
    ensures SameButHosts(rules, WithRules(rules, values))
  {
  }

  lemma ImagesLeaveTheRest(cs: Option<seq<Container>>, image: string)
    ensures SameButImages(cs, OptImages(cs, image))
  {
  }

  lemma RenderingLeavesTheRest(x: Item, keys: seq<string>, values: Values)
    ensures SameButNamed(x, RenderedItem(x, keys, values), keys)
  {
    RenderedByMember(x, keys, values);
    if x.kind == "Ingress" && x.spec.Some? {
      HostsLeaveTheRest(x.spec.value.rules, values);
    }
    if x.kind == "Deployment" && HasPod(x) {
      var pod := x.spec.value.template.value.spec.value;
      ImagesLeaveTheRest(pod.initContainers, ValueOf(values, "OPL_CLOUD_IMAGE"));
      ImagesLeaveTheRest(pod.containers, ValueOf(values, "OPL_CLOUD_IMAGE"));
    }
  }

  lemma SharedIngressIs(x: Item)
    ensures IsSharedIngress(x)
            <==> x.kind == "Ingress" && x.metadata.Some? && x.metadata.value.name == Some("opl-cloud")
  {
  }

  lemma {:induction false} SurvivorsCount(items: seq<Item>)
    ensures forall x :: multiset(Survivors(items))[x] == if IsSharedIngress(x) then 0 else multiset(items)[x]
  {
    if items != [] {
      SurvivorsCount(items[1..]);
      assert items == [items[0]] + items[1..];
    }
  }

  /** Items that are not the shared ingress stay, as often as they were there and in order; with the flag off all items
      do. */
  lemma {:induction false} SurvivorsAre(items: seq<Item>)
    ensures forall x :: x in Survivors(items) <==> x in items && !IsSharedIngress(x)
    ensures forall x, y | x in items && y in items && !IsSharedIngress(x) && !IsSharedIngress(y) ::
              ComesBefore(items, x, y) <==> ComesBefore(Survivors(items), x, y)
  {
    if items != [] {
      SurvivorsAre(items[1..]);
      var h, t := items[0], items[1..];
      assert items == [h] + t;
      assert Survivors(items) == if IsSharedIngress(h) then Survivors(t) else [h] + Survivors(t);
      forall x, y | x in items && y in items && !IsSharedIngress(x) && !IsSharedIngress(y)
        ensures ComesBefore(items, x, y) <==> ComesBefore(Survivors(items), x, y)
      {
        ComesBeforeCons(h, t, x, y);
        ComesBeforeCons(h, Survivors(t), x, y);
        ComesBeforeIn(t, x, y);
        ComesBeforeIn(Survivors(t), x, y);
      }
    }
  }

  ghost predicate ComesBefore(items: seq<Item>, x: Item, y: Item) {
    exists i, j :: 0 <= i < j < |items| && items[i] == x && items[j] == y
  }

  lemma ComesBeforeIn(t: seq<Item>, x: Item, y: Item)
    ensures ComesBefore(t, x, y) ==> x in t && y in t
  {
  }

  lemma ComesBeforeCons(h: Item, t: seq<Item>, x: Item, y: Item)
    ensures ComesBefore([h] + t, x, y) <==> (h == x && y in t) || ComesBefore(t, x, y)
  {
    var s := [h] + t;
    if ComesBefore(s, x, y) {
      var i, j :| 0 <= i < j < |s| && s[i] == x && s[j] == y;
      assert t[j - 1] == y;
      if i > 0 {
        assert t[i - 1] == x;
      }
    }
    if ComesBefore(t, x, y) {
      var i, j :| 0 <= i < j < |t| && t[i] == x && t[j] == y;
      assert s[i + 1] == x && s[j + 1] == y;
    }
    if h == x && y in t {
      var j :| 0 <= j < |t| && t[j] == y;
      assert s[0] == x && s[j + 1] == y;
    }
  }

  // ----- when rendering goes ahead, and what a rendered manifest says -----

  lemma ValuesAre(values: Values, key: string)
    ensures key in values ==> ValueOf(values, key) == values[key]
    ensures key !in values ==> ValueOf(values, key) == ""
  {
  }

  /** The zone is the region, a dash and digits, the region on one line. */
  ghost predicate ZoneOfRegion(zone: string, region: string) {
    && (exists number :: AllDigits(number) && zone == region + ['-'] + number)
    && forall i | 0 <= i < |region| :: region[i] as int !in {0xA, 0xD, 0x2028, 0x2029}
  }

  lemma ZoneIff(zone: string, region: string)
    ensures ZoneIsIn(zone, region) <==> ZoneOfRegion(zone, region)
  {
    if ZoneIsIn(zone, region) {
      var number := zone[|region| + 1..];
      assert zone == region + ['-'] + number;
    }
    if ZoneOfRegion(zone, region) {
      var number :| AllDigits(number) && zone == region + ['-'] + number;
      assert zone[|region| + 1..] == number && zone[..|region|] == region;
    }
  }

  lemma MissingStep(k: string, rest: seq<string>, values: Values)
    ensures Missing([k] + rest, values)
            == (if Trim(ValueOf(values, k)) == "" then [k] else []) + Missing(rest, values)
  {
    assert ([k] + rest)[1..] == rest;
  }

  /** They are reported in the order in which they are listed. */
  lemma {:induction false} MissingInOrder(a: seq<string>, b: seq<string>, values: Values)
    ensures Missing(a + b, values) == Missing(a, values) + Missing(b, values)
  {
    if a == [] {
      assert a + b == b;
    } else {
      MissingInOrder(a[1..], b, values);
      assert a == [a[0]] + a[1..] && a + b == [a[0]] + (a[1..] + b);
      MissingStep(a[0], a[1..], values);
      MissingStep(a[0], a[1..] + b, values);
      Regroup(if Trim(ValueOf(values, a[0])) == "" then [a[0]] else [], Missing(a[1..], values), Missing(b, values));
    }
  }

  lemma Regroup<T>(a: seq<T>, b: seq<T>, c: seq<T>)
    ensures a + (b + c) == (a + b) + c
  {
  }

  lemma {:induction false} NothingMissingIff(keys: seq<string>, values: Values)
    ensures Missing(keys, values) == [] <==> forall k | k in keys :: k in values && NotBlank(values[k])
  {
    if keys != [] {
      NothingMissingIff(keys[1..], values);
      assert keys == [keys[0]] + keys[1..];
      TrimBlank(ValueOf(values, keys[0]));
    }
  }

  /** Rendering goes ahead exactly when every listed key has a value that is not blank and the zone lies in the region.
      Missing keys are reported first, and all of them. */
  lemma GoesAheadIff(m: Manifest, keys: seq<string>, values: Values, skip: bool)
    ensures var r := Render(m, keys, values, skip);
            && (r.Ok? <==>
                && (forall k | k in keys :: k in values && NotBlank(values[k]))
                && ZoneOfRegion(ValueOf(values, "OPL_TENCENT_ZONE"), ValueOf(values, "TENCENTCLOUD_REGION")))
            && (r == Err(ZoneRegionMismatch) <==>
                && (forall k | k in keys :: k in values && NotBlank(values[k]))
                && !ZoneOfRegion(ValueOf(values, "OPL_TENCENT_ZONE"), ValueOf(values, "TENCENTCLOUD_REGION")))
            && (r.Err? && r.error.MissingValues? ==> r.error.keys == Missing(keys, values))
  {
    NothingMissingIff(keys, values);
    ZoneIff(ValueOf(values, "OPL_TENCENT_ZONE"), ValueOf(values, "TENCENTCLOUD_REGION"));
  }

  /** In a rendered manifest every item is in the namespace, or is it. */
  lemma RenderedNamespace(m: Manifest, keys: seq<string>, v: Values, skip: bool, k: nat)
    requires Render(m, keys, v, skip).Ok? && "OPL_K8S_NAMESPACE" in keys
    requires Render(m, keys, v, skip).value.items.Some? && k < |Render(m, keys, v, skip).value.items.value|
    ensures var x := Render(m, keys, v, skip).value.items.value[k];
            && "OPL_K8S_NAMESPACE" in v && x.metadata.Some?
            && (if x.kind == "Namespace" then x.metadata.value.name == Some(v["OPL_K8S_NAMESPACE"])
                else x.metadata.value.namespace == Some(v["OPL_K8S_NAMESPACE"]))
  {
    GoesAheadIff(m, keys, v, skip);
    RenderedShows(Selected(m.items, skip).value[k], keys, v);
  }

  /** A config map of a rendered manifest holds the values of the listed keys it has. */
  lemma RenderedConfig(m: Manifest, keys: seq<string>, v: Values, skip: bool, k: nat, key: string)
    requires Render(m, keys, v, skip).Ok? && key in keys
    requires Render(m, keys, v, skip).value.items.Some? && k < |Render(m, keys, v, skip).value.items.value|
    ensures var x := Render(m, keys, v, skip).value.items.value[k];
            x.kind == "ConfigMap" && x.data.Some? && key in x.data.value ==>
              key in v && x.data.value[key] == Str(v[key])
  {
    GoesAheadIff(m, keys, v, skip);
    RenderedShows(Selected(m.items, skip).value[k], keys, v);
  }

  /** A deployment of a rendered manifest pulls with the secret, and its platform containers run the image. */
  lemma RenderedDeployment(m: Manifest, keys: seq<string>, v: Values, skip: bool, k: nat)
    requires Render(m, keys, v, skip).Ok? && "OPL_IMAGE_PULL_SECRET_NAME" in keys && "OPL_CLOUD_IMAGE" in keys
    requires Render(m, keys, v, skip).value.items.Some? && k < |Render(m, keys, v, skip).value.items.value|
    ensures var x := Render(m, keys, v, skip).value.items.value[k];
            && "OPL_IMAGE_PULL_SECRET_NAME" in v && "OPL_CLOUD_IMAGE" in v
            && (x.kind == "Deployment" && HasPod(x) ==>
                  var pod := x.spec.value.template.value.spec.value;
                  && pod.imagePullSecrets == Some([v["OPL_IMAGE_PULL_SECRET_NAME"]])
                  && ImagesShow(pod.initContainers, v["OPL_CLOUD_IMAGE"])
                  && ImagesShow(pod.containers, v["OPL_CLOUD_IMAGE"]))
  {
    GoesAheadIff(m, keys, v, skip);
    RenderedShows(Selected(m.items, skip).value[k], keys, v);
  }

  /** An ingress of a rendered manifest has exactly two certificates: the console's for the console's domain, and the
      workspaces' for theirs, which are the hosts of its first two rules. */
  lemma RenderedIngress(m: Manifest, keys: seq<string>, v: Values, skip: bool, k: nat)
    requires Render(m, keys, v, skip).Ok? && "OPL_INGRESS_CLASS" in keys
    requires "OPL_CONSOLE_DOMAIN" in keys && "OPL_WORKSPACE_DOMAIN" in keys
    requires "OPL_CONSOLE_TLS_SECRET_NAME" in keys && "OPL_WORKSPACE_TLS_SECRET_NAME" in keys
    requires Render(m, keys, v, skip).value.items.Some? && k < |Render(m, keys, v, skip).value.items.value|
    ensures "OPL_INGRESS_CLASS" in v && "OPL_CONSOLE_DOMAIN" in v && "OPL_WORKSPACE_DOMAIN" in v
    ensures "OPL_CONSOLE_TLS_SECRET_NAME" in v && "OPL_WORKSPACE_TLS_SECRET_NAME" in v
    ensures var x := Render(m, keys, v, skip).value.items.value[k];
            x.kind == "Ingress" ==>
              && x.spec.Some? && x.spec.value.ingressClassName == Some(v["OPL_INGRESS_CLASS"])
              && x.spec.value.tls.Some? && |x.spec.value.tls.value| == 2
              && x.spec.value.tls.value[0].hosts == [v["OPL_CONSOLE_DOMAIN"]]
              && x.spec.value.tls.value[0].secretName == v["OPL_CONSOLE_TLS_SECRET_NAME"]
              && x.spec.value.tls.value[1].hosts == [v["OPL_WORKSPACE_DOMAIN"]]
              && x.spec.value.tls.value[1].secretName == v["OPL_WORKSPACE_TLS_SECRET_NAME"]
              && (x.spec.value.rules.Some? && |x.spec.value.rules.value| > 0 ==>
                    x.spec.value.rules.value[0].host == Some(x.spec.value.tls.value[0].hosts[0]))
              && (x.spec.value.rules.Some? && |x.spec.value.rules.value| > 1 ==>
                    x.spec.value.rules.value[1].host == Some(x.spec.value.tls.value[1].hosts[0]))
  {
    GoesAheadIff(m, keys, v, skip);
    RenderedShows(Selected(m.items, skip).value[k], keys, v);
  }
}
