/** The setters of the manifest renderer, at work in place on a cloned manifest. */
module ManifestTree {
  import opened JsText
  import opened JsonValue
  import opened ManifestRendering

  const DEPLOY_VALUE_KEYS: seq<string> := [
    "OPL_K8S_NAMESPACE", "OPL_PUBLIC_URL", "OPL_CONSOLE_DOMAIN", "OPL_WORKSPACE_DOMAIN", "OPL_CLOUD_IMAGE",
    "OPL_WORKSPACE_IMAGE", "OPL_IMAGE_PULL_SECRET_NAME", "OPL_WORKSPACE_STORAGE_CLASS", "OPL_TENCENT_PROVISIONER_BIN",
    "OPL_TENCENT_ZONE", "OPL_WORKSPACE_WEBUI_PORT", "OPL_WORKSPACE_DATA_DIR", "OPL_WORKSPACE_PROJECTS_DIR",
    "OPL_MONTHLY_BILLING_WORKER_ENABLED", "OPL_MONTHLY_BILLING_INTERVAL_MS", "OPL_SUB2API_BASE_URL",
    "OPL_SUB2API_REQUEST_TIMEOUT_MS", "OPL_TENCENT_ZONE", "OPL_BASIC_COMPUTE_INSTANCE_TYPE",
    "OPL_PRO_COMPUTE_INSTANCE_TYPE", "OPL_CODEX_MODEL", "OPL_CODEX_REASONING_EFFORT", "OPL_CONSOLE_TLS_SECRET_NAME",
    "OPL_WORKSPACE_TLS_SECRET_NAME", "OPL_INGRESS_CLASS", "TENCENTCLOUD_REGION", "TENCENT_DEPLOY_CLUSTER_ID",
    "TENCENT_CVM_SUBNET_ID", "TENCENT_CVM_SECURITY_GROUP_IDS", "TENCENT_CVM_SYSTEM_DISK_TYPE",
    "TENCENT_CVM_SYSTEM_DISK_SIZE_GB", "RUN_TENCENT_CREATE_RELEASE_EXECUTION", "TENCENT_TCR_REGISTRY",
    "TENCENT_TCR_NAMESPACE", "TENCENT_TCR_REGION", "TENCENT_DEPLOY_KUBECONFIG_REF"]

  class ItemObject {
    const kind: string
    var metadata: Option<Metadata>
    var data: Option<map<string, Json>>
    var spec: Option<Spec>
    const rest: Json

    constructor (x: Item)
      ensures View() == x
    {
      kind, metadata, data, spec, rest := x.kind, x.metadata, x.data, x.spec, x.rest;
    }

    function View(): Item
      reads this
    {
      Item(kind, metadata, data, spec, rest)
    }

    method SetNamespace(namespace: string)
      modifies this
      ensures View() == WithNamespace(old(View()), namespace)
    {
      if metadata.None? {
        metadata := Some(Metadata(None, None, Obj([])));
      }
      if kind == "Namespace" {
        metadata := Some(metadata.value.(name := Some(namespace)));
      } else {
        metadata := Some(metadata.value.(namespace := Some(namespace)));
      }
    }

    /** Assigns listed keys one by one, one of them twice when the list repeats it. */
    method SetConfigMap(keys: seq<string>, values: Values)
      modifies this
      ensures View() == WithConfig(old(View()), keys, values)
    {
      if kind != "ConfigMap" || data.None? {
        return;
      }
      ghost var data0 := data.value;
      assert WithData(data0, [], values) == data0;
      for i := 0 to |keys|
        invariant metadata == old(metadata) && spec == old(spec)
        invariant data == Some(WithData(data0, keys[..i], values))
      {
        assert keys[..i + 1] == keys[..i] + [keys[i]];
        if keys[i] in data.value {
          data := Some(data.value[keys[i] := Str(ValueOf(values, keys[i]))]);
        }
        assert data.value == WithData(data0, keys[..i + 1], values);
      }
      assert keys[..|keys|] == keys;
    }

    /** The pod is edited in place, its init containers and containers in one walk. */
    method SetDeployment(values: Values)
      modifies this
      ensures View() == WithDeployment(old(View()), values)
    {
      if kind != "Deployment" || spec.None? || spec.value.template.None? || spec.value.template.value.spec.None? {
        return;
      }
      var podSpec := SetPod(spec.value.template.value.spec.value, values);
      spec := Some(spec.value.(template := Some(spec.value.template.value.(spec := Some(podSpec)))));
    }

    method SetIngress(values: Values)
      modifies this
      ensures View() == WithIngress(old(View()), values)
    {
      if kind != "Ingress" {
        return;
      }
      var s := if spec.Some? then spec.value else Spec(None, None, None, None, Obj([]));
      s := s.(ingressClassName := Some(ValueOf(values, "OPL_INGRESS_CLASS")));
      s := s.(tls := Some(TlsOf(values)));
      if s.rules.Some? && |s.rules.value| > 0 {
        s := s.(rules := Some(WithHost(s.rules.value, 0, ValueOf(values, "OPL_CONSOLE_DOMAIN"))));
      }
      if s.rules.Some? && |s.rules.value| > 1 {
        s := s.(rules := Some(WithHost(s.rules.value, 1, ValueOf(values, "OPL_WORKSPACE_DOMAIN"))));
      }
      spec := Some(s);
    }

    method Render(keys: seq<string>, values: Values)
      modifies this
      ensures View() == RenderedItem(old(View()), keys, values)
    {
      SetNamespace(ValueOf(values, "OPL_K8S_NAMESPACE"));
      SetConfigMap(keys, values);
      SetDeployment(values);
      SetIngress(values);
    }
  }

  method SetPod(pod: PodSpec, values: Values) returns (podSpec: PodSpec)
    ensures podSpec == WithPod(pod, values)
  {
    podSpec := pod.(imagePullSecrets := Some([ValueOf(values, "OPL_IMAGE_PULL_SECRET_NAME")]));
    var image := ValueOf(values, "OPL_CLOUD_IMAGE");
    var first := if podSpec.initContainers.Some? then podSpec.initContainers.value else [];
    var second := if podSpec.containers.Some? then podSpec.containers.value else [];
    var all := SetImages(first + second, image);
    ImagesOfParts(first, second, image);
    if podSpec.initContainers.Some? {
      podSpec := podSpec.(initContainers := Some(all[..|first|]));
    }
    if podSpec.containers.Some? {
      podSpec := podSpec.(containers := Some(all[|first|..]));
    }
  }

  lemma ImagesOfParts(first: seq<Container>, second: seq<Container>, image: string)
    ensures var all := WithImages(first + second, image);
            && all[..|first|] == WithImages(first, image) && all[|first|..] == WithImages(second, image)
  {
  }

  method SetImages(cs: seq<Container>, image: string) returns (r: seq<Container>)
    ensures r == WithImages(cs, image)
  {
    r := cs;
    for i := 0 to |cs|
      invariant |r| == |cs|
      invariant forall k | 0 <= k < |cs| :: r[k] == if k < i then WithImage(cs[k], image) else cs[k]
    {
      if r[i].name in CLOUD_CONTAINERS {
        r := r[i := r[i].(image := Some(image))];
      }
    }
  }

  class ManifestObject {
    var items: Option<seq<ItemObject>>
    const rest: Json

    constructor (items: Option<seq<ItemObject>>, rest: Json)
      ensures this.items == items && this.rest == rest
    {
      this.items, this.rest := items, rest;
    }

    ghost function Objects(): set<ItemObject>
      reads this
    {
      if items.None? then {} else set x | x in items.value
    }

    ghost function View(): Manifest
      reads this, Objects()
    {
      Manifest(OptViews(items), rest)
    }
  }

  ghost function Views(objects: seq<ItemObject>): (views: seq<Item>)
    reads objects
    ensures |views| == |objects|
    ensures forall k | 0 <= k < |objects| :: views[k] == objects[k].View()
  {
    if objects == [] then [] else [objects[0].View()] + Views(objects[1..])
  }

  /** Objects of a parsed copy: all new, no two the same. */
  ghost predicate Separate(objects: seq<ItemObject>) {
    forall i, j | 0 <= i < j < |objects| :: objects[i] != objects[j]
  }

  /** `JSON.parse(JSON.stringify(items))`. */
  method CloneItems(objects: seq<ItemObject>) returns (copies: seq<ItemObject>)
    ensures Views(copies) == old(Views(objects))
    ensures Separate(copies) && fresh(copies)
  {
    copies := [];
    for i := 0 to |objects|
      invariant |copies| == i
      invariant forall k | 0 <= k < i :: copies[k].View() == old(objects[k].View())
      invariant Separate(copies) && fresh(copies)
    {
      var x := objects[i];
      var copy := new ItemObject(Item(x.kind, x.metadata, x.data, x.spec, x.rest));
      copies := copies + [copy];
    }
  }

  method DropSharedIngress(objects: seq<ItemObject>) returns (kept: seq<ItemObject>)
    requires Separate(objects)
    ensures Views(kept) == Survivors(old(Views(objects)))
    ensures Separate(kept) && forall x | x in kept :: x in objects
  {
    kept := [];
    ghost var views := Views(objects);
    for i := 0 to |objects|
      invariant Views(kept) == Survivors(views[..i])
      invariant Separate(kept) && forall x | x in kept :: x in objects[..i]
    {
      var x := objects[i];
      PrefixGrows(views, i);
      PrefixGrows(objects, i);
      SurvivorsAppend(views[..i], x.View());
      if !IsSharedIngress(x.View()) {
        assert x !in objects[..i];
        ViewsAppend(kept, x);
        kept := kept + [x];
      }
    }
    assert views[..|objects|] == views;
    assert objects[..|objects|] == objects;
  }

  lemma PrefixGrows<T>(s: seq<T>, i: nat)
    requires i < |s|
    ensures s[..i + 1] == s[..i] + [s[i]]
  {
  }

  lemma {:induction false} SurvivorsAppend(items: seq<Item>, x: Item)
    ensures Survivors(items + [x]) == Survivors(items) + (if IsSharedIngress(x) then [] else [x])
  {
    if items == [] {
      assert items + [x] == [x];
    } else {
      assert (items + [x])[1..] == items[1..] + [x];
      SurvivorsAppend(items[1..], x);
    }
  }

  lemma ViewsAppend(objects: seq<ItemObject>, x: ItemObject)
    ensures Views(objects + [x]) == Views(objects) + [x.View()]
  {
  }

  /** The rendered manifest is a new one; the given one, which no clause allows to change, stays as it is. */
  method RenderTkeManifest(manifest: ManifestObject, values: Values, skipSharedIngress: bool)
    returns (r: Result<ManifestObject, RenderError>)
    ensures r.Err? ==> Render(old(manifest.View()), DEPLOY_VALUE_KEYS, values, skipSharedIngress) == Err(r.error)
    ensures r.Ok? ==> Render(old(manifest.View()), DEPLOY_VALUE_KEYS, values, skipSharedIngress) == Ok(r.value.View())
    ensures r.Ok? ==> fresh(r.value) && fresh(r.value.Objects())
  {
    r := RenderWithKeys(manifest, DEPLOY_VALUE_KEYS, values, skipSharedIngress);
  }

  method CloneSurvivors(objects: seq<ItemObject>) returns (kept: seq<ItemObject>)
    ensures Separate(kept) && fresh(kept)
    ensures Views(kept) == Survivors(old(Views(objects)))
  {
    var copies := CloneItems(objects);
    kept := DropSharedIngress(copies);
    forall k | 0 <= k < |kept| ensures fresh(kept[k]) {
      assert kept[k] in copies;
      var j :| 0 <= j < |copies| && copies[j] == kept[k];
    }
  }

  /** Lines 106 to 109 of `render-tke-manifest.ts`: the copied items, without the shared ingress if asked. */
  method CloneSelected(given: Option<seq<ItemObject>>, skipSharedIngress: bool)
    returns (items: Option<seq<ItemObject>>)
    ensures items.Some? ==> Separate(items.value) && fresh(items.value)
    ensures OptViews(items) == Selected(old(OptViews(given)), skipSharedIngress)
  {
    if skipSharedIngress {
      var kept := CloneSurvivors(if given.Some? then given.value else []);
      items := Some(kept);
    } else if given.Some? {
      var copies := CloneItems(given.value);
      items := Some(copies);
    } else {
      items := None;
    }
  }

  ghost function OptViews(items: Option<seq<ItemObject>>): Option<seq<Item>>
    reads if items.None? then [] else items.value
  {
    if items.None? then None else Some(Views(items.value))
  }

  method RenderWithKeys(manifest: ManifestObject, keys: seq<string>, values: Values, skipSharedIngress: bool)
    returns (r: Result<ManifestObject, RenderError>)
    ensures r.Err? ==> Render(old(manifest.View()), keys, values, skipSharedIngress) == Err(r.error)
    ensures r.Ok? ==> Render(old(manifest.View()), keys, values, skipSharedIngress) == Ok(r.value.View())
    ensures r.Ok? ==> fresh(r.value) && fresh(r.value.Objects())
  {
    var fault := RequiredValues(keys, values);
    if fault.Some? {
      return Err(fault.value);
    }
    ghost var before := manifest.View();
    var items := CloneSelected(manifest.items, skipSharedIngress);
    assert OptViews(items) == Selected(before.items, skipSharedIngress);
    if items.Some? {
      RenderAll(items.value, keys, values);
    }
    var rendered := new ManifestObject(items, manifest.rest);
    assert rendered.View() == Rendered(before, keys, values, skipSharedIngress);
    r := Ok(rendered);
  }

  method RenderAll(objects: seq<ItemObject>, keys: seq<string>, values: Values)
    requires Separate(objects)
    modifies objects
    ensures Views(objects) == RenderedItems(old(Views(objects)), keys, values)
  {
    for i := 0 to |objects|
      invariant forall k | 0 <= k < |objects| ::
                  objects[k].View() == if k < i then RenderedItem(old(objects[k].View()), keys, values)
                                       else old(objects[k].View())
    {
      objects[i].Render(keys, values);
    }
    assert Views(objects) == RenderedItems(old(Views(objects)), keys, values);
  }

  /** The list names 35 keys, the zone twice, and all those whose values rendering puts anywhere but in a config map. */
  lemma DeployKeysAre(k: seq<string>)
    requires k == DEPLOY_VALUE_KEYS
    ensures |k| == 36 && k[9] == k[17] == "OPL_TENCENT_ZONE"
    ensures k[0] == "OPL_K8S_NAMESPACE" && k[1] == "OPL_PUBLIC_URL" && k[2] == "OPL_CONSOLE_DOMAIN"
    ensures k[3] == "OPL_WORKSPACE_DOMAIN" && k[4] == "OPL_CLOUD_IMAGE" && k[5] == "OPL_WORKSPACE_IMAGE"
    ensures k[6] == "OPL_IMAGE_PULL_SECRET_NAME" && k[7] == "OPL_WORKSPACE_STORAGE_CLASS"
    ensures k[8] == "OPL_TENCENT_PROVISIONER_BIN" && k[10] == "OPL_WORKSPACE_WEBUI_PORT"
    ensures k[11] == "OPL_WORKSPACE_DATA_DIR" && k[12] == "OPL_WORKSPACE_PROJECTS_DIR"
    ensures k[13] == "OPL_MONTHLY_BILLING_WORKER_ENABLED" && k[14] == "OPL_MONTHLY_BILLING_INTERVAL_MS"
    ensures k[15] == "OPL_SUB2API_BASE_URL" && k[16] == "OPL_SUB2API_REQUEST_TIMEOUT_MS"
    ensures k[18] == "OPL_BASIC_COMPUTE_INSTANCE_TYPE" && k[19] == "OPL_PRO_COMPUTE_INSTANCE_TYPE"
    ensures k[20] == "OPL_CODEX_MODEL" && k[21] == "OPL_CODEX_REASONING_EFFORT"
    ensures k[22] == "OPL_CONSOLE_TLS_SECRET_NAME" && k[23] == "OPL_WORKSPACE_TLS_SECRET_NAME"
    ensures k[24] == "OPL_INGRESS_CLASS" && k[25] == "TENCENTCLOUD_REGION" && k[26] == "TENCENT_DEPLOY_CLUSTER_ID"
    ensures k[27] == "TENCENT_CVM_SUBNET_ID" && k[28] == "TENCENT_CVM_SECURITY_GROUP_IDS"
    ensures k[29] == "TENCENT_CVM_SYSTEM_DISK_TYPE" && k[30] == "TENCENT_CVM_SYSTEM_DISK_SIZE_GB"
    ensures k[31] == "RUN_TENCENT_CREATE_RELEASE_EXECUTION" && k[32] == "TENCENT_TCR_REGISTRY"
    ensures k[33] == "TENCENT_TCR_NAMESPACE" && k[34] == "TENCENT_TCR_REGION"
    ensures k[35] == "TENCENT_DEPLOY_KUBECONFIG_REF"
  {
  }
}
