/**
 * The IFC viewer's own bookkeeping: the registry of loaded models (mirrored
 * into the global store), the click resolver that picks the first visible
 * model hit, the element-information extractor, visibility toggling,
 * removal, loading and the download file name.
 */
module IfcViewer {
  import opened Wrappers
  import opened JsValues
  import opened IfcTypes
  import OrderedMap
  import Strings
  import ModelStore

  const UnknownElement: string := "Elemento sconosciuto"

  datatype ElementProperty = ElementProperty(name: Json, value: Json)

  datatype PropertySet = PropertySet(name: Json, properties: seq<ElementProperty>)

  /* ---------------------------------------------------------------------
   * Property sets: IsDefinedBy -> HasProperties -> Name / NominalValue
   * --------------------------------------------------------------------- */

  /**
   * One entry of `HasProperties`: `None` when `"value" in ...` throws,
   * `Some(None)` when the entry is skipped.
   */
  function PropertyOf(p: RawProperty): Option<Option<ElementProperty>> {
    match p.name
    case Record(None) => Some(None)
    case Record(Some(n)) =>
      (match p.nominalValue
       case Record(None) => Some(None)
       case Record(Some(v)) =>
         if Truthy(n) && v != JUndefined then Some(Some(ElementProperty(n, v))) else Some(None)
       case _ => None)
    case _ => None
  }

  /** `acc` with the entry appended when there is one. */
  function AppendPresent<T>(acc: seq<T>, o: Option<T>): seq<T> {
    if o.Some? then acc + [o.value] else acc
  }

  /** The properties collected from `HasProperties`; `None` when the loop throws. */
  function PropertiesOf(ps: seq<RawProperty>): Option<seq<ElementProperty>>
    decreases |ps|
  {
    if ps == [] then Some([])
    else match PropertiesOf(ps[..|ps| - 1])
      case None => None
      case Some(acc) =>
        match PropertyOf(ps[|ps| - 1])
        case None => None
        case Some(o) => Some(AppendPresent(acc, o))
  }

  /** One entry of `IsDefinedBy`: `None` when it throws, `Some(None)` when it is skipped. */
  function PropertySetOf(p: RawPropertySet): Option<Option<PropertySet>> {
    match p.name
    case Record(v) =>
      if v.None? || p.hasProperties.None? then Some(None)
      else
        (match PropertiesOf(p.hasProperties.value)
         case None => None
         case Some(props) => if props == [] then Some(None) else Some(Some(PropertySet(v.value, props))))
    case _ => None
  }

  /** The property sets collected from `IsDefinedBy`; `None` when the loop throws. */
  function PropertySetsOf(ps: seq<RawPropertySet>): Option<seq<PropertySet>>
    decreases |ps|
  {
    if ps == [] then Some([])
    else match PropertySetsOf(ps[..|ps| - 1])
      case None => None
      case Some(acc) =>
        match PropertySetOf(ps[|ps| - 1])
        case None => None
        case Some(o) => Some(AppendPresent(acc, o))
  }

  /** Collecting one more property. */
  lemma PropertiesSnoc(ps: seq<RawProperty>, p: RawProperty)
    ensures PropertiesOf(ps + [p]) ==
      match PropertiesOf(ps)
      case None => None
      case Some(acc) => (match PropertyOf(p) case None => None case Some(o) => Some(AppendPresent(acc, o)))
  {
    assert (ps + [p])[..|ps|] == ps;
  }

  /** Collecting one more property set. */
  lemma PropertySetsSnoc(ps: seq<RawPropertySet>, p: RawPropertySet)
    ensures PropertySetsOf(ps + [p]) ==
      match PropertySetsOf(ps)
      case None => None
      case Some(acc) => (match PropertySetOf(p) case None => None case Some(o) => Some(AppendPresent(acc, o)))
  {
    assert (ps + [p])[..|ps|] == ps;
  }

  /** Both halves succeed, and their results are concatenated. */
  function Concat<T>(a: Option<seq<T>>, b: Option<seq<T>>): Option<seq<T>> {
    if a.Some? && b.Some? then Some(a.value + b.value) else None
  }

  /** Properties are collected entry by entry, in source order. */
  lemma {:induction false} PropertiesAppend(a: seq<RawProperty>, b: seq<RawProperty>)
    ensures PropertiesOf(a + b) == Concat(PropertiesOf(a), PropertiesOf(b))
    decreases |b|
  {
    if b != [] {
      var b' := b[..|b| - 1];
      var last := b[|b| - 1];
      assert (a + b)[..|a + b| - 1] == a + b';
      assert (a + b)[|a + b| - 1] == last;
      PropertiesAppend(a, b');
      var pa, pb' := PropertiesOf(a), PropertiesOf(b');
      if pa.Some? && pb'.Some? && PropertyOf(last).Some? && PropertyOf(last).value.Some? {
        var tail := [PropertyOf(last).value.value];
        assert pa.value + pb'.value + tail == pa.value + (pb'.value + tail);
      }
    } else {
      assert a + b == a;
      if PropertiesOf(a).Some? {
        assert PropertiesOf(a).value + [] == PropertiesOf(a).value;
      }
    }
  }

  /** Property sets are collected entry by entry, in source order. */
  lemma {:induction false} PropertySetsAppend(a: seq<RawPropertySet>, b: seq<RawPropertySet>)
    ensures PropertySetsOf(a + b) == Concat(PropertySetsOf(a), PropertySetsOf(b))
    decreases |b|
  {
    if b != [] {
      var b' := b[..|b| - 1];
      var last := b[|b| - 1];
      assert (a + b)[..|a + b| - 1] == a + b';
      assert (a + b)[|a + b| - 1] == last;
      PropertySetsAppend(a, b');
      var pa, pb' := PropertySetsOf(a), PropertySetsOf(b');
      if pa.Some? && pb'.Some? && PropertySetOf(last).Some? && PropertySetOf(last).value.Some? {
        var tail := [PropertySetOf(last).value.value];
        assert pa.value + pb'.value + tail == pa.value + (pb'.value + tail);
      }
    } else {
      assert a + b == a;
      if PropertySetsOf(a).Some? {
        assert PropertySetsOf(a).value + [] == PropertySetsOf(a).value;
      }
    }
  }

  /** A property is kept exactly when it has a truthy name and a defined value. */
  lemma PropertyKept(p: RawProperty)
    ensures PropertiesOf([p]) == Some([]) <==>
      (p.name == Record(None))
      || (p.name.Record? && p.name.value.Some? && p.nominalValue == Record(None))
      || (p.name.Record? && p.name.value.Some? && p.nominalValue.Record? && p.nominalValue.value.Some?
          && !(Truthy(p.name.value.value) && p.nominalValue.value.value != JUndefined))
    ensures PropertiesOf([p]).Some? && PropertiesOf([p]) != Some([]) ==>
      p.name.Record? && p.name.value.Some? && p.nominalValue.Record? && p.nominalValue.value.Some?
      && Truthy(p.name.value.value) && p.nominalValue.value.value != JUndefined
      && PropertiesOf([p]) == Some([ElementProperty(p.name.value.value, p.nominalValue.value.value)])
  {
    PropertiesSnoc([], p);
    assert PropertiesOf([]) == Some([]);
    assert [] + [p] == [p];
    if PropertyOf(p).Some? && PropertyOf(p).value.Some? {
      var e: seq<ElementProperty> := [];
      assert e + [PropertyOf(p).value.value] == [PropertyOf(p).value.value];
    }
  }

  /** Every collected property has a truthy name and a defined value. */
  lemma {:induction false} PropertiesWellFormed(ps: seq<RawProperty>)
    requires PropertiesOf(ps).Some?
    ensures forall q :: q in PropertiesOf(ps).value ==> Truthy(q.name) && q.value != JUndefined
    decreases |ps|
  {
    if ps != [] {
      PropertiesWellFormed(ps[..|ps| - 1]);
    }
  }

  /** Every collected set is named by its `Name.value` and has at least one property. */
  lemma {:induction false} PropertySetsWellFormed(ps: seq<RawPropertySet>)
    requires PropertySetsOf(ps).Some?
    ensures forall s :: s in PropertySetsOf(ps).value ==>
      |s.properties| > 0 && forall q :: q in s.properties ==> Truthy(q.name) && q.value != JUndefined
    decreases |ps|
  {
    if ps != [] {
      PropertySetsWellFormed(ps[..|ps| - 1]);
      var last := ps[|ps| - 1];
      if PropertySetOf(last).Some? && PropertySetOf(last).value.Some? {
        PropertiesWellFormed(last.hasProperties.value);
      }
    }
  }

  /** A set without a `Name.value` or without a `HasProperties` array is skipped. */
  lemma SkippedPropertySet(p: RawPropertySet)
    requires p.name == Record(None) || (p.name.Record? && p.hasProperties.None?)
    ensures PropertySetsOf([p]) == Some([])
  {
    PropertySetsSnoc([], p);
    assert PropertySetsOf([]) == Some([]);
    assert [] + [p] == [p];

  }

  /** Extraction throws (and nothing is shown) when some `Name` is not an object. */
  lemma UnnamedPropertySetThrows(a: seq<RawPropertySet>, p: RawPropertySet, b: seq<RawPropertySet>)
    requires !p.name.Record?
    ensures PropertySetsOf(a + [p] + b) == None
  {
    PropertySetsAppend(a + [p], b);
    PropertySetsAppend(a, [p]);
    assert [p][..0] == [];
  }

  /** The nested loops that fill `propertySets`. */
  method ExtractPropertySets(psets: seq<RawPropertySet>) returns (r: Option<seq<PropertySet>>)
    ensures r == PropertySetsOf(psets)
  {
    var acc: seq<PropertySet> := [];
    var i := 0;
    while i < |psets|
      invariant 0 <= i <= |psets|
      invariant PropertySetsOf(psets[..i]) == Some(acc)
    {
      var pset := psets[i];
      assert psets[..i + 1] == psets[..i] + [pset];
      PropertySetsSnoc(psets[..i], pset);
      assert psets[..i + 1] + psets[i + 1..] == psets;
      if !pset.name.Record? {
        PropertySetsAppend(psets[..i + 1], psets[i + 1..]);
        return None;
      }
      if pset.name.value.Some? && pset.hasProperties.Some? {
        var raw := pset.hasProperties.value;
        var props: seq<ElementProperty> := [];
        var j := 0;
        while j < |raw|
          invariant 0 <= j <= |raw|
          invariant PropertiesOf(raw[..j]) == Some(props)
        {
          var prop := raw[j];
          assert raw[..j + 1] == raw[..j] + [prop];
          PropertiesSnoc(raw[..j], prop);
          assert raw[..j + 1] + raw[j + 1..] == raw;
          if !prop.name.Record? || (prop.name.value.Some? && !prop.nominalValue.Record?) {
            PropertiesAppend(raw[..j + 1], raw[j + 1..]);
            assert PropertySetOf(pset) == None;
            PropertySetsAppend(psets[..i + 1], psets[i + 1..]);
            return None;
          }
          if prop.name.value.Some? && prop.nominalValue.value.Some? {
            var name := prop.name.value.value;
            var value := prop.nominalValue.value.value;
            if Truthy(name) && value != JUndefined {
              props := props + [ElementProperty(name, value)];
            }
          }
          assert PropertiesOf(raw[..j + 1]) == Some(props);
          j := j + 1;
        }
        assert raw[..j] == raw;
        assert PropertySetOf(pset) == if |props| > 0 then Some(Some(PropertySet(pset.name.value.value, props))) else Some(None);
        if |props| > 0 {
          acc := acc + [PropertySet(pset.name.value.value, props)];
        }
      }
      assert PropertySetsOf(psets[..i + 1]) == Some(acc);
      i := i + 1;
    }
    assert psets[..i] == psets;
    r := Some(acc);
  }

  /* ---------------------------------------------------------------------
   * Element information
   * --------------------------------------------------------------------- */

  /** The element's display name; `None` when `"value" in data.Name` throws. */
  function ElementName(data: ItemData): Option<Json> {
    match data.name
    case Absent => Some(JStr(UnknownElement))
    case NonObject => None
    case Record(v) => Some(v.GetOr(JStr(UnknownElement)))
  }

  /** What `getElementInfo` writes; `None` in a field means it is left as it was. */
  datatype ElementInfo = ElementInfo(name: Option<Json>, properties: Option<seq<PropertySet>>)

  function ElementInfoOf(engine: Engine, modelId: string, localId: int): ElementInfo {
    match engine.itemData(modelId, localId)
    case None => ElementInfo(None, None)
    case Some(data) =>
      match ElementName(data)
      case None => ElementInfo(None, None)
      case Some(n) =>
        match engine.psetData(modelId, localId)
        case None => ElementInfo(Some(n), None)
        case Some(pd) => ElementInfo(Some(n), PropertySetsOf(pd.isDefinedBy.GetOr([])))
  }

  method GetElementInfo(engine: Engine, modelId: string, localId: int) returns (info: ElementInfo)
    ensures info == ElementInfoOf(engine, modelId, localId)
    ensures info.name.Some? <==> engine.itemData(modelId, localId).Some?
                                 && !engine.itemData(modelId, localId).value.name.NonObject?
    ensures info.name.Some? ==>
      var f := engine.itemData(modelId, localId).value.name;
      info.name.value == if f.Record? && f.value.Some? then f.value.value else JStr(UnknownElement)
    ensures info.properties.Some? ==> info.name.Some? && engine.psetData(modelId, localId).Some?
    ensures info.properties.Some? ==>
      forall s :: s in info.properties.value ==> |s.properties| > 0
  {
    var data := engine.itemData(modelId, localId);
    if data.None? {
      return ElementInfo(None, None);
    }
    var name := ElementName(data.value);
    if name.None? {
      return ElementInfo(None, None);
    }
    var pd := engine.psetData(modelId, localId);
    if pd.None? {
      return ElementInfo(name, None);
    }
    var raw := pd.value.isDefinedBy.GetOr([]);
    var sets := ExtractPropertySets(raw);
    if sets.Some? {
      PropertySetsWellFormed(raw);
    }
    info := ElementInfo(name, sets);
  }

  /* ---------------------------------------------------------------------
   * The click resolver's scan
   * --------------------------------------------------------------------- */

  /** The model is shown and its ray test reports a hit. */
  predicate Hits(e: (string, ModelInfo), raycast: string -> RayResult) {
    e.1.visible && raycast(e.0).Hit?
  }

  /** The first shown model, in map order, whose ray test hits, with the hit's local id. */
  function FirstHit(models: seq<(string, ModelInfo)>, raycast: string -> RayResult): Option<(string, int)> {
    if models == [] then None
    else if Hits(models[0], raycast) then Some((models[0].0, raycast(models[0].0).localId))
    else FirstHit(models[1..], raycast)
  }

  /** `FirstHit` is the hit of the first entry that hits, and there is none exactly when no entry hits. */
  lemma {:induction false} FirstHitIsFirst(models: seq<(string, ModelInfo)>, raycast: string -> RayResult)
    ensures FirstHit(models, raycast).None? <==> forall i :: 0 <= i < |models| ==> !Hits(models[i], raycast)
    ensures FirstHit(models, raycast).Some? ==>
      exists i :: 0 <= i < |models| && Hits(models[i], raycast)
        && (forall j :: 0 <= j < i ==> !Hits(models[j], raycast))
        && FirstHit(models, raycast) == Some((models[i].0, raycast(models[i].0).localId))
  {
    if models != [] && !Hits(models[0], raycast) {
      FirstHitIsFirst(models[1..], raycast);
      if FirstHit(models, raycast).Some? {
        var i :| 0 <= i < |models[1..]| && Hits(models[1..][i], raycast)
          && (forall j :: 0 <= j < i ==> !Hits(models[1..][j], raycast))
          && FirstHit(models[1..], raycast) == Some((models[1..][i].0, raycast(models[1..][i].0).localId));
        assert forall j :: 1 <= j < i + 1 ==> models[j] == models[1..][j - 1];
      }
    }
  }

  /** A hidden model never takes the hit, whatever its ray test says. */
  lemma {:induction false} HiddenModelsIgnored(models: seq<(string, ModelInfo)>, raycast: string -> RayResult,
                                               raycast': string -> RayResult)
    requires forall i :: 0 <= i < |models| && models[i].1.visible ==> raycast(models[i].0) == raycast'(models[i].0)
    ensures FirstHit(models, raycast) == FirstHit(models, raycast')
  {
    if models != [] {
      HiddenModelsIgnored(models[1..], raycast, raycast');
    }
  }

  /** The loop over the model map that stops at the first hit; ray-test errors are skipped. */
  method FindFirstHit(models: seq<(string, ModelInfo)>, raycast: string -> RayResult) returns (found: Option<(string, int)>)
    ensures found == FirstHit(models, raycast)
  {
    found := None;
    var i := 0;
    while i < |models|
      invariant 0 <= i <= |models|
      invariant FirstHit(models, raycast) == FirstHit(models[i..], raycast)
    {
      var (id, info) := models[i];
      assert models[i..][1..] == models[i + 1..];
      if info.visible {
        var result := raycast(id);
        if result.Hit? {
          found := Some((id, result.localId));
          break;
        }
      }
      i := i + 1;
    }
  }

  /* ---------------------------------------------------------------------
   * Loading: element count and the model record
   * --------------------------------------------------------------------- */

  /** The items counted over `categories` until the first enumeration that throws. */
  function CountFrom(engine: Engine, modelId: string, categories: seq<string>): nat
    decreases |categories|
  {
    if categories == [] then 0
    else match engine.itemsOf(modelId, categories[0])
      case None => 0
      case Some(items) => |items| + CountFrom(engine, modelId, categories[1..])
  }

  /** `elementCount` of a freshly loaded model. */
  function ElementCount(engine: Engine, modelId: string): nat {
    match engine.categories(modelId)
    case None => 0
    case Some(cats) => CountFrom(engine, modelId, cats)
  }

  /** Sum of the item counts of all categories. */
  function SumItems(engine: Engine, modelId: string, categories: seq<string>): nat
    decreases |categories|
  {
    if categories == [] then 0
    else |engine.itemsOf(modelId, categories[0]).GetOr([])| + SumItems(engine, modelId, categories[1..])
  }

  /** A failure stops the count but keeps what was counted before it, so the count never overshoots. */
  lemma {:induction false} CountFromBounded(engine: Engine, modelId: string, categories: seq<string>)
    ensures CountFrom(engine, modelId, categories) <= SumItems(engine, modelId, categories)
    ensures (forall i :: 0 <= i < |categories| ==> engine.itemsOf(modelId, categories[i]).Some?) ==>
      CountFrom(engine, modelId, categories) == SumItems(engine, modelId, categories)
    decreases |categories|
  {
    if categories != [] {
      CountFromBounded(engine, modelId, categories[1..]);
      if (forall i :: 0 <= i < |categories| ==> engine.itemsOf(modelId, categories[i]).Some?) {
        assert forall i :: 0 <= i < |categories[1..]| ==> categories[1..][i] == categories[i + 1];
      }
    }
  }

  /** The `elementCount +=` loop in `loadConfiguredModel`. */
  method CountElements(engine: Engine, modelId: string) returns (count: nat)
    ensures count == ElementCount(engine, modelId)
  {
    count := 0;
    var cats := engine.categories(modelId);
    if cats.None? {
      return;
    }
    var categories := cats.value;
    var i := 0;
    while i < |categories|
      invariant 0 <= i <= |categories|
      invariant count + CountFrom(engine, modelId, categories[i..]) == CountFrom(engine, modelId, categories)
    {
      assert categories[i..][1..] == categories[i + 1..];
      var items := engine.itemsOf(modelId, categories[i]);
      if items.None? {
        break;
      }
      count := count + |items.value|;
      i := i + 1;
    }
  }

  /** The record built for a model that loaded. */
  function InfoOf(config: ConfiguredModel, bytes: seq<bv8>, count: nat): ModelInfo {
    ModelInfo(config.id, config.name, config.description, config.format, config.category, true,
              count, bytes, config.author, config.version, config.tags)
  }

  /** The registry after one `loadConfiguredModel`. */
  function LoadOne(models: seq<(string, ModelInfo)>, config: ConfiguredModel, engine: Engine): seq<(string, ModelInfo)> {
    match engine.load(config)
    case None => models
    case Some(bytes) => OrderedMap.Set(models, config.id, InfoOf(config, bytes, ElementCount(engine, config.id)))
  }

  /** The registry after `loadConfiguredModels`: each visible descriptor is loaded in turn. */
  function LoadAll(models: seq<(string, ModelInfo)>, configs: seq<ConfiguredModel>, engine: Engine): seq<(string, ModelInfo)>
    decreases |configs|
  {
    if configs == [] then models
    else LoadAll(if configs[0].visible then LoadOne(models, configs[0], engine) else models, configs[1..], engine)
  }

  /** Every visible descriptor that loads ends up in the registry, and nothing already there is lost. */
  lemma {:induction false} LoadAllKeeps(models: seq<(string, ModelInfo)>, configs: seq<ConfiguredModel>, engine: Engine, k: string)
    requires OrderedMap.HasKey(models, k)
             || exists i :: 0 <= i < |configs| && configs[i].id == k && configs[i].visible && engine.load(configs[i]).Some?
    ensures OrderedMap.HasKey(LoadAll(models, configs, engine), k)
    decreases |configs|
  {
    if configs != [] {
      var next := if configs[0].visible then LoadOne(models, configs[0], engine) else models;
      if configs[0].visible && engine.load(configs[0]).Some? {
        OrderedMap.KeysSet(models, configs[0].id, InfoOf(configs[0], engine.load(configs[0]).value, ElementCount(engine, configs[0].id)));
      }
      if !OrderedMap.HasKey(models, k) || !OrderedMap.HasKey(next, k) {
        var i :| 0 <= i < |configs| && configs[i].id == k && configs[i].visible && engine.load(configs[i]).Some?;
        if i > 0 {
          assert configs[1..][i - 1] == configs[i];
        }
      }
      LoadAllKeeps(next, configs[1..], engine, k);
    }
  }

  /**
   * The registry as `loadConfiguredModels` leaves it in the source: every
   * `loadConfiguredModel` copies the `models` captured when the loop started
   * (`snapshot`), so each successful load replaces the previous one.
   */
  function LoadAllAsWritten(snapshot: seq<(string, ModelInfo)>, configs: seq<ConfiguredModel>, engine: Engine,
                            current: seq<(string, ModelInfo)>): seq<(string, ModelInfo)>
    decreases |configs|
  {
    if configs == [] then current
    else
      var next := if configs[0].visible && engine.load(configs[0]).Some? then LoadOne(snapshot, configs[0], engine) else current;
      LoadAllAsWritten(snapshot, configs[1..], engine, next)
  }

  /** Two configured models that both load: as written, only the second survives in the viewer's map. */
  lemma StaleSnapshotDropsFirstModel(a: ConfiguredModel, b: ConfiguredModel, engine: Engine)
    requires a.id != b.id && a.visible && b.visible
    requires engine.load(a).Some? && engine.load(b).Some?
    ensures !OrderedMap.HasKey(LoadAllAsWritten([], [a, b], engine, []), a.id)
    ensures OrderedMap.HasKey(LoadAll([], [a, b], engine), a.id)
    ensures OrderedMap.HasKey(LoadAll([], [a, b], engine), b.id)
  {
    assert [a, b][1..] == [b];
    assert [b][1..] == [];
    var infoA := InfoOf(a, engine.load(a).value, ElementCount(engine, a.id));
    var infoB := InfoOf(b, engine.load(b).value, ElementCount(engine, b.id));
    assert LoadOne([], a, engine) == [(a.id, infoA)];
    assert LoadOne([], b, engine) == [(b.id, infoB)];
    assert LoadAllAsWritten([], [a, b], engine, []) == LoadAllAsWritten([], [b], engine, [(a.id, infoA)]);
    assert LoadAllAsWritten([], [b], engine, [(a.id, infoA)]) == LoadAllAsWritten([], [], engine, [(b.id, infoB)]);
    assert OrderedMap.Keys([(b.id, infoB)]) == [b.id];
    LoadAllKeeps([], [a, b], engine, a.id);
    LoadAllKeeps([], [a, b], engine, b.id);
  }

  /* ---------------------------------------------------------------------
   * Derived views of the registry
   * --------------------------------------------------------------------- */

  /** `Elementi totali`: the sum of the element counts. */
  function TotalElements(models: seq<(string, ModelInfo)>): nat {
    if models == [] then 0 else models[0].1.elementCount + TotalElements(models[1..])
  }

  /** Removing a model takes exactly its elements off the total. */
  lemma {:induction false} TotalElementsDelete(models: seq<(string, ModelInfo)>, id: string)
    requires OrderedMap.NoDupKeys(models)
    ensures OrderedMap.Get(models, id).Some? ==>
      TotalElements(OrderedMap.Delete(models, id)) + OrderedMap.Get(models, id).value.elementCount == TotalElements(models)
    ensures OrderedMap.Get(models, id).None? ==> TotalElements(OrderedMap.Delete(models, id)) == TotalElements(models)
  {
    if models != [] {
      TotalElementsDelete(models[1..], id);
      if models[0].0 == id {
        OrderedMap.GetSome(models[1..], id);
        OrderedMap.DeleteAbsent(models[1..], id);
      }
    }
  }

  /** The model that takes the hit is one of the registry's keys. */
  lemma {:induction false} FirstHitIsKey(models: seq<(string, ModelInfo)>, raycast: string -> RayResult)
    ensures FirstHit(models, raycast).Some? ==> OrderedMap.HasKey(models, FirstHit(models, raycast).value.0)
  {
    if models != [] && !Hits(models[0], raycast) {
      FirstHitIsKey(models[1..], raycast);
    }
  }

  predicate IsVisible(models: seq<(string, ModelInfo)>, id: string) {
    var g := OrderedMap.Get(models, id);
    g.Some? && g.value.visible
  }

  /** The ids whose object is in the scene. */
  function VisibleIds(models: seq<(string, ModelInfo)>): set<string> {
    set id | id in OrderedMap.Keys(models) && IsVisible(models, id)
  }

  lemma VisibleIdsMember(models: seq<(string, ModelInfo)>, id: string)
    ensures id in VisibleIds(models) <==> IsVisible(models, id)
  {
    OrderedMap.GetSome(models, id);
  }

  /** Removing a model takes exactly its id out of the scene ids. */
  lemma VisibleIdsDelete(models: seq<(string, ModelInfo)>, id: string)
    ensures VisibleIds(OrderedMap.Delete(models, id)) == VisibleIds(models) - {id}
  {
    var after := OrderedMap.Delete(models, id);
    forall k ensures k in VisibleIds(after) <==> k in VisibleIds(models) - {id} {
      VisibleIdsMember(after, k);
      VisibleIdsMember(models, k);
      if k != id {
        OrderedMap.GetDeleteOther(models, id, k);
      } else {
        OrderedMap.GetDeleteSame(models, id);
      }
    }
  }

  /** The registry with one model's `visible` flag flipped; an unknown id changes nothing. */
  function ToggledVisibility(models: seq<(string, ModelInfo)>, id: string): seq<(string, ModelInfo)> {
    match OrderedMap.Get(models, id)
    case None => models
    case Some(info) => OrderedMap.Set(models, id, info.(visible := !info.visible))
  }

  /** Only the toggled model's `visible` flag changes. */
  lemma ToggleFlipsOnlyOne(models: seq<(string, ModelInfo)>, id: string, k: string)
    ensures k != id ==> OrderedMap.Get(ToggledVisibility(models, id), k) == OrderedMap.Get(models, k)
    ensures OrderedMap.Get(models, id).Some? ==>
      OrderedMap.Get(ToggledVisibility(models, id), id)
        == Some(OrderedMap.Get(models, id).value.(visible := !OrderedMap.Get(models, id).value.visible))
    ensures OrderedMap.Keys(ToggledVisibility(models, id)) == OrderedMap.Keys(models)
  {
    var g := OrderedMap.Get(models, id);
    if g.Some? {
      var info := g.value;
      if k != id {
        OrderedMap.GetSetOther(models, id, info.(visible := !info.visible), k);
      }
      OrderedMap.GetSetSame(models, id, info.(visible := !info.visible));
      OrderedMap.GetSome(models, id);
      OrderedMap.KeysSet(models, id, info.(visible := !info.visible));
    }
  }

  /** Toggling the same model twice restores the registry. */
  lemma ToggleTwiceRestores(models: seq<(string, ModelInfo)>, id: string)
    ensures ToggledVisibility(ToggledVisibility(models, id), id) == models
  {
    var g := OrderedMap.Get(models, id);
    if g.Some? {
      var info := g.value;
      var flipped := info.(visible := !info.visible);
      OrderedMap.GetSetSame(models, id, flipped);
      OrderedMap.SetSet(models, id, flipped, info);
      OrderedMap.SetUnchanged(models, id, info);
    }
  }

  /** The download file name: `.ifc` becomes `.frag` (first occurrence only) for converted models. */
  function DownloadFileName(info: ModelInfo): string {
    if info.format == Ifc then Strings.ReplaceFirst(info.name, ".ifc", ".frag") else info.name
  }

  /** A converted model called `base.ifc` downloads as `base.frag`; other names are kept. */
  lemma DownloadFileNameRule(info: ModelInfo, base: string)
    ensures info.format == Frag ==> DownloadFileName(info) == info.name
    ensures info.format == Ifc && !Strings.Contains(info.name, ".ifc") ==> DownloadFileName(info) == info.name
    ensures info.format == Ifc && info.name == base + ".ifc" && !Strings.Contains(base, ".ifc") ==>
      DownloadFileName(info) == base + ".frag"
  {
    Strings.ContainsIff(info.name, ".ifc");
    if info.format == Ifc && info.name == base + ".ifc" && !Strings.Contains(base, ".ifc") {
      Strings.IndexOfAppended(base, ".ifc");
      assert info.name[..|base|] == base;
      assert info.name[|base| + 4..] == [];
    }
  }

  /* ---------------------------------------------------------------------
   * The viewer component
   * --------------------------------------------------------------------- */

  /** The highlight the selection allows: the selected element, if any. */
  function SelectionHighlight(element: Option<int>, model: Option<string>): set<(string, int)> {
    if element.Some? && model.Some? then {(model.value, element.value)} else {}
  }

  class Viewer {
    /** The global model store, kept in step with the viewer. */
    const store: ModelStore.Store
    var models: seq<(string, ModelInfo)>
    var selectedElement: Option<int>
    var selectedModel: Option<string>
    var elementName: Option<Json>
    var elementProperties: seq<PropertySet>
    var modelLoaded: bool
    /** Ids of the models whose object is in the scene. */
    var inScene: set<string>
    /** Elements the engine currently shows highlighted. */
    var highlighted: set<(string, int)>

    ghost predicate Valid()
      reads this, store
    {
      && OrderedMap.NoDupKeys(models)
      && store.models == models
      && store.selectedElementId == selectedElement
      && store.selectedModelId == selectedModel
      && (selectedElement.None? <==> selectedModel.None?)
      && (selectedModel.Some? ==> OrderedMap.HasKey(models, selectedModel.value) && selectedModel.value != "")
      && highlighted <= SelectionHighlight(selectedElement, selectedModel)
      && inScene == VisibleIds(models)
      && modelLoaded == (models != [])
    }

    constructor (store: ModelStore.Store)
      requires store.models == [] && store.selectedElementId == None && store.selectedModelId == None
      ensures Valid() && this.store == store
      ensures models == [] && selectedElement == None && selectedModel == None
      ensures elementName == None && elementProperties == [] && highlighted == {}
    {
      this.store := store;
      models := [];
      selectedElement, selectedModel := None, None;
      elementName, elementProperties := None, [];
      modelLoaded := false;
      inScene, highlighted := {}, {};
    }

    /** `setSelected` and `setSelectedModel` together: the ref, the state and the store. */
    method SetSelection(element: Option<int>, model: Option<string>)
      modifies this, store
      ensures selectedElement == element && selectedModel == model
      ensures store.selectedElementId == element && store.selectedModelId == model
      ensures store.models == old(store.models) && store.fragments == old(store.fragments)
      ensures models == old(models) && inScene == old(inScene) && highlighted == old(highlighted)
      ensures elementName == old(elementName) && elementProperties == old(elementProperties)
      ensures modelLoaded == old(modelLoaded)
    {
      selectedElement := element;
      store.selectedElementId := element;
      selectedModel := model;
      store.selectedModelId := model;
    }

    /** Resets the highlight of the current selection, if its model is still loaded. */
    method ResetHighlight()
      requires Valid()
      modifies this
      ensures Valid() && highlighted == {}
      ensures models == old(models) && inScene == old(inScene) && modelLoaded == old(modelLoaded)
      ensures selectedElement == old(selectedElement) && selectedModel == old(selectedModel)
      ensures elementName == old(elementName) && elementProperties == old(elementProperties)
    {
      var oldId := selectedElement;
      var oldModelId := selectedModel;
      if oldId.Some? && oldModelId.Some? && oldModelId.value != "" {
        OrderedMap.GetSome(models, oldModelId.value);
        if OrderedMap.Get(models, oldModelId.value).Some? {
          highlighted := highlighted - {(oldModelId.value, oldId.value)};
        }
      }
    }

    /** The click handler: first visible hit wins; a miss clears the whole selection. */
    method Click(engine: Engine)
      requires Valid()
      modifies this, store
      ensures Valid()
      ensures models == old(models) && inScene == old(inScene) && modelLoaded == old(modelLoaded)
      ensures store.fragments == old(store.fragments)
      ensures var hit := FirstHit(old(models), engine.raycast);
        if hit.Some? && hit.value.0 != "" then
          && selectedModel == Some(hit.value.0) && selectedElement == Some(hit.value.1)
          && highlighted == {hit.value}
          && var info := ElementInfoOf(engine, hit.value.0, hit.value.1);
             && elementName == (if info.name.Some? then info.name else old(elementName))
             && elementProperties == (if info.properties.Some? then info.properties.value else old(elementProperties))
        else
          && selectedModel == None && selectedElement == None
          && elementName == None && elementProperties == [] && highlighted == {}
    {
      var found := FindFirstHit(models, engine.raycast);
      ResetHighlight();
      if found.Some? && found.value.0 != "" {
        var (modelId, localId) := found.value;
        FirstHitIsKey(models, engine.raycast);
        highlighted := highlighted + {(modelId, localId)};
        SetSelection(Some(localId), Some(modelId));
        var info := GetElementInfo(engine, modelId, localId);
        if info.name.Some? {
          elementName := info.name;
        }
        if info.properties.Some? {
          elementProperties := info.properties.value;
        }
      } else {
        SetSelection(None, None);
        elementName := None;
        elementProperties := [];
      }
    }

    /** `toggleModelVisibility`: flips one model's flag and its scene membership. */
    method ToggleModelVisibility(id: string)
      requires Valid()
      modifies this, store
      ensures Valid()
      ensures models == ToggledVisibility(old(models), id)
      ensures inScene == VisibleIds(models)
      ensures !OrderedMap.HasKey(old(models), id) ==> inScene == old(inScene)
      ensures OrderedMap.HasKey(old(models), id) ==>
        inScene == if IsVisible(models, id) then old(inScene) + {id} else old(inScene) - {id}
      ensures selectedElement == old(selectedElement) && selectedModel == old(selectedModel)
      ensures elementName == old(elementName) && elementProperties == old(elementProperties)
      ensures highlighted == old(highlighted) && modelLoaded == old(modelLoaded)
      ensures store.fragments == old(store.fragments)
    {
      OrderedMap.GetSome(models, id);
      var g := OrderedMap.Get(models, id);
      if g.None? {
        return;
      }
      var info := g.value;
      var updated := info.(visible := !info.visible);
      var newModels := OrderedMap.Set(models, id, updated);
      OrderedMap.SetNoDup(models, id, updated);
      ToggleFlipsOnlyOne(models, id, id);
      forall k ensures k in VisibleIds(newModels) <==> k in (if updated.visible then inScene + {id} else inScene - {id}) {
        VisibleIdsMember(newModels, k);
        VisibleIdsMember(models, k);
        ToggleFlipsOnlyOne(models, id, k);
      }
      if updated.visible {
        inScene := inScene + {id};
      } else {
        inScene := inScene - {id};
      }
      models := newModels;
      store.AddModel(id, updated);
      if selectedModel.Some? {
        OrderedMap.GetSome(old(models), selectedModel.value);
        OrderedMap.GetSome(models, selectedModel.value);
        ToggleFlipsOnlyOne(old(models), id, selectedModel.value);
      }
    }

    /** `removeModel`: deletes one model, clearing the selection iff it was on that model. */
    method RemoveModel(id: string)
      requires Valid()
      modifies this, store
      ensures Valid()
      ensures !OrderedMap.HasKey(old(models), id) ==>
        models == old(models) && inScene == old(inScene) && highlighted == old(highlighted)
        && selectedElement == old(selectedElement) && selectedModel == old(selectedModel)
        && elementName == old(elementName) && elementProperties == old(elementProperties)
      ensures models == OrderedMap.Delete(old(models), id)
      ensures inScene == old(inScene) - {id}
      ensures old(selectedModel) == Some(id) ==>
        selectedElement == None && selectedModel == None && elementName == None && elementProperties == []
        && highlighted == {}
      ensures old(selectedModel) != Some(id) ==>
        selectedElement == old(selectedElement) && selectedModel == old(selectedModel)
        && elementName == old(elementName) && elementProperties == old(elementProperties)
        && highlighted == old(highlighted)
      ensures modelLoaded == (models != [])
      ensures store.fragments == old(store.fragments)
    {
      OrderedMap.GetSome(models, id);
      if OrderedMap.Get(models, id).None? {
        OrderedMap.DeleteAbsent(models, id);
        assert id !in inScene by { VisibleIdsMember(models, id); }
        return;
      }
      var newModels := OrderedMap.Delete(models, id);
      OrderedMap.DeleteNoDup(models, id);
      VisibleIdsDelete(models, id);
      // the object leaves the scene and the engine disposes of the model
      inScene := inScene - {id};
      highlighted := set h | h in highlighted && h.0 != id;
      models := newModels;
      store.RemoveModel(id);
      if selectedModel == Some(id) {
        SetSelection(None, None);
        elementName := None;
        elementProperties := [];
      } else if selectedModel.Some? {
        OrderedMap.KeysDelete(old(models), id, selectedModel.value);
      }
      modelLoaded := |models| > 0;
    }

    /** `loadConfiguredModel`: fetch, convert, load, count, register and show. */
    method LoadConfiguredModel(config: ConfiguredModel, engine: Engine) returns (loaded: bool)
      requires Valid()
      modifies this, store
      ensures Valid()
      ensures loaded <==> engine.load(config).Some?
      ensures models == LoadOne(old(models), config, engine)
      ensures loaded ==>
        OrderedMap.Get(models, config.id) == Some(InfoOf(config, engine.load(config).value, ElementCount(engine, config.id)))
      ensures loaded ==> config.id in inScene
      ensures !loaded ==> inScene == old(inScene) && modelLoaded == old(modelLoaded)
      ensures selectedElement == old(selectedElement) && selectedModel == old(selectedModel)
      ensures elementName == old(elementName) && elementProperties == old(elementProperties)
      ensures highlighted == old(highlighted)
      ensures store.fragments == old(store.fragments)
    {
      var bytes := engine.load(config);
      if bytes.None? {
        return false;
      }
      var count := CountElements(engine, config.id);
      var info := InfoOf(config, bytes.value, count);
      var newModels := OrderedMap.Set(models, config.id, info);
      OrderedMap.SetNoDup(models, config.id, info);
      OrderedMap.GetSetSame(models, config.id, info);
      forall k ensures k in VisibleIds(newModels) <==> k in inScene + {config.id} {
        VisibleIdsMember(newModels, k);
        VisibleIdsMember(models, k);
        if k != config.id {
          OrderedMap.GetSetOther(models, config.id, info, k);
        }
      }
      models := newModels;
      store.AddModel(config.id, info);
      inScene := inScene + {config.id};
      modelLoaded := true;
      if selectedModel.Some? {
        OrderedMap.KeysSet(old(models), config.id, info);
      }
      loaded := true;
    }

    /** `loadConfiguredModels`: loads every visible descriptor in turn, threading the registry. */
    method LoadConfiguredModels(configs: seq<ConfiguredModel>, engine: Engine)
      requires Valid()
      modifies this, store
      ensures Valid()
      ensures models == LoadAll(old(models), configs, engine)
      ensures forall i :: 0 <= i < |configs| && configs[i].visible && engine.load(configs[i]).Some? ==>
        OrderedMap.HasKey(models, configs[i].id)
      ensures selectedElement == old(selectedElement) && selectedModel == old(selectedModel)
      ensures elementName == old(elementName) && elementProperties == old(elementProperties)
      ensures highlighted == old(highlighted) && store.fragments == old(store.fragments)
    {
      var i := 0;
      while i < |configs|
        invariant 0 <= i <= |configs|
        invariant Valid()
        invariant LoadAll(models, configs[i..], engine) == LoadAll(old(models), configs, engine)
        invariant selectedElement == old(selectedElement) && selectedModel == old(selectedModel)
        invariant elementName == old(elementName) && elementProperties == old(elementProperties)
        invariant highlighted == old(highlighted) && store.fragments == old(store.fragments)
      {
        assert configs[i..][1..] == configs[i + 1..];
        if configs[i].visible {
          var _ := LoadConfiguredModel(configs[i], engine);
        }
        i := i + 1;
      }
      forall j | 0 <= j < |configs| && configs[j].visible && engine.load(configs[j]).Some?
        ensures OrderedMap.HasKey(models, configs[j].id)
      {
        LoadAllKeeps(old(models), configs, engine, configs[j].id);
      }
    }

    /** `loadSpecificModel`: refuses an id that is already loaded. */
    method LoadSpecificModel(config: ConfiguredModel, engine: Engine) returns (loaded: bool)
      requires Valid()
      modifies this, store
      ensures Valid()
      ensures OrderedMap.HasKey(old(models), config.id) ==> !loaded && models == old(models)
      ensures !OrderedMap.HasKey(old(models), config.id) ==>
        loaded == engine.load(config).Some? && models == LoadOne(old(models), config, engine)
      ensures selectedElement == old(selectedElement) && selectedModel == old(selectedModel)
      ensures elementName == old(elementName) && elementProperties == old(elementProperties)
      ensures highlighted == old(highlighted) && store.fragments == old(store.fragments)
    {
      if OrderedMap.HasKey(models, config.id) {
        return false;
      }
      loaded := LoadConfiguredModel(config, engine);
    }

    /** `downloadModel`: the file name and bytes to save, if the model is loaded. */
    method DownloadModel(id: string) returns (file: Option<(string, seq<bv8>)>)
      requires Valid()
      ensures file.Some? <==> OrderedMap.HasKey(models, id)
      ensures match OrderedMap.Get(models, id)
        case None => file.None?
        case Some(info) => file == Some((DownloadFileName(info), info.fragmentBytes))
    {
      OrderedMap.GetSome(models, id);
      var g := OrderedMap.Get(models, id);
      if g.None? {
        return None;
      }
      file := Some((DownloadFileName(g.value), g.value.fragmentBytes));
    }
  }
}
