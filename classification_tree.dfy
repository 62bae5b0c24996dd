/**
 * The classification panel of the IFC viewer: one group per loaded model,
 * holding one item per element category with the local ids of its
 * elements, and the visibility switches that act on those ids.
 */
module ClassificationTree {
  import opened Wrappers
  import opened IfcTypes
  import OrderedMap
  import Strings
  import Sorting

  /** `getElementLocalId`: number, then `getLocalId()`, then `localId`, then `id`, else null. */
  function ResolveLocalId(r: ElementRef): Option<int> {
    match r
    case Numeric(n) => Some(n)
    case Holder(accessor, localId, id) =>
      if accessor.Some? then accessor.value
      else if localId.Some? then localId.value
      else if id.Some? then id.value
      else None
    case Opaque => None
  }

  /** The fallback order: each source is consulted only when all earlier ones are missing. */
  lemma ResolveOrder(accessor: Option<Option<int>>, localId: Option<Option<int>>, id: Option<Option<int>>)
    ensures accessor.Some? ==> ResolveLocalId(Holder(accessor, localId, id)) == accessor.value
    ensures accessor.None? && localId.Some? ==> ResolveLocalId(Holder(accessor, localId, id)) == localId.value
    ensures accessor.None? && localId.None? ==> ResolveLocalId(Holder(accessor, localId, id)) == id.GetOr(None)
  {
  }

  /** One category of one model. */
  datatype Item = Item(name: string, count: nat, visible: bool, ids: seq<int>, modelId: string)

  /** The categories of one model; `caption` is the source's `label`. */
  datatype Group = Group(name: string, caption: string, items: seq<Item>, expanded: bool)

  /** The `localIds` collected from a category's element references, nulls dropped. */
  function ResolvedIds(refs: seq<ElementRef>): seq<int>
    decreases |refs|
  {
    if refs == [] then []
    else
      var prefix := ResolvedIds(refs[..|refs| - 1]);
      match ResolveLocalId(refs[|refs| - 1])
      case None => prefix
      case Some(x) => prefix + [x]
  }

  /** An id is collected exactly when some reference resolves to it. */
  lemma {:induction false} ResolvedIdsMembers(refs: seq<ElementRef>, x: int)
    ensures x in ResolvedIds(refs) <==> exists i :: 0 <= i < |refs| && ResolveLocalId(refs[i]) == Some(x)
    ensures |ResolvedIds(refs)| <= |refs|
    decreases |refs|
  {
    if refs != [] {
      var init := refs[..|refs| - 1];
      ResolvedIdsMembers(init, x);
      if x in ResolvedIds(init) {
        var i :| 0 <= i < |init| && ResolveLocalId(init[i]) == Some(x);
        assert refs[i] == init[i];
      }
      if exists i :: 0 <= i < |refs| && ResolveLocalId(refs[i]) == Some(x) {
        var i :| 0 <= i < |refs| && ResolveLocalId(refs[i]) == Some(x);
        if i < |init| {
          assert init[i] == refs[i];
        }
      }
    }
  }

  function LabelOf(modelId: string, info: ModelInfo): string {
    if info.name != "" then info.name else modelId
  }

  function GroupName(modelId: string): string {
    "model_" + modelId
  }

  /** The item of one category: `None` when the category throws or yields no id. */
  function CategoryItem(engine: Engine, modelId: string, category: string): Option<Item> {
    match engine.itemsOf(modelId, category)
    case None => None
    case Some(refs) =>
      var ids := ResolvedIds(refs);
      if |ids| > 0 then Some(Item(category, |ids|, true, ids, modelId)) else None
  }

  /** The items pushed for `categories`, in category order, before sorting. */
  function CategoryItems(engine: Engine, modelId: string, categories: seq<string>): seq<Item>
    decreases |categories|
  {
    if categories == [] then []
    else
      var prefix := CategoryItems(engine, modelId, categories[..|categories| - 1]);
      match CategoryItem(engine, modelId, categories[|categories| - 1])
      case None => prefix
      case Some(item) => prefix + [item]
  }

  /** `a.name.localeCompare(b.name) <= 0`. */
  function ByName(a: Item, b: Item): bool {
    Strings.LexLe(a.name, b.name)
  }

  /** The group of one model: `None` when `getCategories` throws or no category yields an item. */
  function GroupOf(engine: Engine, modelId: string, info: ModelInfo): Option<Group> {
    match engine.categories(modelId)
    case None => None
    case Some(cats) =>
      var items := Sorting.SortBy(CategoryItems(engine, modelId, cats), ByName);
      if |items| > 0 then Some(Group(GroupName(modelId), LabelOf(modelId, info), items, true)) else None
  }

  /** The groups built by `loadClassifications`, in model order. */
  function GroupsOf(engine: Engine, models: seq<(string, ModelInfo)>): seq<Group>
    decreases |models|
  {
    if models == [] then []
    else
      var prefix := GroupsOf(engine, models[..|models| - 1]);
      var (id, info) := models[|models| - 1];
      match GroupOf(engine, id, info)
      case None => prefix
      case Some(g) => prefix + [g]
  }

  /** An item as `loadClassifications` creates it. */
  predicate FreshItem(item: Item, modelId: string) {
    item.count == |item.ids| && item.count > 0 && item.visible && item.modelId == modelId
  }

  /** Every created item is visible, belongs to its model and counts its non-empty id list. */
  lemma {:induction false} CategoryItemsFresh(engine: Engine, modelId: string, categories: seq<string>)
    ensures forall item :: item in CategoryItems(engine, modelId, categories) ==>
      FreshItem(item, modelId) && item.name in categories
      && engine.itemsOf(modelId, item.name).Some? && item.ids == ResolvedIds(engine.itemsOf(modelId, item.name).value)
    decreases |categories|
  {
    if categories != [] {
      CategoryItemsFresh(engine, modelId, categories[..|categories| - 1]);
    }
  }

  /** A category that throws or yields nothing does not affect the others: items are collected category by category. */
  lemma {:induction false} CategoryItemsAppend(engine: Engine, modelId: string, a: seq<string>, b: seq<string>)
    ensures CategoryItems(engine, modelId, a + b) == CategoryItems(engine, modelId, a) + CategoryItems(engine, modelId, b)
    decreases |b|
  {
    if b == [] {
      assert a + b == a;
    } else {
      var b' := b[..|b| - 1];
      assert (a + b)[..|a + b| - 1] == a + b';
      assert (a + b)[|a + b| - 1] == b[|b| - 1];
      CategoryItemsAppend(engine, modelId, a, b');
      var item := CategoryItem(engine, modelId, b[|b| - 1]);
      if item.Some? {
        var x, y := CategoryItems(engine, modelId, a), CategoryItems(engine, modelId, b');
        assert x + y + [item.value] == x + (y + [item.value]);
      }
    }
  }

  lemma ByNameOrders()
    ensures Sorting.Total(ByName) && Sorting.Transitive(ByName)
  {
    forall a: Item, b: Item ensures ByName(a, b) || ByName(b, a) {
      Strings.LexLeTotal(a.name, b.name);
    }
    forall a: Item, b: Item, c: Item | ByName(a, b) && ByName(b, c) ensures ByName(a, c) {
      Strings.LexLeTransitive(a.name, b.name, c.name);
    }
  }

  /** A group's items are the model's category items, sorted by name, and all of them fresh. */
  lemma GroupOfSpec(engine: Engine, modelId: string, info: ModelInfo)
    ensures GroupOf(engine, modelId, info).Some? ==>
      var g := GroupOf(engine, modelId, info).value;
      && g.name == GroupName(modelId) && g.caption == LabelOf(modelId, info) && g.expanded
      && |g.items| > 0
      && Sorting.SortedBy(g.items, ByName)
      && multiset(g.items) == multiset(CategoryItems(engine, modelId, engine.categories(modelId).value))
      && forall item :: item in g.items ==> FreshItem(item, modelId)
    ensures GroupOf(engine, modelId, info).None? <==>
      engine.categories(modelId).None? || CategoryItems(engine, modelId, engine.categories(modelId).value) == []
  {
    var cats := engine.categories(modelId);
    if cats.Some? {
      var raw := CategoryItems(engine, modelId, cats.value);
      ByNameOrders();
      Sorting.SortBySorted(raw, ByName);
      Sorting.SortByPermutes(raw, ByName);
      Sorting.SortByLength(raw, ByName);
      CategoryItemsFresh(engine, modelId, cats.value);
      var sorted := Sorting.SortBy(raw, ByName);
      forall item | item in sorted ensures FreshItem(item, modelId) {
        assert item in multiset(sorted);
      }
    }
  }

  /** Groups keep model order, are named after their model, and are never empty. */
  lemma {:induction false} GroupsOfSpec(engine: Engine, models: seq<(string, ModelInfo)>)
    ensures |GroupsOf(engine, models)| <= |models|
    ensures forall g :: g in GroupsOf(engine, models) ==>
      |g.items| > 0 && exists i :: 0 <= i < |models| && GroupOf(engine, models[i].0, models[i].1) == Some(g)
    decreases |models|
  {
    if models != [] {
      var init := models[..|models| - 1];
      GroupsOfSpec(engine, init);
      var (id, info) := models[|models| - 1];
      GroupOfSpec(engine, id, info);
      forall g | g in GroupsOf(engine, models)
        ensures |g.items| > 0 && exists i :: 0 <= i < |models| && GroupOf(engine, models[i].0, models[i].1) == Some(g)
      {
        if g in GroupsOf(engine, init) {
          var i :| 0 <= i < |init| && GroupOf(engine, init[i].0, init[i].1) == Some(g);
          assert models[i] == init[i];
        } else {
          assert GroupOf(engine, models[|models| - 1].0, models[|models| - 1].1) == Some(g);
        }
      }
    }
  }

  /** A failing model is skipped without affecting the others: groups are collected model by model. */
  lemma {:induction false} GroupsOfAppend(engine: Engine, a: seq<(string, ModelInfo)>, b: seq<(string, ModelInfo)>)
    ensures GroupsOf(engine, a + b) == GroupsOf(engine, a) + GroupsOf(engine, b)
    decreases |b|
  {
    if b == [] {
      assert a + b == a;
    } else {
      var b' := b[..|b| - 1];
      assert (a + b)[..|a + b| - 1] == a + b';
      assert (a + b)[|a + b| - 1] == b[|b| - 1];
      GroupsOfAppend(engine, a, b');
      var g := GroupOf(engine, b[|b| - 1].0, b[|b| - 1].1);
      if g.Some? {
        var x, y := GroupsOf(engine, a), GroupsOf(engine, b');
        assert x + y + [g.value] == x + (y + [g.value]);
      }
    }
  }

  /** `classifications` after `toggleItemVisibility`: one item's flag flipped. */
  function FlipItem(groups: seq<Group>, g: nat, i: nat): seq<Group>
    requires g < |groups| && i < |groups[g].items|
  {
    var group := groups[g];
    var item := group.items[i];
    groups[g := group.(items := group.items[i := item.(visible := !item.visible)])]
  }

  /** Flipping touches only the chosen item's `visible` flag, and flipping twice restores the tree. */
  lemma FlipItemSpec(groups: seq<Group>, g: nat, i: nat)
    requires g < |groups| && i < |groups[g].items|
    ensures |FlipItem(groups, g, i)| == |groups|
    ensures forall h :: 0 <= h < |groups| && h != g ==> FlipItem(groups, g, i)[h] == groups[h]
    ensures |FlipItem(groups, g, i)[g].items| == |groups[g].items|
    ensures forall j :: 0 <= j < |groups[g].items| && j != i ==> FlipItem(groups, g, i)[g].items[j] == groups[g].items[j]
    ensures FlipItem(groups, g, i)[g].items[i].visible == !groups[g].items[i].visible
    ensures FlipItem(groups, g, i)[g].items[i].ids == groups[g].items[i].ids
    ensures FlipItem(FlipItem(groups, g, i), g, i) == groups
  {
    var once := FlipItem(groups, g, i);
    assert once[g].items[i].(visible := !once[g].items[i].visible) == groups[g].items[i];
    assert once[g].items[i := groups[g].items[i]] == groups[g].items;
    assert once[g].(items := groups[g].items) == groups[g];
  }

  /** Every item made visible, nothing else changed. */
  function AllVisible(groups: seq<Group>): (r: seq<Group>)
    ensures |r| == |groups|
    ensures forall h :: 0 <= h < |groups| ==>
      r[h].name == groups[h].name && r[h].caption == groups[h].caption && r[h].expanded == groups[h].expanded
      && |r[h].items| == |groups[h].items|
      && forall j :: 0 <= j < |groups[h].items| ==> r[h].items[j] == groups[h].items[j].(visible := true)
  {
    seq(|groups|, h requires 0 <= h < |groups| =>
      groups[h].(items := seq(|groups[h].items|, j requires 0 <= j < |groups[h].items| => groups[h].items[j].(visible := true))))
  }

  /** After `showAll` every item is visible, and a second `showAll` changes nothing. */
  lemma AllVisibleSpec(groups: seq<Group>)
    ensures forall h, j :: 0 <= h < |groups| && 0 <= j < |AllVisible(groups)[h].items| ==> AllVisible(groups)[h].items[j].visible
    ensures AllVisible(AllVisible(groups)) == AllVisible(groups)
  {
    var once := AllVisible(groups);
    var twice := AllVisible(once);
    forall h | 0 <= h < |groups| ensures twice[h] == once[h] {
      assert twice[h].items == once[h].items;
    }
  }

  /** The first group with the given name (`classifications.find`). */
  function FindGroup(groups: seq<Group>, name: string): Option<Group> {
    if groups == [] then None
    else if groups[0].name == name then Some(groups[0])
    else FindGroup(groups[1..], name)
  }

  /** All the ids of a group's items, in item order. */
  function AllIds(items: seq<Item>): seq<int>
    decreases |items|
  {
    if items == [] then [] else AllIds(items[..|items| - 1]) + items[|items| - 1].ids
  }

  /** Every id of every item is in the concatenation, and nothing else. */
  lemma {:induction false} AllIdsMembers(items: seq<Item>, x: int)
    ensures x in AllIds(items) <==> exists j :: 0 <= j < |items| && x in items[j].ids
    decreases |items|
  {
    if items != [] {
      var init := items[..|items| - 1];
      AllIdsMembers(init, x);
      if exists j :: 0 <= j < |init| && x in init[j].ids {
        var j :| 0 <= j < |init| && x in init[j].ids;
        assert items[j] == init[j];
      }
      if exists j :: 0 <= j < |items| && x in items[j].ids {
        var j :| 0 <= j < |items| && x in items[j].ids;
        if j < |init| {
          assert init[j] == items[j];
        }
      }
    }
  }

  /** A call `model.setVisible(ids, visible)` on the model with the given id. */
  datatype VisibilityCall = VisibilityCall(modelId: string, ids: seq<int>, visible: bool)

  /** The `setVisible(allIds, true)` calls `showAll` makes, one per model with a non-empty group. */
  function ShowAllCalls(models: seq<(string, ModelInfo)>, groups: seq<Group>): seq<VisibilityCall>
    decreases |models|
  {
    if models == [] then []
    else
      var prefix := ShowAllCalls(models[..|models| - 1], groups);
      var id := models[|models| - 1].0;
      var group := FindGroup(groups, GroupName(id));
      if group.Some? && |AllIds(group.value.items)| > 0 then prefix + [VisibilityCall(id, AllIds(group.value.items), true)]
      else prefix
  }

  /** The ids `showAll` shows on a model: those of its group, if it has one. */
  function ShownIds(groups: seq<Group>, id: string): seq<int> {
    var group := FindGroup(groups, GroupName(id));
    if group.Some? then AllIds(group.value.items) else []
  }

  /**
   * Each call of `showAll` shows a non-empty id list on a model that has a
   * group, and every model whose group has ids gets its call.
   */
  lemma {:induction false} ShowAllCallsSpec(models: seq<(string, ModelInfo)>, groups: seq<Group>)
    ensures |ShowAllCalls(models, groups)| <= |models|
    ensures forall c :: c in ShowAllCalls(models, groups) ==>
      c.visible && |c.ids| > 0 && FindGroup(groups, GroupName(c.modelId)).Some?
      && c.ids == AllIds(FindGroup(groups, GroupName(c.modelId)).value.items)
      && exists i :: 0 <= i < |models| && models[i].0 == c.modelId
    ensures forall i :: 0 <= i < |models| && |ShownIds(groups, models[i].0)| > 0 ==>
      VisibilityCall(models[i].0, ShownIds(groups, models[i].0), true) in ShowAllCalls(models, groups)
    decreases |models|
  {
    if models != [] {
      var init := models[..|models| - 1];
      ShowAllCallsSpec(init, groups);
      ShowAllCallsComplete(models, groups);
      forall c | c in ShowAllCalls(models, groups)
        ensures exists i :: 0 <= i < |models| && models[i].0 == c.modelId
      {
        if c in ShowAllCalls(init, groups) {
          var i :| 0 <= i < |init| && init[i].0 == c.modelId;
          assert models[i] == init[i];
        } else {
          assert models[|models| - 1].0 == c.modelId;
        }
      }
    }
  }

  /** Every model whose group has ids gets its call. */
  lemma {:induction false} ShowAllCallsComplete(models: seq<(string, ModelInfo)>, groups: seq<Group>)
    ensures forall i :: 0 <= i < |models| && |ShownIds(groups, models[i].0)| > 0 ==>
      VisibilityCall(models[i].0, ShownIds(groups, models[i].0), true) in ShowAllCalls(models, groups)
    decreases |models|
  {
    if models != [] {
      var init := models[..|models| - 1];
      ShowAllCallsComplete(init, groups);
      forall i | 0 <= i < |models| && |ShownIds(groups, models[i].0)| > 0
        ensures VisibilityCall(models[i].0, ShownIds(groups, models[i].0), true) in ShowAllCalls(models, groups)
      {
        if i < |init| {
          assert init[i] == models[i];
        }
      }
    }
  }

  /** `showAll` visits the models in map order: the calls for `a + b` are those for `a`, then those for `b`. */
  lemma {:induction false} ShowAllCallsAppend(a: seq<(string, ModelInfo)>, b: seq<(string, ModelInfo)>, groups: seq<Group>)
    ensures ShowAllCalls(a + b, groups) == ShowAllCalls(a, groups) + ShowAllCalls(b, groups)
    decreases |b|
  {
    if b == [] {
      assert a + b == a;
    } else {
      var b' := b[..|b| - 1];
      assert (a + b)[..|a + b| - 1] == a + b';
      assert (a + b)[|a + b| - 1] == b[|b| - 1];
      ShowAllCallsAppend(a, b', groups);
      var x, y := ShowAllCalls(a, groups), ShowAllCalls(b', groups);
      var id := b[|b| - 1].0;
      var group := FindGroup(groups, GroupName(id));
      if group.Some? && |AllIds(group.value.items)| > 0 {
        var call := VisibilityCall(id, AllIds(group.value.items), true);
        assert x + y + [call] == x + (y + [call]);
      }
    }
  }

  /** A single model gets exactly one call when its group has ids, and none otherwise. */
  lemma ShowAllCallsOne(m: (string, ModelInfo), groups: seq<Group>)
    ensures ShowAllCalls([m], groups) ==
      if |ShownIds(groups, m.0)| > 0 then [VisibilityCall(m.0, ShownIds(groups, m.0), true)] else []
  {
    assert [m][..0] == [];
  }

  class Tree {
    var classifications: seq<Group>
    /** The `setVisible` calls made on the engine so far, oldest first. */
    var calls: seq<VisibilityCall>
    /** The `fragments.update(true)` calls made so far. */
    var updates: nat

    constructor ()
      ensures classifications == [] && calls == [] && updates == 0
    {
      classifications := [];
      calls := [];
      updates := 0;
    }

    /** `loadClassifications`: the nested loops over models, categories and element references. */
    method LoadClassifications(engine: Engine, models: seq<(string, ModelInfo)>)
      modifies this
      ensures classifications == GroupsOf(engine, models)
      ensures calls == old(calls) && updates == old(updates)
    {
      var groups: seq<Group> := [];
      var m := 0;
      while m < |models|
        invariant 0 <= m <= |models|
        invariant groups == GroupsOf(engine, models[..m])
      {
        var (modelId, info) := models[m];
        assert models[..m + 1][..m] == models[..m];
        assert models[..m + 1][m] == models[m];
        var cats := engine.categories(modelId);
        if cats.Some? {
          var categories := cats.value;
          var items: seq<Item> := [];
          var c := 0;
          while c < |categories|
            invariant 0 <= c <= |categories|
            invariant items == CategoryItems(engine, modelId, categories[..c])
          {
            var category := categories[c];
            assert categories[..c + 1][..c] == categories[..c];
            assert categories[..c + 1][c] == category;
            var refs := engine.itemsOf(modelId, category);
            if refs.Some? {
              var localIds: seq<int> := [];
              var k := 0;
              while k < |refs.value|
                invariant 0 <= k <= |refs.value|
                invariant localIds == ResolvedIds(refs.value[..k])
              {
                assert refs.value[..k + 1][..k] == refs.value[..k];
                assert refs.value[..k + 1][k] == refs.value[k];
                var localId := ResolveLocalId(refs.value[k]);
                if localId.Some? {
                  localIds := localIds + [localId.value];
                }
                k := k + 1;
              }
              assert refs.value[..k] == refs.value;
              if |localIds| > 0 {
                items := items + [Item(category, |localIds|, true, localIds, modelId)];
              }
            }
            c := c + 1;
          }
          assert categories[..c] == categories;
          items := Sorting.SortBy(items, ByName);
          if |items| > 0 {
            groups := groups + [Group(GroupName(modelId), LabelOf(modelId, info), items, true)];
          }
        }
        m := m + 1;
      }
      assert models[..m] == models;
      classifications := groups;
    }

    /** `toggleItemVisibility`: flips one item and applies the new value to exactly its ids. */
    method ToggleItemVisibility(g: int, i: int, models: seq<(string, ModelInfo)>, fragmentsReady: bool)
      modifies this
      ensures
        if fragmentsReady && 0 <= g < |old(classifications)| && 0 <= i < |old(classifications)[g].items|
           && |old(classifications)[g].items[i].ids| > 0
           && OrderedMap.HasKey(models, old(classifications)[g].items[i].modelId)
        then
          var item := old(classifications)[g].items[i];
          && classifications == FlipItem(old(classifications), g, i)
          && calls == old(calls) + [VisibilityCall(item.modelId, item.ids, !item.visible)]
          && updates == old(updates) + 1
        else
          classifications == old(classifications) && calls == old(calls) && updates == old(updates)
    {
      if !fragmentsReady || !(0 <= g < |classifications|) || !(0 <= i < |classifications[g].items|) {
        return;
      }
      var item := classifications[g].items[i];
      if |item.ids| == 0 {
        return;
      }
      if !OrderedMap.HasKey(models, item.modelId) {
        return;
      }
      var newVisibility := !item.visible;
      calls := calls + [VisibilityCall(item.modelId, item.ids, newVisibility)];
      updates := updates + 1;
      classifications := FlipItem(classifications, g, i);
    }

    /** Expands or collapses one group; an index out of range changes nothing. */
    method ToggleGroupExpansion(g: int)
      modifies this
      ensures 0 <= g < |old(classifications)| ==>
        classifications == old(classifications)[g := old(classifications)[g].(expanded := !old(classifications)[g].expanded)]
      ensures !(0 <= g < |old(classifications)|) ==> classifications == old(classifications)
      ensures calls == old(calls) && updates == old(updates)
    {
      if 0 <= g < |classifications| {
        classifications := classifications[g := classifications[g].(expanded := !classifications[g].expanded)];
      }
    }

    /** `showAll`: one `setVisible(allIds, true)` per model, one update, then every item visible. */
    method ShowAll(models: seq<(string, ModelInfo)>, fragmentsReady: bool)
      modifies this
      ensures !fragmentsReady ==> classifications == old(classifications) && calls == old(calls) && updates == old(updates)
      ensures fragmentsReady ==>
        && calls == old(calls) + ShowAllCalls(models, old(classifications))
        && updates == old(updates) + 1
        && classifications == AllVisible(old(classifications))
    {
      if !fragmentsReady {
        return;
      }
      var m := 0;
      while m < |models|
        invariant 0 <= m <= |models|
        invariant classifications == old(classifications) && updates == old(updates)
        invariant calls == old(calls) + ShowAllCalls(models[..m], classifications)
      {
        var modelId := models[m].0;
        assert models[..m + 1][..m] == models[..m];
        assert models[..m + 1][m] == models[m];
        var group := FindGroup(classifications, GroupName(modelId));
        if group.Some? {
          var allIds: seq<int> := [];
          var j := 0;
          while j < |group.value.items|
            invariant 0 <= j <= |group.value.items|
            invariant allIds == AllIds(group.value.items[..j])
          {
            assert group.value.items[..j + 1][..j] == group.value.items[..j];
            allIds := allIds + group.value.items[j].ids;
            j := j + 1;
          }
          assert group.value.items[..j] == group.value.items;
          if |allIds| > 0 {
            calls := calls + [VisibilityCall(modelId, allIds, true)];
          }
        }
        m := m + 1;
      }
      assert models[..m] == models;
      updates := updates + 1;
      classifications := AllVisible(classifications);
    }
  }
}
