/**
 * The global model store: the loaded models by id, in insertion order, the
 * fragments manager and the one selected element.
 */
module ModelStore {
  import opened Wrappers
  import opened IfcTypes
  import OrderedMap

  /** The engine's fragments manager (created once a worker is available). */
  datatype Fragments = Fragments(workerUrl: string)

  class Store {
    var fragments: Option<Fragments>
    var selectedElementId: Option<int>
    var selectedModelId: Option<string>
    var models: seq<(string, ModelInfo)>

    ghost predicate Valid()
      reads this
    {
      OrderedMap.NoDupKeys(models)
    }

    constructor ()
      ensures Valid()
      ensures fragments == None && selectedElementId == None && selectedModelId == None
      ensures models == []
    {
      fragments, selectedElementId, selectedModelId := None, None, None;
      models := [];
    }

    method AddModel(id: string, model: ModelInfo)
      requires Valid()
      modifies this
      ensures Valid()
      ensures models == OrderedMap.Set(old(models), id, model)
      ensures OrderedMap.Get(models, id) == Some(model)
      ensures forall k :: k != id ==> OrderedMap.Get(models, k) == OrderedMap.Get(old(models), k)
      ensures fragments == old(fragments)
      ensures selectedElementId == old(selectedElementId) && selectedModelId == old(selectedModelId)
    {
      OrderedMap.SetNoDup(models, id, model);
      OrderedMap.GetSetSame(models, id, model);
      forall k | k != id
        ensures OrderedMap.Get(OrderedMap.Set(models, id, model), k) == OrderedMap.Get(models, k)
      {
        OrderedMap.GetSetOther(models, id, model, k);
      }
      models := OrderedMap.Set(models, id, model);
    }

    method RemoveModel(id: string)
      requires Valid()
      modifies this
      ensures Valid()
      ensures models == OrderedMap.Delete(old(models), id)
      ensures OrderedMap.Get(models, id) == None
      ensures forall k :: k != id ==> OrderedMap.Get(models, k) == OrderedMap.Get(old(models), k)
      ensures !OrderedMap.HasKey(old(models), id) ==> models == old(models)
      ensures fragments == old(fragments)
      ensures old(selectedModelId) == Some(id) ==> selectedElementId == None && selectedModelId == None
      ensures old(selectedModelId) != Some(id) ==>
        selectedElementId == old(selectedElementId) && selectedModelId == old(selectedModelId)
    {
      OrderedMap.DeleteNoDup(models, id);
      OrderedMap.GetDeleteSame(models, id);
      forall k | k != id
        ensures OrderedMap.Get(OrderedMap.Delete(models, id), k) == OrderedMap.Get(models, k)
      {
        OrderedMap.GetDeleteOther(models, id, k);
      }
      if !OrderedMap.HasKey(models, id) {
        OrderedMap.DeleteAbsent(models, id);
      }
      models := OrderedMap.Delete(models, id);
      if selectedModelId == Some(id) {
        selectedElementId := None;
        selectedModelId := None;
      }
    }

    method GetModel(id: string) returns (r: Option<ModelInfo>)
      requires Valid()
      ensures r.Some? <==> OrderedMap.HasKey(models, id)
      ensures r.Some? ==> (id, r.value) in models
    {
      OrderedMap.GetSome(models, id);
      r := OrderedMap.Get(models, id);
      if r.Some? {
        var i :| 0 <= i < |models| && OrderedMap.Keys(models)[i] == id;
        OrderedMap.GetAt(models, i);
      }
    }

    /** The entries, in insertion order (the source hands out the live map). */
    method GetAllModels() returns (r: seq<(string, ModelInfo)>)
      requires Valid()
      ensures r == models && OrderedMap.NoDupKeys(r)
    {
      r := models;
    }

    method Reset()
      modifies this
      ensures Valid()
      ensures fragments == None && selectedElementId == None && selectedModelId == None
      ensures models == []
    {
      fragments := None;
      selectedElementId := None;
      selectedModelId := None;
      models := [];
    }
  }
}
