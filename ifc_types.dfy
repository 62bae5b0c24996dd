/**
 * The records the IFC viewer works with, and the 3D engine it calls,
 * reduced to what the viewer's own logic observes. Every engine call is a
 * total function keyed by model id; `None` or an error constructor stands
 * for a rejected promise or a thrown exception.
 */
module IfcTypes {
  import opened Wrappers
  import opened JsValues

  /** `type: "ifc" | "frag"` of a configured model. */
  datatype SourceFormat = Ifc | Frag

  /** A model descriptor from the configuration. */
  datatype ConfiguredModel = ConfiguredModel(
    id: string,
    name: string,
    description: string,
    url: string,
    format: SourceFormat,
    category: string,
    visible: bool,
    tags: seq<string>,
    author: string,
    version: string)

  /** What the viewer stores for a loaded model. */
  datatype ModelInfo = ModelInfo(
    id: string,
    name: string,
    description: string,
    format: SourceFormat,
    category: string,
    visible: bool,
    elementCount: nat,
    fragmentBytes: seq<bv8>,
    author: string,
    version: string,
    tags: seq<string>)

  /** What `model.raycast(...)` settles to. */
  datatype RayResult = Hit(localId: int) | NoHit | RayError

  /**
   * An attribute of an item-data tree, as the `"value" in attr` test sees it:
   * a falsy value, a truthy non-object (for which `in` throws), or an object
   * that may or may not have a `value` key.
   */
  datatype Field = Absent | NonObject | Record(value: Option<Json>)

  datatype RawProperty = RawProperty(name: Field, nominalValue: Field)

  /** `HasProperties` is `None` when it is not an array. */
  datatype RawPropertySet = RawPropertySet(name: Field, hasProperties: Option<seq<RawProperty>>)

  /** The item data fetched with default attributes. */
  datatype ItemData = ItemData(name: Field)

  /** The item data fetched through `IsDefinedBy`; `None` when it is falsy. */
  datatype PsetData = PsetData(isDefinedBy: Option<seq<RawPropertySet>>)

  /**
   * An element reference as `getItemsOfCategory` may return it: a bare
   * number, an object with a `getLocalId` method, a `localId` or an `id`
   * field, or anything else. `Some(None)` in a field is a property that is
   * present but null (or, for the accessor, one that returns null or throws).
   */
  datatype ElementRef =
    | Numeric(n: int)
    | Holder(getLocalId: Option<Option<int>>, localId: Option<Option<int>>, id: Option<Option<int>>)
    | Opaque

  /** The 3D engine, as the viewer and its panels call it. */
  datatype Engine = Engine(
    load: ConfiguredModel -> Option<seq<bv8>>,
    categories: string -> Option<seq<string>>,
    itemsOf: (string, string) -> Option<seq<ElementRef>>,
    raycast: string -> RayResult,
    itemData: (string, int) -> Option<ItemData>,
    psetData: (string, int) -> Option<PsetData>)
}
