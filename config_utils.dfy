/**
 * The configuration helpers: a dotted-path lookup over the configuration
 * object, feature flags read through it, and the typed accessors for the
 * resource catalogue, the team, the gallery and the main media.
 */
module ConfigUtils {
  import opened Wrappers
  import opened JsValues
  import opened Strings
  import opened Lists
  import opened Sorting
  import opened OrderedMap
  import opened Portal

  predicate IsDigit(c: char) {
    '0' <= c <= '9'
  }

  /** The number a string of decimal digits denotes. */
  function DigitsValue(s: string): nat
    requires forall i :: 0 <= i < |s| ==> IsDigit(s[i])
  {
    if s == [] then 0
    else
      assert IsDigit(s[|s| - 1]);
      DigitsValue(s[..|s| - 1]) * 10 + (s[|s| - 1] as int - '0' as int)
  }

  /** The array index a property key names: "0" or decimal digits without a leading zero. */
  function ArrayIndex(key: string): (r: Option<nat>)
    ensures r.Some? ==> key != "" && forall i :: 0 <= i < |key| ==> IsDigit(key[i])
  {
    if key != "" && (forall i :: 0 <= i < |key| ==> IsDigit(key[i])) && (key == "0" || key[0] != '0')
    then Some(DigitsValue(key))
    else None
  }

  /**
   * `v && typeof v === "object" && key in v`, on own properties: an
   * object's keys, or an array's indices and `length`.
   */
  predicate HasProperty(v: Json, key: string) {
    match v
    case JObj(fields) => HasKey(fields, key)
    case JArr(items) => key == "length" || (ArrayIndex(key).Some? && ArrayIndex(key).value < |items|)
    case _ => false
  }

  /** `v[key]` for a property `HasProperty` found. */
  function Property(v: Json, key: string): Json
    requires HasProperty(v, key)
  {
    match v
    case JObj(fields) => GetSome(fields, key); Get(fields, key).value
    case JArr(items) => if key == "length" then JNum(|items| as real) else items[ArrayIndex(key).value]
  }

  /** The walk along `keys`: `None` as soon as a step finds no such property. */
  function Resolve(v: Json, keys: seq<string>): Option<Json>
    decreases |keys|
  {
    if keys == [] then Some(v)
    else if HasProperty(v, keys[0]) then Resolve(Property(v, keys[0]), keys[1..])
    else None
  }

  /** Walking `a + b` is walking `a` and then, from where it ends, `b`. */
  lemma {:induction false} ResolveAppend(v: Json, a: seq<string>, b: seq<string>)
    ensures Resolve(v, a + b) == match Resolve(v, a) case None => None case Some(w) => Resolve(w, b)
    decreases |a|
  {
    if a == [] {
      assert a + b == b;
    } else {
      assert (a + b)[0] == a[0] && (a + b)[1..] == a[1..] + b;
      if HasProperty(v, a[0]) {
        ResolveAppend(Property(v, a[0]), a[1..], b);
      }
    }
  }

  /**
   * `getConfigValue(path, default)` as a value: the default when the walk
   * fails or ends on `undefined`. It is `undefined` only if the default is.
   */
  function ConfigValue(root: Json, path: string, default: Json): (r: Json)
    ensures r == JUndefined ==> default == JUndefined
  {
    match Resolve(root, Split(path, '.'))
    case None => default
    case Some(v) => if v != JUndefined then v else default
  }

  /** `getConfigValue`: the loop over the path's keys, returning the default early. */
  method GetConfigValue(root: Json, path: string, default: Json) returns (r: Json)
    ensures r == ConfigValue(root, path, default)
  {
    var keys := Split(path, '.');
    var result := root;
    var i := 0;
    while i < |keys|
      invariant 0 <= i <= |keys|
      invariant Resolve(root, keys) == Resolve(result, keys[i..])
    {
      assert keys[i..][0] == keys[i] && keys[i..][1..] == keys[i + 1..];
      if HasProperty(result, keys[i]) {
        result := Property(result, keys[i]);
      } else {
        return default;
      }
      i := i + 1;
    }
    assert keys[i..] == [];
    r := if result != JUndefined then result else default;
  }

  /** A key without dots is one lookup step. */
  lemma ConfigValueKey(root: Json, key: string, default: Json)
    requires '.' !in key
    ensures ConfigValue(root, key, default) ==
      if HasProperty(root, key) && Property(root, key) != JUndefined then Property(root, key) else default
  {
    SplitWithoutSeparator(key, '.');
    assert [key][0] == key && [key][1..] == [];
    if HasProperty(root, key) {
      assert Resolve(root, [key]) == Resolve(Property(root, key), []);
    }
  }

  /** A dotted path takes its first key, then looks the rest up from there. */
  lemma ConfigValuePath(root: Json, key: string, rest: string, default: Json)
    requires '.' !in key
    ensures ConfigValue(root, key + "." + rest, default) ==
      if HasProperty(root, key) then ConfigValue(Property(root, key), rest, default) else default
  {
    SplitFirst(key, '.', rest);
    var keys := [key] + Split(rest, '.');
    assert keys[0] == key && keys[1..] == Split(rest, '.');
  }

  /** `isFeatureEnabled`: the truthiness of `features.<name>`, false by default. */
  predicate IsFeatureEnabled(root: Json, feature: string) {
    Truthy(ConfigValue(root, "features." + feature, JBool(false)))
  }

  /** A feature (without dots in its name) is on exactly when its flag exists and is truthy. */
  lemma FeatureEnabledIff(root: Json, feature: string)
    requires '.' !in feature
    ensures IsFeatureEnabled(root, feature) <==>
      && HasProperty(root, "features")
      && HasProperty(Property(root, "features"), feature)
      && Truthy(Property(Property(root, "features"), feature))
  {
    assert "features." + feature == "features" + "." + feature;
    ConfigValuePath(root, "features", feature, JBool(false));
    if HasProperty(root, "features") {
      ConfigValueKey(Property(root, "features"), feature, JBool(false));
    }
  }

  /** `getResourcesByCategory`: the section's resources whose category is `category`. */
  function ResourcesByCategory(c: Catalog, k: Kind, category: string): seq<Resource> {
    Filter(Section(c, k), (r: Resource) => r.category == Some(category))
  }

  lemma ResourcesByCategoryIff(c: Catalog, k: Kind, category: string, r: Resource)
    ensures r in ResourcesByCategory(c, k, category) <==> r in Section(c, k) && r.category == Some(category)
  {
    FilterMembers(Section(c, k), (r: Resource) => r.category == Some(category), r);
  }

  /** `getResourcesByTag`: the section's resources that have tags including `tag`. */
  function ResourcesByTag(c: Catalog, k: Kind, tag: string): seq<Resource> {
    Filter(Section(c, k), (r: Resource) => r.tags.Some? && tag in r.tags.value)
  }

  lemma ResourcesByTagIff(c: Catalog, k: Kind, tag: string, r: Resource)
    ensures r in ResourcesByTag(c, k, tag) <==> r in Section(c, k) && r.tags.Some? && tag in r.tags.value
  {
    FilterMembers(Section(c, k), (r: Resource) => r.tags.Some? && tag in r.tags.value, r);
  }

  /** `getResourceCount`: `section?.length || 0`. */
  function ResourceCount(c: Catalog, k: Kind): nat {
    match SectionOf(c, k)
    case None => 0
    case Some(rs) => |rs|
  }

  /** The count is the length of what `getResources` returns, and 0 for a missing section. */
  lemma ResourceCountIsLength(c: Catalog, k: Kind)
    ensures ResourceCount(c, k) == |Section(c, k)|
    ensures SectionOf(c, k).None? ==> ResourceCount(c, k) == 0 && Section(c, k) == []
  {
  }

  datatype TeamMember = TeamMember(id: string, name: string, order: Option<int>)

  /** `member.order || 999`: a missing or zero order counts as 999. */
  function OrderKey(m: TeamMember): (key: int)
    ensures m.order.Some? && m.order.value != 0 ==> key == m.order.value
    ensures m.order.None? || m.order.value == 0 ==> key == 999
  {
    if m.order.None? || m.order.value == 0 then 999 else m.order.value
  }

  /** `(a.order || 999) - (b.order || 999) <= 0`. */
  predicate ByOrder(a: TeamMember, b: TeamMember) {
    OrderKey(a) <= OrderKey(b)
  }

  /** `getOrderedTeam`: a sorted copy of the team (the stored list is not touched). */
  function OrderedTeam(team: Option<seq<TeamMember>>): seq<TeamMember> {
    SortBy(team.GetOr([]), ByOrder)
  }

  /** The ordered team is the same members, by non-decreasing order key. */
  lemma OrderedTeamSpec(team: Option<seq<TeamMember>>)
    ensures multiset(OrderedTeam(team)) == multiset(team.GetOr([]))
    ensures forall i, j :: 0 <= i < j < |OrderedTeam(team)| ==>
      OrderKey(OrderedTeam(team)[i]) <= OrderKey(OrderedTeam(team)[j])
  {
    SortByPermutes(team.GetOr([]), ByOrder);
    SortBySorted(team.GetOr([]), ByOrder);
  }

  /** Members with the same order key keep their configured order. */
  lemma OrderedTeamStable(team: Option<seq<TeamMember>>, key: int)
    ensures Filter(OrderedTeam(team), (m: TeamMember) => OrderKey(m) == key)
         == Filter(team.GetOr([]), (m: TeamMember) => OrderKey(m) == key)
  {
    SortByStable(team.GetOr([]), ByOrder, (m: TeamMember) => OrderKey(m) == key);
  }

  datatype GalleryImage = GalleryImage(src: string, featured: bool)

  /** `getGalleryImages(onlyFeatured)`. */
  function GalleryImages(images: Option<seq<GalleryImage>>, onlyFeatured: bool): seq<GalleryImage> {
    var all := images.GetOr([]);
    if onlyFeatured then Filter(all, (img: GalleryImage) => img.featured) else all
  }

  /** Only the featured images when asked for, otherwise all of them. */
  lemma GalleryImagesSpec(images: Option<seq<GalleryImage>>, onlyFeatured: bool, img: GalleryImage)
    ensures img in GalleryImages(images, onlyFeatured) <==>
      img in images.GetOr([]) && (onlyFeatured ==> img.featured)
    ensures !onlyFeatured ==> GalleryImages(images, onlyFeatured) == images.GetOr([])
  {
    if onlyFeatured {
      FilterMembers(images.GetOr([]), (img: GalleryImage) => img.featured, img);
    }
  }

  /** `getMainMediaType`, given `general.mainMedia.type`. */
  function MainMediaType(mediaType: Option<string>): (r: string)
    ensures r == "video" || r == "image"
    ensures r == "video" <==> mediaType == Some("video")
  {
    if mediaType == Some("video") then "video" else "image"
  }
}
