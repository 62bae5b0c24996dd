/**
 * The search results page: the hits of a query grouped into per-type
 * buckets (in first-occurrence order, as `Object.entries` lists string
 * keys), the heading of each type, and the link each hit opens.
 */
module SearchResults {
  import opened Wrappers
  import opened Lists
  import opened OrderedMap
  import opened Portal
  import opened SearchUtils

  /** The per-type buckets: keys in insertion order, each with its hits. */
  type Groups = seq<(string, seq<SearchResult>)>

  /** A hit's `type` field. */
  function TypeOf(r: SearchResult): string {
    KindName(r.kind)
  }

  /** One step of the reduce: open the hit's bucket if needed, then push the hit. */
  function Push(groups: Groups, r: SearchResult): Groups {
    Set(groups, TypeOf(r), Get(groups, TypeOf(r)).GetOr([]) + [r])
  }

  /** The accumulator after the reduce has seen `results`. */
  function Grouped(results: seq<SearchResult>): Groups
    decreases |results|
  {
    if results == [] then [] else Push(Grouped(results[..|results| - 1]), results[|results| - 1])
  }

  /** The `groupedResults` reduce, pushing into the accumulator's buckets. */
  method GroupByType(results: seq<SearchResult>) returns (groups: Groups)
    ensures groups == Grouped(results)
  {
    groups := [];
    var i := 0;
    while i < |results|
      invariant 0 <= i <= |results|
      invariant groups == Grouped(results[..i])
    {
      var r := results[i];
      var t := TypeOf(r);
      ghost var before := groups;
      if Get(groups, t).None? {
        groups := Set(groups, t, []);
        GetSetSame(before, t, []);
        SetSet(before, t, [], [r]);
        assert [] + [r] == [r];
      } else {
        GetSome(groups, t);
      }
      groups := Set(groups, t, Get(groups, t).value + [r]);
      assert results[..i + 1][..i] == results[..i];
      i := i + 1;
    }
    assert results[..i] == results;
  }

  /** The hits of one type, in the order the search returned them. */
  function OfType(results: seq<SearchResult>, t: string): seq<SearchResult> {
    Filter(results, (r: SearchResult) => TypeOf(r) == t)
  }

  /** Each bucket holds exactly the hits of its type, in their original order. */
  lemma {:induction false} GroupedBucket(results: seq<SearchResult>, t: string)
    ensures Get(Grouped(results), t) == if OfType(results, t) == [] then None else Some(OfType(results, t))
    decreases |results|
  {
    if results != [] {
      var rs, x := results[..|results| - 1], results[|results| - 1];
      GroupedBucket(rs, t);
      assert results == rs + [x];
      FilterAppend(rs, [x], (r: SearchResult) => TypeOf(r) == t);
      assert [x][1..] == [];
      assert OfType(results, t) == OfType(rs, t) + OfType([x], t);
      var g := Grouped(rs);
      assert Grouped(results) == Push(g, x);
      if TypeOf(x) == t {
        GetSetSame(g, t, Get(g, t).GetOr([]) + [x]);
        assert OfType([x], t) == [x];
        assert Get(g, t).GetOr([]) == OfType(rs, t);
        assert Get(Grouped(results), t) == Some(OfType(rs, t) + [x]);
      } else {
        GetSetOther(g, TypeOf(x), Get(g, TypeOf(x)).GetOr([]) + [x], t);
        assert OfType([x], t) == [];
        assert OfType(results, t) == OfType(rs, t) + [];
        assert OfType(results, t) == OfType(rs, t);
        assert Get(Grouped(results), t) == Get(g, t);
      }
    }
  }

  /** Every hit sits in the bucket of its own type and in no other. */
  lemma InOneBucket(results: seq<SearchResult>, t: string, r: SearchResult)
    ensures r in Get(Grouped(results), t).GetOr([]) <==> r in results && TypeOf(r) == t
  {
    GroupedBucket(results, t);
    FilterMembers(results, (r: SearchResult) => TypeOf(r) == t, r);
  }

  /** The distinct elements of `ts`, in the order of their first occurrence. */
  function Distinct(ts: seq<string>): (d: seq<string>)
    ensures forall t :: t in d <==> t in ts
    ensures forall i, j :: 0 <= i < j < |d| ==> d[i] != d[j]
    decreases |ts|
  {
    if ts == [] then []
    else
      var d := Distinct(ts[..|ts| - 1]);
      assert ts == ts[..|ts| - 1] + [ts[|ts| - 1]];
      if ts[|ts| - 1] in d then d else d + [ts[|ts| - 1]]
  }

  function Types(results: seq<SearchResult>): seq<string> {
    seq(|results|, i requires 0 <= i < |results| => TypeOf(results[i]))
  }

  /** The buckets are the distinct types, in the order in which they first occur. */
  lemma {:induction false} GroupedKeys(results: seq<SearchResult>)
    ensures Keys(Grouped(results)) == Distinct(Types(results))
    decreases |results|
  {
    if results != [] {
      var rs, x := results[..|results| - 1], results[|results| - 1];
      GroupedKeys(rs);
      var g := Grouped(rs);
      KeysSet(g, TypeOf(x), Get(g, TypeOf(x)).GetOr([]) + [x]);
      assert Types(results)[..|results| - 1] == Types(rs);
    }
  }

  /** The number of hits over all buckets. */
  function TotalSize(groups: Groups): nat {
    if groups == [] then 0 else |groups[0].1| + TotalSize(groups[1..])
  }

  lemma {:induction false} TotalSizeSet(m: Groups, k: string, v: seq<SearchResult>)
    ensures TotalSize(Set(m, k, v)) == TotalSize(m) - |Get(m, k).GetOr([])| + |v|
  {
    if m != [] && m[0].0 != k {
      TotalSizeSet(m[1..], k, v);
    }
  }

  /** The buckets together hold as many hits as the search returned (the count shown). */
  lemma {:induction false} GroupedSize(results: seq<SearchResult>)
    ensures TotalSize(Grouped(results)) == |results|
    decreases |results|
  {
    if results != [] {
      var rs, x := results[..|results| - 1], results[|results| - 1];
      GroupedSize(rs);
      var g := Grouped(rs);
      TotalSizeSet(g, TypeOf(x), Get(g, TypeOf(x)).GetOr([]) + [x]);
    }
  }

  /** `getTypeLabel`: the heading of a type; an unknown type is a generic resource. */
  function TypeLabel(t: string): string {
    if t == "model" then "Modello 3D"
    else if t == "dashboard" then "Dashboard"
    else if t == "document" then "Documento"
    else if t == "notebook" then "Notebook"
    else "Risorsa"
  }

  /** Every kind gets its own heading, distinct from the others and from the fallback. */
  lemma TypeLabelDistinct(a: Kind, b: Kind)
    ensures TypeLabel(KindName(a)) != "Risorsa"
    ensures TypeLabel(KindName(a)) == TypeLabel(KindName(b)) <==> a == b
  {
  }

  /** A hit's link: a document opens its own URL when it has one, everything else its portal page. */
  function Href(r: SearchResult): string {
    if TypeOf(r) == "document" && r.originalUrl.Some? && r.originalUrl.value != "" then r.originalUrl.value
    else r.url
  }

  /** For a tagged resource: a document with a link opens that link, any other hit its page. */
  lemma HrefOfTagged(res: Resource, k: Kind)
    ensures Href(Tagged(res, k)) ==
      if k == Document && res.url.Some? && res.url.value != "" then res.url.value
      else PagePrefix(k) + res.id
  {
    KindNameInjective(k, Document);
  }

  /** The results the page shows: none for an empty query, otherwise the search's. */
  function ResultsFor(c: Catalog, query: string): (rs: seq<SearchResult>)
    ensures query == "" ==> rs == []
  {
    if query == "" then [] else SearchResources(c, query)
  }
}
