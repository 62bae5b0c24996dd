/**
 * The portal's full-text search over the resource catalogue: normalised
 * substring matching on the searchable fields of each kind, tagging of the
 * matches with their kind and page URL, and a name-ordered merge of the four
 * kinds.
 */
module SearchUtils {
  import opened Wrappers
  import opened Strings
  import opened Lists
  import opened Sorting
  import opened Portal

  /** A combining diacritical mark (U+0300 to U+036F), which the search strips. */
  predicate IsMark(c: char) {
    '\U{0300}' <= c <= '\U{036F}'
  }

  function StripMarks(s: string): (r: string)
    ensures |r| <= |s|
    ensures forall i :: 0 <= i < |r| ==> !IsMark(r[i])
    ensures forall c :: c in r ==> c in s
  {
    var r := Filter(s, c => !IsMark(c));
    assert forall i :: 0 <= i < |r| ==> r[i] in r;
    r
  }

  /** A string without marks is left alone. */
  lemma StripMarksUnmarked(s: string)
    requires forall i :: 0 <= i < |s| ==> !IsMark(s[i])
    ensures StripMarks(s) == s
  {
    FilterAll(s, c => !IsMark(c));
  }

  predicate IsAsciiLetter(c: char) {
    ('a' <= c <= 'z') || ('A' <= c <= 'Z')
  }

  /**
   * The canonical decomposition of a lower-case Latin-1 letter with a
   * diacritic (U+00E0 to U+00FF): its base letter and its combining mark.
   */
  function LowerDecomposition(c: char): (r: Option<(char, char)>)
    ensures r.Some? ==> IsMark(r.value.1) && 'a' <= r.value.0 <= 'z'
  {
    if !('\U{00E0}' <= c <= '\U{00FF}') then None
    else
      match c
      case 'à' => Some(('a', '\U{0300}'))
      case 'á' => Some(('a', '\U{0301}'))
      case 'â' => Some(('a', '\U{0302}'))
      case 'ã' => Some(('a', '\U{0303}'))
      case 'ä' => Some(('a', '\U{0308}'))
      case 'å' => Some(('a', '\U{030A}'))
      case 'ç' => Some(('c', '\U{0327}'))
      case 'è' => Some(('e', '\U{0300}'))
      case 'é' => Some(('e', '\U{0301}'))
      case 'ê' => Some(('e', '\U{0302}'))
      case 'ë' => Some(('e', '\U{0308}'))
      case 'ì' => Some(('i', '\U{0300}'))
      case 'í' => Some(('i', '\U{0301}'))
      case 'î' => Some(('i', '\U{0302}'))
      case 'ï' => Some(('i', '\U{0308}'))
      case 'ñ' => Some(('n', '\U{0303}'))
      case 'ò' => Some(('o', '\U{0300}'))
      case 'ó' => Some(('o', '\U{0301}'))
      case 'ô' => Some(('o', '\U{0302}'))
      case 'õ' => Some(('o', '\U{0303}'))
      case 'ö' => Some(('o', '\U{0308}'))
      case 'ù' => Some(('u', '\U{0300}'))
      case 'ú' => Some(('u', '\U{0301}'))
      case 'û' => Some(('u', '\U{0302}'))
      case 'ü' => Some(('u', '\U{0308}'))
      case 'ý' => Some(('y', '\U{0301}'))
      case 'ÿ' => Some(('y', '\U{0308}'))
      case _ => None
  }

  /**
   * The canonical decomposition of any character: a capital decomposes like
   * its lower-case letter, onto the capital base. Other characters have none.
   */
  function Decomposition(c: char): (r: Option<(char, char)>)
    ensures r.Some? ==> IsMark(r.value.1) && IsAsciiLetter(r.value.0) && (IsUpper(r.value.0) <==> IsUpper(c))
    ensures IsAsciiLetter(c) || IsMark(c) ==> r.None?
  {
    match LowerDecomposition(LowerChar(c))
    case Some((b, m)) => Some((if IsUpper(c) then (b as int - 32) as char else b, m))
    case None => None
  }

  /** `normalize("NFD")` on one character. */
  function DecomposeChar(c: char): (r: string)
    ensures forall x :: x in r ==> Decomposition(x).None?
    ensures !IsUpper(c) ==> forall x :: x in r ==> !IsUpper(x)
  {
    match Decomposition(c)
    case Some((b, m)) => [b, m]
    case None => [c]
  }

  /** `normalize("NFD")`: every composed letter becomes its base letter followed by its mark. */
  function Decompose(s: string): (r: string)
    ensures |r| >= |s|
    ensures forall x :: x in r ==> Decomposition(x).None?
    ensures (forall x :: x in s ==> !IsUpper(x)) ==> forall x :: x in r ==> !IsUpper(x)
  {
    if s == [] then [] else DecomposeChar(s[0]) + Decompose(s[1..])
  }

  lemma {:induction false} DecomposeAppend(a: string, b: string)
    ensures Decompose(a + b) == Decompose(a) + Decompose(b)
  {
    if a == [] {
      assert a + b == b;
    } else {
      var ab := a + b;
      assert ab[0] == a[0] && ab[1..] == a[1..] + b;
      DecomposeAppend(a[1..], b);
      calc {
        Decompose(ab);
        DecomposeChar(a[0]) + Decompose(a[1..] + b);
        DecomposeChar(a[0]) + (Decompose(a[1..]) + Decompose(b));
        (DecomposeChar(a[0]) + Decompose(a[1..])) + Decompose(b);
      }
    }
  }

  /** Text without composed letters is already decomposed. */
  lemma {:induction false} DecomposeUncomposed(s: string)
    requires forall i :: 0 <= i < |s| ==> Decomposition(s[i]).None?
    ensures Decompose(s) == s
  {
    if s != [] {
      DecomposeUncomposed(s[1..]);
    }
  }

  /** A character that is neither a capital, a mark nor a composed letter: what the normal form is made of. */
  predicate IsPlain(c: char) {
    !IsUpper(c) && !IsMark(c) && Decomposition(c).None?
  }

  /** The normal form the search compares: plain characters, no surrounding white space. */
  predicate IsNormal(s: string) {
    && (forall i :: 0 <= i < |s| ==> IsPlain(s[i]))
    && (s == [] || (!IsJsSpace(s[0]) && !IsJsSpace(s[|s| - 1])))
  }

  /** What `normalizeText` computes before trimming. */
  function Fold(s: string): (r: string)
    ensures forall i :: 0 <= i < |r| ==> IsPlain(r[i])
  {
    var l := ToLower(s);
    var d := Decompose(l);
    var r := StripMarks(d);
    assert forall x :: x in l ==> !IsUpper(x) by {
      forall x | x in l ensures !IsUpper(x) {
        var i :| 0 <= i < |l| && l[i] == x;
      }
    }
    assert forall i :: 0 <= i < |r| ==> r[i] in d;
    r
  }

  lemma FoldAppend(a: string, b: string)
    ensures Fold(a + b) == Fold(a) + Fold(b)
  {
    ToLowerAppend(a, b);
    DecomposeAppend(ToLower(a), ToLower(b));
    FilterAppend(Decompose(ToLower(a)), Decompose(ToLower(b)), c => !IsMark(c));
  }

  /**
   * `normalizeText`: lower-case, decompose, drop the combining marks, trim.
   * Case mapping and decomposition cover the Latin-1 letters.
   */
  function Normalize(s: string): (r: string)
    ensures IsNormal(r)
  {
    TrimPlain(Fold(s));
    Trim(Fold(s))
  }

  /** Trimming text of plain characters gives a normal form. */
  lemma TrimPlain(m: string)
    requires forall i :: 0 <= i < |m| ==> IsPlain(m[i])
    ensures IsNormal(Trim(m))
  {
    TrimKeeps(m, IsPlain);
  }

  /** Trimming keeps a property of every character. */
  lemma TrimKeeps(m: string, p: char -> bool)
    requires forall i :: 0 <= i < |m| ==> p(m[i])
    ensures forall i :: 0 <= i < |Trim(m)| ==> p(Trim(m)[i])
  {
    var t := TrimStart(m);
    var r := TrimEnd(t);
    forall i | 0 <= i < |r| ensures p(r[i]) {
      assert r[i] == t[i] == m[|m| - |t| + i];
    }
  }

  /** A string already in normal form normalises to itself. */
  lemma NormalizeFixes(s: string)
    requires IsNormal(s)
    ensures Normalize(s) == s
  {
    assert ToLower(s) == s;
    DecomposeUncomposed(s);
    StripMarksUnmarked(s);
  }

  /** Normalising twice is normalising once. */
  lemma NormalizeIdempotent(s: string)
    ensures Normalize(Normalize(s)) == Normalize(s)
  {
    NormalizeFixes(Normalize(s));
  }

  /** Case does not matter to normalisation. */
  lemma NormalizeIgnoresCase(s: string)
    ensures Normalize(ToLower(s)) == Normalize(s)
  {
    ToLowerIdempotent(s);
  }

  /** A combining mark anywhere in the text does not change its normal form. */
  lemma NormalizeIgnoresMark(a: string, m: char, b: string)
    requires IsMark(m)
    ensures Normalize(a + [m] + b) == Normalize(a + b)
  {
    FoldOne(m);
    calc {
      Fold(a + [m] + b);
      { FoldAppend(a + [m], b); }
      Fold(a + [m]) + Fold(b);
      { FoldAppend(a, [m]); }
      Fold(a) + Fold([m]) + Fold(b);
      Fold(a) + Fold(b);
      { FoldAppend(a, b); }
      Fold(a + b);
    }
  }

  /** Folding one character: lower-case it, decompose it and drop the marks. */
  lemma FoldOne(c: char)
    ensures Fold([c]) == StripMarks(DecomposeChar(LowerChar(c)))
  {
    assert ToLower([c]) == [LowerChar(c)];
    assert Decompose([LowerChar(c)]) == DecomposeChar(LowerChar(c)) by {
      assert [LowerChar(c)][1..] == [];
    }
  }

  /** The letter a character is written on: the base of a composed letter, otherwise itself. */
  function BaseLetter(c: char): char {
    match Decomposition(c)
    case Some((b, _)) => b
    case None => c
  }

  /** Lower-casing keeps the decomposition, with the base lower-cased. */
  lemma DecompositionLower(c: char)
    ensures Decomposition(LowerChar(c)) ==
      match Decomposition(c)
      case Some((b, m)) => Some((LowerChar(b), m))
      case None => None
  {
  }

  /** Replacing a composed letter by its base letter does not change the normal form. */
  lemma NormalizeIgnoresAccent(a: string, c: char, b: string)
    ensures Normalize(a + [c] + b) == Normalize(a + [BaseLetter(c)] + b)
  {
    var e := BaseLetter(c);
    FoldBase(c);
    calc {
      Fold(a + [c] + b);
      { FoldAppend(a + [c], b); FoldAppend(a, [c]); }
      Fold(a) + Fold([c]) + Fold(b);
      Fold(a) + Fold([e]) + Fold(b);
      { FoldAppend(a + [e], b); FoldAppend(a, [e]); }
      Fold(a + [e] + b);
    }
  }

  /** A composed letter folds like its base letter. */
  lemma FoldBase(c: char)
    ensures Fold([c]) == Fold([BaseLetter(c)])
  {
    FoldOne(c);
    FoldOne(BaseLetter(c));
    DecompositionLower(c);
    var d := Decomposition(c);
    if d.Some? {
      var (b, m) := d.value;
      var x := LowerChar(b);
      assert BaseLetter(c) == b;
      assert IsAsciiLetter(x);
      assert Decomposition(LowerChar(c)) == Some((x, m));
      assert DecomposeChar(LowerChar(c)) == [x, m];
      assert Decomposition(x).None?;
      assert DecomposeChar(x) == [x];
      assert StripMarks([x, m]) == [x] by {
        assert [x, m][1..] == [m];
        assert [m][1..] == [];
      }
      assert StripMarks([x]) == [x] by {
        assert [x][1..] == [];
      }
    }
  }

  /**
   * `textContains`: a missing or empty text never matches; otherwise the
   * normalised query occurs in the normalised text.
   */
  predicate TextContains(text: Option<string>, query: string) {
    text.Some? && text.value != "" && Contains(Normalize(text.value), Normalize(query))
  }

  /** Containment means an occurrence of the normalised query in the normalised text. */
  lemma TextContainsIff(text: Option<string>, query: string)
    ensures TextContains(text, query) <==>
      (text.Some? && text.value != "" && exists k :: OccursAt(Normalize(text.value), Normalize(query), k))
  {
    if text.Some? {
      ContainsIff(Normalize(text.value), Normalize(query));
    }
  }

  /** Matching is case-insensitive on both sides. */
  lemma TextContainsIgnoresCase(text: string, query: string)
    ensures TextContains(Some(text), ToLower(query)) == TextContains(Some(text), query)
    ensures TextContains(Some(ToLower(text)), query) == TextContains(Some(text), query)
  {
    NormalizeIgnoresCase(query);
    NormalizeIgnoresCase(text);
  }

  /** Accents do not matter: a composed letter in the text or in the query matches as its base letter. */
  lemma TextContainsIgnoresAccent(a: string, c: char, b: string, text: Option<string>, query: string)
    ensures TextContains(Some(a + [c] + b), query) == TextContains(Some(a + [BaseLetter(c)] + b), query)
    ensures TextContains(text, a + [c] + b) == TextContains(text, a + [BaseLetter(c)] + b)
  {
    NormalizeIgnoresAccent(a, c, b);
  }

  /** A combining mark in the query, or in a text with other characters, does not matter. */
  lemma TextContainsIgnoresMark(a: string, m: char, b: string, text: Option<string>, query: string)
    requires IsMark(m)
    ensures a + b != [] ==> TextContains(Some(a + [m] + b), query) == TextContains(Some(a + b), query)
    ensures TextContains(text, a + [m] + b) == TextContains(text, a + b)
  {
    var marked, plain := a + [m] + b, a + b;
    NormalizeIgnoresMark(a, m, b);
    assert Normalize(marked) == Normalize(plain);
    assert marked != [];
  }

  /** A query that normalises to nothing matches every non-empty text. */
  lemma BlankQueryMatchesAll(text: Option<string>, query: string)
    requires Normalize(query) == ""
    ensures TextContains(text, query) <==> text.Some? && text.value != ""
  {
    if text.Some? {
      ContainsEmpty(Normalize(text.value));
    }
  }

  /** `tags && tags.some(tag => textContains(tag, query))`. */
  predicate AnyTag(tags: Option<seq<string>>, query: string) {
    tags.Some? && exists i :: 0 <= i < |tags.value| && TextContains(Some(tags.value[i]), query)
  }

  /**
   * The filter of each per-kind search: name, description, a tag or the
   * category; documents also match on their `type`, notebooks on their author.
   */
  predicate Matches(r: Resource, k: Kind, query: string) {
    || TextContains(Some(r.name), query)
    || TextContains(r.description, query)
    || AnyTag(r.tags, query)
    || TextContains(r.category, query)
    || (k == Document && TextContains(r.docType, query))
    || (k == Notebook && TextContains(r.author, query))
  }

  /** The searchable fields of a resource of kind `k`. */
  function SearchFields(r: Resource, k: Kind): set<Option<string>> {
    {Some(r.name), r.description, r.category}
      + (if k == Document then {r.docType} else {})
      + (if k == Notebook then {r.author} else {})
      + (set t | t in r.tags.GetOr([]) :: Some(t))
  }

  /** The disjunction `Matches` spells out, for any test `hit` of a single field. */
  predicate SomeField(r: Resource, k: Kind, hit: Option<string> -> bool) {
    || hit(Some(r.name))
    || hit(r.description)
    || (r.tags.Some? && exists i :: 0 <= i < |r.tags.value| && hit(Some(r.tags.value[i])))
    || hit(r.category)
    || (k == Document && hit(r.docType))
    || (k == Notebook && hit(r.author))
  }

  lemma SomeFieldIff(r: Resource, k: Kind, hit: Option<string> -> bool)
    ensures SomeField(r, k, hit) <==> exists f :: f in SearchFields(r, k) && hit(f)
  {
    var fs := SearchFields(r, k);
    if r.tags.Some? && exists i :: 0 <= i < |r.tags.value| && hit(Some(r.tags.value[i])) {
      var i :| 0 <= i < |r.tags.value| && hit(Some(r.tags.value[i]));
      assert Some(r.tags.value[i]) in fs;
    }
    if f :| f in fs && hit(f) {
      if f !in {Some(r.name), r.description, r.category} && !(k == Document && f == r.docType)
        && !(k == Notebook && f == r.author)
      {
        var t :| t in r.tags.GetOr([]) && f == Some(t);
        var i :| 0 <= i < |r.tags.value| && r.tags.value[i] == t;
      }
    }
  }

  /** A resource matches exactly when one of its searchable fields contains the query. */
  lemma MatchesIff(r: Resource, k: Kind, query: string)
    ensures Matches(r, k, query) <==> exists f :: f in SearchFields(r, k) && TextContains(f, query)
  {
    var hit := (f: Option<string>) => TextContains(f, query);
    SomeFieldIff(r, k, hit);
    assert Matches(r, k, query) == SomeField(r, k, hit);
  }

  /**
   * One search hit: the resource's own fields spread into a new object whose
   * `type` is the kind (overwriting a document's own `type`) and whose `url`
   * is the portal page; a document keeps its link as `originalUrl`.
   */
  datatype SearchResult = SearchResult(
    id: string,
    name: string,
    description: Option<string>,
    tags: Option<seq<string>>,
    category: Option<string>,
    author: Option<string>,
    kind: Kind,
    url: string,
    originalUrl: Option<string>)

  /** The page path of a kind: `/models?id=`, `/dashboards?id=`, ... */
  function PagePrefix(k: Kind): string {
    "/" + KindName(k) + "s?id="
  }

  function Tagged(r: Resource, k: Kind): (res: SearchResult)
    ensures res.kind == k && res.id == r.id && res.name == r.name
  {
    SearchResult(r.id, r.name, r.description, r.tags, r.category, r.author, k,
                 PagePrefix(k) + r.id, if k == Document then r.url else None)
  }

  /** The page URL identifies the hit: it determines both the kind and the id. */
  lemma TaggedUrlInjective(a: Resource, ka: Kind, b: Resource, kb: Kind)
    requires Tagged(a, ka).url == Tagged(b, kb).url
    ensures ka == kb && a.id == b.id
  {
    var u := Tagged(a, ka).url;
    var pa, pb := PagePrefix(ka), PagePrefix(kb);
    assert u[1] == pa[1] == KindName(ka)[0] && u[1] == pb[1] == KindName(kb)[0];
    assert u[2] == pa[2] == KindName(ka)[1] && u[2] == pb[2] == KindName(kb)[1];
    assert ka == kb by {
      match ka
      case Model =>
      case Dashboard =>
      case Document =>
      case Notebook =>
    }
    assert a.id == u[|pa|..];
  }

  /** `section.filter(keep).map(tag)` for one kind. */
  function SearchKind(rs: seq<Resource>, k: Kind, keep: Resource -> bool): (hits: seq<SearchResult>)
    ensures |hits| <= |rs|
    ensures forall i :: 0 <= i < |hits| ==> hits[i].kind == k
  {
    if rs == [] then []
    else (if keep(rs[0]) then [Tagged(rs[0], k)] else []) + SearchKind(rs[1..], k, keep)
  }

  /** The hits of a concatenation are the hits of each part in turn: configuration order is kept. */
  lemma {:induction false} SearchKindAppend(a: seq<Resource>, b: seq<Resource>, k: Kind, keep: Resource -> bool)
    ensures SearchKind(a + b, k, keep) == SearchKind(a, k, keep) + SearchKind(b, k, keep)
  {
    if a == [] {
      assert a + b == b;
    } else {
      var ab := a + b;
      assert ab[0] == a[0];
      assert ab[1..] == a[1..] + b;
      SearchKindAppend(a[1..], b, k, keep);
      var h := if keep(a[0]) then [Tagged(a[0], k)] else [];
      calc {
        SearchKind(ab, k, keep);
        h + SearchKind(ab[1..], k, keep);
        h + (SearchKind(a[1..], k, keep) + SearchKind(b, k, keep));
        (h + SearchKind(a[1..], k, keep)) + SearchKind(b, k, keep);
      }
    }
  }

  /** A hit is exactly the tagged form of a kept resource. */
  lemma {:induction false} SearchKindMembers(rs: seq<Resource>, k: Kind, keep: Resource -> bool, x: SearchResult)
    ensures x in SearchKind(rs, k, keep) <==>
      exists j :: 0 <= j < |rs| && keep(rs[j]) && x == Tagged(rs[j], k)
  {
    if rs != [] {
      SearchKindMembers(rs[1..], k, keep, x);
      if exists j :: 1 <= j < |rs| && keep(rs[j]) && x == Tagged(rs[j], k) {
        var j :| 1 <= j < |rs| && keep(rs[j]) && x == Tagged(rs[j], k);
        assert rs[1..][j - 1] == rs[j];
      }
      if exists j :: 0 <= j < |rs[1..]| && keep(rs[1..][j]) && x == Tagged(rs[1..][j], k) {
        var j :| 0 <= j < |rs[1..]| && keep(rs[1..][j]) && x == Tagged(rs[1..][j], k);
        assert rs[j + 1] == rs[1..][j];
      }
    }
  }

  /** `searchModels`, `searchDashboards`, `searchDocuments`, `searchNotebooks`. */
  function SearchSection(c: Catalog, k: Kind, query: string): seq<SearchResult> {
    SearchKind(Section(c, k), k, (r: Resource) => Matches(r, k, query))
  }

  /** The four sections' hits, models first, before sorting. */
  function AllHits(c: Catalog, query: string): seq<SearchResult> {
    SearchSection(c, Model, query) + SearchSection(c, Dashboard, query)
      + SearchSection(c, Document, query) + SearchSection(c, Notebook, query)
  }

  /** `a.name.localeCompare(b.name) <= 0`, with code-point order for the collation. */
  predicate ByName(a: SearchResult, b: SearchResult) {
    LexLe(a.name, b.name)
  }

  lemma ByNameOrders()
    ensures Total(ByName) && Transitive(ByName)
  {
    forall a: SearchResult, b: SearchResult ensures ByName(a, b) || ByName(b, a) {
      LexLeTotal(a.name, b.name);
    }
    forall a: SearchResult, b: SearchResult, c: SearchResult | ByName(a, b) && ByName(b, c)
      ensures ByName(a, c)
    {
      LexLeTransitive(a.name, b.name, c.name);
    }
  }

  /** `searchResources`: nothing for a blank query, otherwise every hit, sorted by name. */
  function SearchResources(c: Catalog, query: string): seq<SearchResult> {
    if Trim(query) == "" then [] else SortBy(AllHits(c, query), ByName)
  }

  /** A query of white space only finds nothing. */
  lemma SearchResourcesBlank(c: Catalog, query: string)
    requires forall i :: 0 <= i < |query| ==> IsJsSpace(query[i])
    ensures SearchResources(c, query) == []
  {
    TrimEmptyIff(query);
  }

  /** Otherwise the result holds exactly the hits of the four sections, in name order. */
  lemma SearchResourcesSpec(c: Catalog, query: string)
    requires Trim(query) != ""
    ensures multiset(SearchResources(c, query)) == multiset(AllHits(c, query))
    ensures SortedBy(SearchResources(c, query), ByName)
  {
    SortByPermutes(AllHits(c, query), ByName);
    ByNameOrders();
    SortBySorted(AllHits(c, query), ByName);
  }

  /** Hits with the same name stay in section order (models, dashboards, documents, notebooks). */
  lemma SearchResourcesTies(c: Catalog, query: string, name: string)
    requires Trim(query) != ""
    ensures Filter(SearchResources(c, query), (x: SearchResult) => x.name == name)
         == Filter(AllHits(c, query), (x: SearchResult) => x.name == name)
  {
    LexLeReflexive(name);
    SortByStable(AllHits(c, query), ByName, (x: SearchResult) => x.name == name);
  }

  /** `searchResourcesByType`: one section's search, or nothing for an unknown section. */
  function SearchResourcesByType(c: Catalog, query: string, section: string): seq<SearchResult> {
    if section == "models" then SearchSection(c, Model, query)
    else if section == "dashboards" then SearchSection(c, Dashboard, query)
    else if section == "documents" then SearchSection(c, Document, query)
    else if section == "notebooks" then SearchSection(c, Notebook, query)
    else []
  }

  /**
   * A section search finds a subset of the global search (for a non-blank
   * query), and an unknown section finds nothing.
   */
  lemma ByTypeWithinAll(c: Catalog, query: string, section: string, x: SearchResult)
    requires Trim(query) != ""
    requires x in SearchResourcesByType(c, query, section)
    ensures x in SearchResources(c, query)
    ensures section in {"models", "dashboards", "documents", "notebooks"}
  {
    if section == "models" {
      InAllHits(c, query, Model, x);
    } else if section == "dashboards" {
      InAllHits(c, query, Dashboard, x);
    } else if section == "documents" {
      InAllHits(c, query, Document, x);
    } else {
      assert section == "notebooks";
      InAllHits(c, query, Notebook, x);
    }
    SearchResourcesSpec(c, query);
    assert x in multiset(AllHits(c, query));
  }

  /** A hit of one section is among the hits of all four. */
  lemma InAllHits(c: Catalog, query: string, k: Kind, x: SearchResult)
    requires x in SearchSection(c, k, query)
    ensures x in AllHits(c, query)
  {
  }

  /**
   * The section search applies no blank-query guard: an empty query returns
   * every resource of the section that has a name.
   */
  lemma ByTypeEmptyQuery(c: Catalog, k: Kind, r: Resource)
    requires r in Section(c, k) && r.name != ""
    ensures Tagged(r, k) in SearchResourcesByType(c, "", KindName(k) + "s")
  {
    NamedMatchesEmpty(r, k);
    SearchSectionMembers(c, k, "", r);
    ByTypeDispatch(c, k, "");
  }

  /** Every resource with a name matches the empty query. */
  lemma NamedMatchesEmpty(r: Resource, k: Kind)
    requires r.name != ""
    ensures Matches(r, k, "")
  {
    assert Normalize("") == "";
    BlankQueryMatchesAll(Some(r.name), "");
  }

  /** A matching resource of a section is found by that section's search. */
  lemma SearchSectionMembers(c: Catalog, k: Kind, query: string, r: Resource)
    requires r in Section(c, k)
    ensures Matches(r, k, query) ==> Tagged(r, k) in SearchSection(c, k, query)
  {
    var rs := Section(c, k);
    var keep := (x: Resource) => Matches(x, k, query);
    var j :| 0 <= j < |rs| && rs[j] == r;
    SearchKindMembers(rs, k, keep, Tagged(r, k));
    if Matches(r, k, query) {
      assert keep(rs[j]);
    }
  }

  /** A kind's section name selects that kind's search. */
  lemma ByTypeDispatch(c: Catalog, k: Kind, query: string)
    ensures SearchResourcesByType(c, query, KindName(k) + "s") == SearchSection(c, k, query)
  {
    match k
    case Model => assert KindName(k) + "s" == "models";
    case Dashboard => assert KindName(k) + "s" == "dashboards";
    case Document => assert KindName(k) + "s" == "documents";
    case Notebook => assert KindName(k) + "s" == "notebooks";
  }
}
