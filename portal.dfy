/**
 * The portal's resource catalogue (`externalLinks` of the project
 * configuration) as the search and configuration helpers read it. An absent
 * optional field is `None`; the `type` field of a document is `docType`.
 */
module Portal {
  import opened Wrappers

  /** The four sections of the catalogue. */
  datatype Kind = Model | Dashboard | Document | Notebook

  /** A catalogue entry: a model, dashboard, document or notebook link. */
  datatype Resource = Resource(
    id: string,
    name: string,
    description: Option<string>,
    tags: Option<seq<string>>,
    category: Option<string>,
    docType: Option<string>,
    author: Option<string>,
    url: Option<string>)

  /** `externalLinks`, each section possibly missing. */
  datatype Catalog = Catalog(
    models: Option<seq<Resource>>,
    dashboards: Option<seq<Resource>>,
    documents: Option<seq<Resource>>,
    notebooks: Option<seq<Resource>>)

  /** The section of one kind, as stored (possibly missing). */
  function SectionOf(c: Catalog, k: Kind): Option<seq<Resource>> {
    match k
    case Model => c.models
    case Dashboard => c.dashboards
    case Document => c.documents
    case Notebook => c.notebooks
  }

  /** `externalLinks?.[section] || []`. */
  function Section(c: Catalog, k: Kind): (rs: seq<Resource>)
    ensures SectionOf(c, k).None? ==> rs == []
    ensures SectionOf(c, k).Some? ==> rs == SectionOf(c, k).value
  {
    SectionOf(c, k).GetOr([])
  }

  /** The singular word a result's `type` carries for each kind. */
  function KindName(k: Kind): string {
    match k
    case Model => "model"
    case Dashboard => "dashboard"
    case Document => "document"
    case Notebook => "notebook"
  }

  /** Distinct kinds have distinct names, so `type` identifies the kind. */
  lemma KindNameInjective(a: Kind, b: Kind)
    ensures KindName(a) == KindName(b) <==> a == b
  {
  }
}
