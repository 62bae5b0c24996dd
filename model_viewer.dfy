/**
 * The model viewer's embed URL: a Speckle link gets the query parameters
 * that hide Speckle's own controls; every other link is used as given.
 */
module ModelViewer {
  import opened Wrappers
  import opened Strings

  /** The `type` prop of the viewer. */
  datatype ViewerType = Speckle | Bimplus | Other

  /** The parameters appended to a Speckle link. */
  const HideControls: string := "hidecontrols=true&transparent=true&autoload=true"

  /** The `type` prop, `"speckle"` when it is not given. */
  function TypeOrDefault(t: Option<ViewerType>): ViewerType {
    t.GetOr(Speckle)
  }

  /** Whether `getCleanUrl` decorates the link. */
  predicate Decorates(url: string, t: Option<ViewerType>) {
    TypeOrDefault(t) == Speckle && Contains(url, "speckle.xyz")
  }

  /** A second parameter list joins with `&`, a first one starts with `?`. */
  function Separator(url: string): string {
    if Contains(url, "?") then "&" else "?"
  }

  /** `getCleanUrl`. */
  function CleanUrl(url: string, t: Option<ViewerType>): string {
    if TypeOrDefault(t) == Speckle && Contains(url, "speckle.xyz") then url + Separator(url) + HideControls
    else url
  }

  /**
   * The link changes exactly when it is a Speckle link; then the original
   * link is kept whole as a prefix and only the separator and the
   * parameters follow it.
   */
  lemma CleanUrlSpec(url: string, t: Option<ViewerType>)
    ensures CleanUrl(url, t) != url <==> Decorates(url, t)
    ensures Decorates(url, t) ==>
      CleanUrl(url, t)[..|url|] == url && CleanUrl(url, t)[|url|..] == Separator(url) + HideControls
  {
    if Decorates(url, t) {
      assert |CleanUrl(url, t)| > |url|;
    }
  }

  /** A link without a query string gets one: its first `?` is right after the original link. */
  lemma QueryStartsAfterUrl(url: string, t: Option<ViewerType>)
    requires Decorates(url, t) && !Contains(url, "?")
    ensures IndexOf(CleanUrl(url, t), "?") == Some(|url|)
  {
    ContainsChar(url, '?');
    IndexOfFirstChar(url, '?', HideControls);
    assert CleanUrl(url, t) == url + ['?'] + HideControls;
  }

  /** A link that has a query string keeps its first `?` where it was. */
  lemma QueryKeptInPlace(url: string, t: Option<ViewerType>)
    requires Contains(url, "?")
    ensures IndexOf(CleanUrl(url, t), "?") == IndexOf(url, "?")
  {
    ContainsIff(url, "?");
    if Decorates(url, t) {
      IndexOfAppend(url, Separator(url) + HideControls, "?");
      assert CleanUrl(url, t) == url + (Separator(url) + HideControls);
    }
  }
}
