/**
 * The title on a generated notebook thumbnail: the notebook's name taken
 * from the last segment of its URL path, shortened to fit the card.
 */
module NotebookThumbnail {
  import opened Wrappers
  import opened Strings

  /** The title used when the URL does not yield a name. */
  const DefaultName: string := "Notebook ML"

  /** The longest title drawn whole, and how much of a longer one is kept before "...". */
  const MaxTitle: nat := 30
  const KeptLength: nat := 27

  /**
   * The notebook's name. `pathname` is the parsed URL's path, `None` when
   * the URL constructor throws; `decode` is `decodeURIComponent`, `None`
   * when it throws. Both failures keep the default name.
   */
  function NotebookName(pathname: Option<string>, decode: string -> Option<string>): string {
    match pathname
    case None => DefaultName
    case Some(p) =>
      var parts := Split(p, '/');
      if |parts| > 2 then decode(parts[|parts| - 1]).GetOr(DefaultName) else DefaultName
  }

  /** A path with fewer than two slashes (or an unparsable URL) gives the default name. */
  lemma ShortPathGivesDefault(pathname: Option<string>, decode: string -> Option<string>)
    requires pathname.Some? ==> multiset(pathname.value)['/'] < 2
    ensures NotebookName(pathname, decode) == DefaultName
  {
    if pathname.Some? {
      SplitLength(pathname.value, '/');
    }
  }

  /** With at least two slashes, the name is the decoded segment after the last slash. */
  lemma NameIsLastSegment(dir: string, segment: string, decode: string -> Option<string>)
    requires '/' in dir && '/' !in segment
    ensures NotebookName(Some(dir + "/" + segment), decode) == decode(segment).GetOr(DefaultName)
  {
    SplitLast(dir, '/', segment);
    SplitLength(dir, '/');
    assert multiset(dir)['/'] >= 1;
  }

  /** `title.length > 30 ? title.substring(0, 27) + "..." : title`. */
  function Truncate(title: string): string {
    if |title| > MaxTitle then title[..KeptLength] + "..." else title
  }

  /** A long title is cut to exactly 30 characters, keeping its first 27; a short one is kept. */
  lemma TruncateSpec(title: string)
    ensures |Truncate(title)| <= MaxTitle
    ensures |title| > MaxTitle ==>
      |Truncate(title)| == MaxTitle && IsPrefix(Truncate(title)[..KeptLength], title)
      && Truncate(title)[KeptLength..] == "..."
    ensures |title| <= MaxTitle ==> Truncate(title) == title
  {
  }

  /** Truncating a truncated title changes nothing. */
  lemma TruncateIdempotent(title: string)
    ensures Truncate(Truncate(title)) == Truncate(title)
  {
    TruncateSpec(title);
  }

  /** The name-then-title steps of `generateThumbnail`, reassigning the variables as it goes. */
  method GenerateTitle(pathname: Option<string>, decode: string -> Option<string>) returns (title: string)
    ensures title == Truncate(NotebookName(pathname, decode))
  {
    var notebookName := DefaultName;
    if pathname.Some? {
      var pathParts := Split(pathname.value, '/');
      if |pathParts| > 2 {
        var decoded := decode(pathParts[|pathParts| - 1]);
        if decoded.Some? {
          notebookName := decoded.value;
        }
      }
    }
    title := notebookName;
    if |title| > MaxTitle {
      title := title[..KeptLength] + "...";
    }
  }
}
