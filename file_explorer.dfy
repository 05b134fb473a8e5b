/**
 * The file explorer: which file is selected, which highlighting language its code view uses,
 * and how the breadcrumb above the code view presents its path.
 */
module FileExplorer {
  import opened Wrappers
  import opened Strings
  import opened Records

  /** The language used when a file name has no usable extension. */
  const DefaultLanguage: string := "text"
  /** Paths with at most this many segments are shown in full in the breadcrumb. */
  const MaxSegments: nat := 4

  function LastOf(parts: seq<string>): string
    requires |parts| >= 1
  {
    parts[|parts| - 1]
  }

  /**
   * The highlighting language for a file name: the lower-cased text after its last '.', or the
   * whole name lower-cased when it has no '.'; the default when that text is empty.
   */
  function GetLanguageFromExtension(filename: string): (lang: string)
    ensures '.' !in filename ==>
      lang == if |filename| == 0 then DefaultLanguage else ToLower(filename)
    ensures '.' in filename ==> var i := LastIndex(filename, '.');
      lang == if i + 1 == |filename| then DefaultLanguage else ToLower(filename[i + 1..])
  {
    var k := if '.' in filename then LastIndex(filename, '.') + 1 else 0;
    LanguageOfSuffix(filename, k);
    LanguageOf(ExtensionOf(filename))
  }

  /** `filename.split(".").pop()`: the text after the last '.', or the whole name without one. */
  function ExtensionOf(filename: string): (extension: string)
    ensures '.' !in filename ==> extension == filename
    ensures '.' in filename ==> extension == filename[LastIndex(filename, '.') + 1..]
  {
    LastPiece(filename, '.');
    LastOf(Split(filename, '.'))
  }

  /** The language named by an extension: the extension lower-cased, or the default when it is empty. */
  function LanguageOf(extension: string): (lang: string)
    ensures lang == if |extension| == 0 then DefaultLanguage else ToLower(extension)
  {
    var lowered := ToLower(extension);
    assert |lowered| == |extension|;
    if lowered == "" then DefaultLanguage else lowered
  }

  /** The language of the text from position `k` on: the default exactly when nothing follows. */
  lemma LanguageOfSuffix(s: string, k: nat)
    requires k <= |s|
    ensures LanguageOf(s[k..]) == if k == |s| then DefaultLanguage else ToLower(s[k..])
  {
  }

  /** The file selected when the explorer opens: the first path of the collection, if any. */
  function InitialSelection(files: FileCollection): (r: Option<string>)
    ensures r.Some? <==> |files| > 0
    ensures r.Some? ==> r.value in KeysOf(files) && r.value == KeysOf(files)[0]
  {
    if |files| > 0 then Some(files[0].0) else None
  }

  /** `files[path]` is truthy: the path is present and its content is not empty. */
  predicate HasContent(files: FileCollection, path: string) {
    var content := Get(files, path);
    content.Some? && content.value != ""
  }

  /** The selection after a file is picked in the tree: it moves only to a path with content. */
  function Select(files: FileCollection, current: Option<string>, path: string): (r: Option<string>)
    ensures r == Some(path) || r == current
    ensures r != current ==> HasContent(files, path)
    ensures HasContent(files, path) ==> r == Some(path)
    ensures (current.Some? ==> current.value in KeysOf(files)) ==> (r.Some? ==> r.value in KeysOf(files))
  {
    if HasContent(files, path) then Some(path) else current
  }

  /** The code view, rather than the placeholder, is shown: a non-empty selected path with content. */
  predicate ShowsCode(files: FileCollection, selected: Option<string>) {
    selected.Some? && selected.value != "" && HasContent(files, selected.value)
  }

  /** Picking a non-empty path with content always brings up its code. */
  lemma SelectShowsCode(files: FileCollection, current: Option<string>, path: string)
    requires path != "" && HasContent(files, path)
    ensures ShowsCode(files, Select(files, current, path))
    ensures Select(files, Select(files, current, path), path) == Select(files, current, path)
  {
  }

  /** The explorer's state: the files it shows and the selected path. */
  class FileExplorerState {
    const files: FileCollection
    var selectedFile: Option<string>

    /** The selection, when there is one, is a path of the collection. */
    predicate Valid()
      reads this
    {
      selectedFile.Some? ==> selectedFile.value in KeysOf(files)
    }

    constructor(files: FileCollection)
      ensures this.files == files && selectedFile == InitialSelection(files)
      ensures Valid()
    {
      this.files := files;
      selectedFile := InitialSelection(files);
    }

    method HandleFileSelect(path: string)
      modifies this`selectedFile
      ensures selectedFile == Select(files, old(selectedFile), path)
      ensures old(Valid()) ==> Valid()
    {
      if HasContent(files, path) {
        selectedFile := Some(path);
      }
    }
  }

  // ---------------------------------------------------------------------------
  // Breadcrumb

  /** One element of the breadcrumb: a path segment (emphasised or muted), a separator or an ellipsis. */
  datatype Crumb = Segment(text: string, emphasised: bool) | Separator | Ellipsis

  /** Every segment in order, separated, with only the last one emphasised. */
  function ShortCrumbs(segments: seq<string>): seq<Crumb>
    decreases |segments|
  {
    if |segments| == 0 then []
    else if |segments| == 1 then [Segment(segments[0], true)]
    else [Segment(segments[0], false), Separator] + ShortCrumbs(segments[1..])
  }

  /** The breadcrumb for a path: in full up to four segments, otherwise first / ellipsis / last. */
  function BreadcrumbItems(filepath: string): (cs: seq<Crumb>)
    ensures var segments := Split(filepath, '/');
      && |cs| == (if |segments| <= MaxSegments then 2 * |segments| - 1 else 5)
      && cs[0].Segment? && cs[0].text == segments[0]
      && cs[|cs| - 1] == Segment(LastOf(segments), true)
  {
    var segments := Split(filepath, '/');
    if |segments| <= MaxSegments then
      ShortCrumbsLayout(segments);
      ShortCrumbs(segments)
    else [Segment(segments[0], false), Separator, Ellipsis, Separator, Segment(LastOf(segments), true)]
  }

  /** The texts of the segment crumbs, in order. */
  function SegmentTexts(cs: seq<Crumb>): seq<string> {
    if cs == [] then []
    else (if cs[0].Segment? then [cs[0].text] else []) + SegmentTexts(cs[1..])
  }

  /** Segments sit at even positions and separators between them; only the last segment is emphasised. */
  lemma {:induction false} ShortCrumbsLayout(segments: seq<string>)
    requires |segments| >= 1
    ensures |ShortCrumbs(segments)| == 2 * |segments| - 1
    ensures forall k :: 0 <= k < |ShortCrumbs(segments)| ==>
      ShortCrumbs(segments)[k] ==
        if k % 2 == 0 then Segment(segments[k / 2], k == 2 * |segments| - 2) else Separator
    decreases |segments|
  {
    if |segments| > 1 {
      var cs, rest := ShortCrumbs(segments), ShortCrumbs(segments[1..]);
      ShortCrumbsLayout(segments[1..]);
      assert cs == [Segment(segments[0], false), Separator] + rest;
      forall k | 2 <= k < |cs|
        ensures cs[k] == if k % 2 == 0 then Segment(segments[k / 2], k == 2 * |segments| - 2) else Separator
      {
        var j := k - 2;
        assert cs[k] == rest[j];
        assert j % 2 == k % 2 && j / 2 == k / 2 - 1;
        if k % 2 == 0 {
          assert segments[1..][j / 2] == segments[k / 2];
        }
      }
    }
  }

  /** The segment crumbs of the full form are the segments themselves. */
  lemma {:induction false} ShortCrumbsTexts(segments: seq<string>)
    ensures SegmentTexts(ShortCrumbs(segments)) == segments
    decreases |segments|
  {
    if |segments| > 1 {
      var cs, rest := ShortCrumbs(segments), ShortCrumbs(segments[1..]);
      ShortCrumbsTexts(segments[1..]);
      assert cs[1..][1..] == rest;
      assert SegmentTexts(cs) == [segments[0]] + SegmentTexts(cs[1..]);
      assert SegmentTexts(cs[1..]) == SegmentTexts(rest);
      assert segments == [segments[0]] + segments[1..];
    } else if |segments| == 1 {
      assert ShortCrumbs(segments)[1..] == [];
    }
  }

  /**
   * A path of at most four segments is spelled out in full: its segments in order with a
   * separator between each pair, and only the last segment emphasised.
   */
  lemma ShortBreadcrumb(filepath: string)
    requires |Split(filepath, '/')| <= MaxSegments
    ensures var segments, cs := Split(filepath, '/'), BreadcrumbItems(filepath);
      && SegmentTexts(cs) == segments
      && Join(SegmentTexts(cs), '/') == filepath
      && |cs| == 2 * |segments| - 1
      && (forall k :: 0 <= k < |cs| ==> (cs[k] == Separator <==> k % 2 == 1))
      && (forall k :: 0 <= k < |cs| ==> (cs[k].Segment? && cs[k].emphasised <==> k == |cs| - 1))
  {
    var segments := Split(filepath, '/');
    assert BreadcrumbItems(filepath) == ShortCrumbs(segments);
    ShortCrumbsTexts(segments);
    JoinSplit(filepath, '/');
    ShortCrumbsMarks(segments);
  }

  /** In the full form the separators sit at odd positions and only the last crumb is emphasised. */
  lemma ShortCrumbsMarks(segments: seq<string>)
    requires |segments| >= 1
    ensures var cs := ShortCrumbs(segments);
      && |cs| == 2 * |segments| - 1
      && (forall k :: 0 <= k < |cs| ==> (cs[k] == Separator <==> k % 2 == 1))
      && (forall k :: 0 <= k < |cs| ==> (cs[k].Segment? && cs[k].emphasised <==> k == |cs| - 1))
  {
    ShortCrumbsLayout(segments);
  }

  /**
   * A path of more than four segments shows only its first segment, an ellipsis and its last
   * segment, with the last one emphasised.
   */
  lemma LongBreadcrumb(filepath: string)
    requires |Split(filepath, '/')| > MaxSegments
    ensures var segments, cs := Split(filepath, '/'), BreadcrumbItems(filepath);
      && SegmentTexts(cs) == [segments[0], LastOf(segments)]
      && |cs| == 5 && cs[2] == Ellipsis
      && (forall k :: 0 <= k < |cs| ==> (cs[k].Segment? && cs[k].emphasised <==> k == |cs| - 1))
  {
    var segments, cs := Split(filepath, '/'), BreadcrumbItems(filepath);
    FiveCrumbTexts(segments[0], LastOf(segments));
  }

  lemma FiveCrumbTexts(first: string, last: string)
    ensures SegmentTexts([Segment(first, false), Separator, Ellipsis, Separator, Segment(last, true)]) ==
      [first, last]
  {
    var cs := [Segment(first, false), Separator, Ellipsis, Separator, Segment(last, true)];
    assert cs[4..] == [Segment(last, true)] && cs[4..][1..] == [];
    assert SegmentTexts(cs[4..]) == [last];
    assert cs[3..][1..] == cs[4..] && cs[2..][1..] == cs[3..] && cs[1..][1..] == cs[2..];
    assert SegmentTexts(cs[3..]) == [last];
    assert SegmentTexts(cs[2..]) == [last];
    assert SegmentTexts(cs[1..]) == [last];
  }
}
