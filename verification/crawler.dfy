/** production_migration_engine_new.py: the recursive crawler. It classifies the grid of
    each folder into sub-folders and files, downloads the files of a folder before entering
    its sub-folders, unwraps downloads that arrive as ZIPs, and writes each file's metadata
    sidecar into the metadata folder. */
module Crawler {
  import opened Wrappers
  import opened Json
  import Seqs
  import Text
  import Unzip

  /** A `span.mail-sender` of the grid: its text and its parent's `onclick` (`None` when the
      attribute is absent), or a span whose text or parent could not be read. */
  datatype Span = Span(text: string, onclick: Option<string>) | Unreadable

  /** Line 159: the `onclick` handler that marks a folder. */
  const FolderMarker: string := "getFolderandFileList"

  /** Line 153: the navigation entries of the grid. */
  const NavigationLabels: seq<string> := ["..", "Up", "Parent Folder"]

  /** The span's label, `inner_text().strip()`. */
  function Label(s: Span): string {
    if s.Span? then Text.Strip(s.text) else ""
  }

  /** Lines 150-154: a span that is read, labelled and not a navigation entry. */
  predicate Listed(s: Span) {
    s.Span? && Label(s) != "" && Label(s) !in NavigationLabels
  }

  /** Lines 157-159: `"getFolderandFileList" in (onclick or "")`. */
  predicate OpensFolder(s: Span) {
    s.Span? && Text.HasInfix(s.onclick.GetOr(""), FolderMarker)
  }

  function IsFolderEntry(s: Span): bool { Listed(s) && OpensFolder(s) }

  function IsFileEntry(s: Span): bool { Listed(s) && !OpensFolder(s) }

  function Labels(spans: seq<Span>): (r: seq<string>)
    ensures |r| == |spans|
    ensures forall i :: 0 <= i < |spans| ==> r[i] == Label(spans[i])
  {
    if |spans| == 0 then [] else [Label(spans[0])] + Labels(spans[1..])
  }

  /** Lines 143-166: one pass over the spans, appending each listed label to the folders or
      to the files. */
  function GridItems(spans: seq<Span>): (r: (seq<string>, seq<string>))
    ensures forall i :: 0 <= i < |r.0| ==> r.0[i] != "" && r.0[i] !in NavigationLabels
    ensures forall i :: 0 <= i < |r.1| ==> r.1[i] != "" && r.1[i] !in NavigationLabels
    ensures |r.0| + |r.1| <= |spans|
  {
    if |spans| == 0 then ([], [])
    else
      var rest := GridItems(spans[1..]);
      var s := spans[0];
      if !Listed(s) then rest
      else if OpensFolder(s) then ([Label(s)] + rest.0, rest.1)
      else (rest.0, [Label(s)] + rest.1)
  }

  /** The one pass agrees with two independent filters: the folders are the labels of the
      folder entries and the files the labels of the other listed entries, both in listing
      order. */
  lemma {:induction false} GridItemsIsTwoFilters(spans: seq<Span>)
    ensures GridItems(spans).0 == Labels(Seqs.Filter(spans, IsFolderEntry))
    ensures GridItems(spans).1 == Labels(Seqs.Filter(spans, IsFileEntry))
  {
    if |spans| > 0 {
      GridItemsIsTwoFilters(spans[1..]);
    }
  }

  /** A listed entry opens a folder exactly when the marker occurs in its handler. */
  lemma OpensFolderIff(s: Span)
    requires s.Span?
    ensures OpensFolder(s) <==> Text.Contains(s.onclick.GetOr(""), FolderMarker)
  {
    Text.HasInfixIsContains(s.onclick.GetOr(""), FolderMarker);
  }

  /** Lines 550-551: the pseudo-files that are never downloaded. */
  const SkippedFiles: seq<string> := ["My Records", "My Activity", "Group or Department"]

  /** A folder as the crawler sees it: the files and sub-folders of its grid, and what the
      grid shows after clicking each sub-folder. */
  datatype Node = Node(files: seq<string>, subfolders: seq<Sub>)
  datatype Sub = Sub(name: string, node: Node)

  /** A download attempt: the breadcrumb path of the folder and the file name. */
  datatype Visit = Visit(path: seq<string>, filename: string)

  /** A listed file that the crawler tries to download. */
  function IsDownloaded(filename: string): bool { filename !in SkippedFiles }

  /** Lines 547-559: the download attempts of one folder's files, in listing order. */
  function FileVisits(files: seq<string>, path: seq<string>): (r: seq<Visit>)
    ensures forall i :: 0 <= i < |r| ==> r[i].path == path && r[i].filename !in SkippedFiles && r[i].filename in files
    ensures forall i :: 0 <= i < |files| && files[i] !in SkippedFiles ==> Visit(path, files[i]) in r
  {
    if |files| == 0 then []
    else if files[0] in SkippedFiles then FileVisits(files[1..], path)
    else [Visit(path, files[0])] + FileVisits(files[1..], path)
  }

  /** The attempts follow the listing: attempt `i` is for the `i`-th listed file that is not a
      pseudo-file, and there is one attempt per such file. */
  lemma {:induction false} FileVisitsFollowListing(files: seq<string>, path: seq<string>)
    ensures var r := FileVisits(files, path);
      && |r| == |Seqs.Filter(files, IsDownloaded)|
      && forall i :: 0 <= i < |r| ==> r[i] == Visit(path, Seqs.Filter(files, IsDownloaded)[i])
  {
    if |files| > 0 {
      FileVisitsFollowListing(files[1..], path);
    }
  }

  /** Lines 531-595: a folder's files, then each sub-folder in listing order, entered with
      its name appended to the breadcrumb path. Navigation is taken to succeed. */
  function Crawl(n: Node, path: seq<string>): seq<Visit>
    decreases n, 1
  {
    FileVisits(n.files, path) + CrawlFrom(n, 0, path)
  }

  /** The attempts of the sub-folders of `n` from the `i`-th on. */
  function CrawlFrom(n: Node, i: nat, path: seq<string>): seq<Visit>
    decreases n, 0, |n.subfolders| - i
  {
    if i >= |n.subfolders| then []
    else
      var s := n.subfolders[i];
      Crawl(s.node, path + [s.name]) + CrawlFrom(n, i + 1, path)
  }

  /** Every attempt of a crawl is made below its starting path, and none is for a
      pseudo-file. */
  lemma {:induction false} CrawlStaysBelow(n: Node, path: seq<string>)
    ensures forall v :: v in Crawl(n, path) ==> |path| <= |v.path| && v.path[..|path|] == path && v.filename !in SkippedFiles
    decreases n, 1
  {
    CrawlFromStaysBelow(n, 0, path);
  }

  lemma {:induction false} CrawlFromStaysBelow(n: Node, i: nat, path: seq<string>)
    ensures forall v :: v in CrawlFrom(n, i, path) ==> |path| < |v.path| && v.path[..|path|] == path && v.filename !in SkippedFiles
    decreases n, 0, |n.subfolders| - i
  {
    if i < |n.subfolders| {
      var s := n.subfolders[i];
      var deeper := path + [s.name];
      CrawlStaysBelow(s.node, deeper);
      CrawlFromStaysBelow(n, i + 1, path);
      forall v | v in Crawl(s.node, deeper) ensures |path| < |v.path| && v.path[..|path|] == path {
        assert v.path[..|deeper|][..|path|] == v.path[..|path|];
      }
    }
  }

  /** Files before folders: the crawl starts with this folder's files, in listing order,
      and every later attempt lies strictly inside a sub-folder. */
  lemma FilesBeforeSubfolders(n: Node, path: seq<string>)
    ensures var k := |FileVisits(n.files, path)|;
      && Crawl(n, path)[..k] == FileVisits(n.files, path)
      && forall j :: k <= j < |Crawl(n, path)| ==> |Crawl(n, path)[j].path| > |path|
  {
    var fv := FileVisits(n.files, path);
    var rest := CrawlFrom(n, 0, path);
    CrawlFromStaysBelow(n, 0, path);
    var all := fv + rest;
    assert Crawl(n, path) == all;
    forall j: int | |fv| <= j < |all| ensures |all[j].path| > |path| {
      assert all[j] == rest[j - |fv|];
      assert rest[j - |fv|] in rest;
    }
  }

  /** Sub-folders in listing order: the attempts after the files are the whole crawls of the
      sub-folders, one after another. */
  lemma {:induction false} SubfoldersInListingOrder(n: Node, i: nat, path: seq<string>)
    requires i <= |n.subfolders|
    ensures CrawlFrom(n, i, path) ==
      Seqs.Concat(seq(|n.subfolders| - i, k requires 0 <= k < |n.subfolders| - i =>
        Crawl(n.subfolders[i + k].node, path + [n.subfolders[i + k].name])))
    decreases |n.subfolders| - i
  {
    var parts := seq(|n.subfolders| - i, k requires 0 <= k < |n.subfolders| - i =>
      Crawl(n.subfolders[i + k].node, path + [n.subfolders[i + k].name]));
    if i < |n.subfolders| {
      SubfoldersInListingOrder(n, i + 1, path);
      var tail := seq(|n.subfolders| - (i + 1), k requires 0 <= k < |n.subfolders| - (i + 1) =>
        Crawl(n.subfolders[i + 1 + k].node, path + [n.subfolders[i + 1 + k].name]));
      assert parts[1..] == tail;
      var s := n.subfolders[i];
      assert parts[0] == Crawl(s.node, path + [s.name]);
      assert Seqs.Concat(parts) == parts[0] + Seqs.Concat(tail);
      assert CrawlFrom(n, i, path) == Crawl(s.node, path + [s.name]) + CrawlFrom(n, i + 1, path);
    }
  }

  /** Line 543: the local folder, `output_base` followed by the breadcrumb path without its
      root ("Group or Department"), as path components. */
  function LocalFolder(outputBase: string, path: seq<string>): (parts: seq<string>)
    ensures |parts| == if |path| == 0 then 1 else |path|
    ensures parts[0] == outputBase
    ensures forall i :: 1 <= i < |parts| ==> parts[i] == path[i]
  {
    [outputBase] + (if |path| == 0 then [] else path[1..])
  }

  /** What the metadata panel gave back: a value, or a stray Playwright `Locator`. */
  datatype Scraped = Value(v: Json) | Locator

  /** Lines 394-400: the metadata without its `Locator` values. */
  function CleanMetadata(m: map<string, Scraped>): (r: map<string, Json>)
    ensures r.Keys == set k | k in m && m[k].Value?
    ensures forall k :: k in r ==> m[k] == Value(r[k])
  {
    map k | k in m && m[k].Value? :: m[k].v
  }

  /** Cleaning is idempotent: a cleaned map, read back as scraped values, loses nothing. */
  lemma CleanMetadataIdempotent(m: map<string, Scraped>)
    ensures var c := CleanMetadata(m);
      CleanMetadata(map k | k in c :: Value(c[k])) == c
  {
  }

  /** `folder_path.replace(sep, "_")`, defined position by position. */
  function Flatten(s: string, sep: char): (r: string)
    ensures |r| == |s|
  {
    seq(|s|, k requires 0 <= k < |s| => if s[k] == sep then '_' else s[k])
  }

  /** Lines 508-511: the sidecar file name, the flattened relative path, `_`, the file
      name and `.json`. */
  function SidecarName(folderPath: string, filename: string, sep: char): (r: string)
    ensures r == Flatten(folderPath, sep) + "_" + filename + ".json"
    ensures Text.EndsWith(r, ".json")
  {
    Text.ReplaceCharByChar(folderPath, sep, '_');
    assert Text.Replace(folderPath, [sep], "_") == Flatten(folderPath, sep);
    var r := Text.Replace(folderPath, [sep], "_") + "_" + filename + ".json";
    assert r[|r| - 5..] == ".json";
    r
  }

  /** Only the file name can hold a separator: the flattened path holds none. */
  lemma SidecarFlattensPath(folderPath: string, filename: string, sep: char)
    requires sep != '_'
    ensures sep !in SidecarName(folderPath, filename, sep)[..|folderPath|]
  {
    var r := SidecarName(folderPath, filename, sep);
    assert r[..|folderPath|] == Flatten(folderPath, sep);
  }

  /** Lines 553-556: the `folder_path` the crawler passes for a file, the file's local path
      taken relative to `output_base`: the breadcrumb without its root, then the file name. */
  function RelativePath(path: seq<string>, filename: string, sep: char): string {
    Text.Join((if |path| == 0 then [] else path[1..]) + [filename], sep)
  }

  /** The sidecar name at the call site: since the relative path already ends in the file
      name, the name holds the file name twice, after the flattened breadcrumb below the root. */
  lemma SidecarNameRepeatsFileName(path: seq<string>, filename: string, sep: char)
    requires sep !in filename
    ensures var folders := if |path| == 0 then [] else path[1..];
      SidecarName(RelativePath(path, filename, sep), filename, sep) ==
        (if |folders| == 0 then "" else Flatten(Text.Join(folders, sep), sep) + "_")
        + filename + "_" + filename + ".json"
  {
    var folders := if |path| == 0 then [] else path[1..];
    Text.JoinSnoc(folders, filename, sep);
    assert Flatten(filename, sep) == filename;
    if |folders| > 0 {
      var pre := Text.Join(folders, sep);
      assert Flatten(pre + [sep] + filename, sep) == Flatten(pre, sep) + "_" + Flatten(filename, sep);
    }
  }

  /** Lines 507-512: the sidecar written for a download, `None` when the cleaned metadata is
      empty. */
  function Sidecar(metadata: map<string, Json>, folderPath: string, filename: string, sep: char): (r: Option<(string, Json)>)
    ensures r.None? <==> |metadata| == 0
    ensures r.Some? ==> r.value == (SidecarName(folderPath, filename, sep), JObject(metadata))
  {
    if |metadata| == 0 then None else Some((SidecarName(folderPath, filename, sep), JObject(metadata)))
  }

  /** Lines 481-487: the first member named like the file, else the first member. */
  function BestByName(ms: seq<Unzip.Member>, filename: string): (k: nat)
    requires |ms| > 0
    ensures k < |ms|
    ensures (exists i :: 0 <= i < |ms| && ms[i].name == filename) ==>
      ms[k].name == filename && forall i :: 0 <= i < k ==> ms[i].name != filename
    ensures (forall i :: 0 <= i < |ms| ==> ms[i].name != filename) ==> k == 0
  {
    match Unzip.FirstWhere(ms, Unzip.NamedAs(filename))
    case Some(i) => i
    case None => 0
  }

  /** What the ZIP check leaves: the bytes at the download's `file_path`, whether the
      download was reported as failed (extraction raised, so the caller gets `None`), and
      the sub-folders of `OUTPUT_DIR`. A failed extraction does not touch the saved
      archive, so it stays at `file_path`. */
  datatype Unwrapped = Unwrapped(file: Unzip.Bytes, failed: bool, outputDirs: set<string>)

  /** Lines 462-505: a saved download that `is_zipfile` accepts is extracted into `temp`
      under `OUTPUT_DIR` and replaced by its best member; an empty archive is kept as it is.
      The `finally` removes `temp` on every path through the extraction, and an extraction
      that raises fails the download but leaves the archive saved. */
  function Unwrap(content: Unzip.Bytes, filename: string, isZip: bool, extract: Unzip.Extractor,
                  temp: string, outputDirs: set<string>): (r: Unwrapped)
    ensures !isZip ==> r == Unwrapped(content, false, outputDirs)
    ensures isZip ==> r.outputDirs == outputDirs - {temp}
    ensures r.failed <==> isZip && extract(content).None?
    ensures isZip ==> match extract(content)
      case None => r.file == content
      case Some(ms) => r.file == if |ms| == 0 then content else ms[BestByName(ms, filename)].data
  {
    if !isZip then Unwrapped(content, false, outputDirs)
    else
      var cleaned := outputDirs - {temp};
      match extract(content)
      case None => Unwrapped(content, true, cleaned)
      case Some(ms) =>
        if |ms| == 0 then Unwrapped(content, false, cleaned)
        else Unwrapped(ms[BestByName(ms, filename)].data, false, cleaned)
  }

  /** Lines 514-524: the result record of a download. */
  function Record(filename: string, path: string, metadata: map<string, Json>): (r: Json)
    ensures r.JObject? && Get(r.fields, "status") == JStr("success")
    ensures Get(r.fields, "filename") == JStr(filename) && Get(r.fields, "metadata") == JObject(metadata)
  {
    JObject(map["filename" := JStr(filename), "path" := JStr(path), "metadata" := JObject(metadata),
                "status" := JStr("success")])
  }
}
