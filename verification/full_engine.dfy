/** full_migration_engine.py: one pass over the file cards of the listing page, each
    resolved to a local path, downloaded, and logged by rewriting the whole JSON manifest. */
module FullEngine {
  import opened Wrappers
  import opened Json
  import Text
  import PathResolver
  import Breadcrumbs

  /** What clicking the card's download link came to. */
  datatype Download =
    | NoLink                      // the card has no `a[download]`
    | Saved                       // the download was saved to the resolved path
    | SaveFailed(reason: string)  // the click or the save raised; `reason` is `str(e)`

  /** A `.file` card: the text of its first `span`, its data attributes, and its download. */
  datatype FileCard = FileCard(text: string, attrs: Breadcrumbs.Attributes, download: Download)

  /** The collaborators the engines call but that are not modelled: the regex engine,
      `os.path.normpath`, and `os.path.join(DEST_ROOT, ·)`. */
  datatype Env = Env(cfg: PathResolver.PathConfig, sub: PathResolver.RegexSub, normpath: string -> string, underRoot: string -> string)

  /** The card's file name, `inner_text().strip()`. */
  function Filename(card: FileCard): (name: string)
    ensures name == [] || (!Text.IsSpace(name[0]) && !Text.IsSpace(name[|name| - 1]))
  {
    Text.Strip(card.text)
  }

  /** Lines 219-231: the manifest status of a download; "Success" for a saved file only. */
  function StatusText(d: Download): (s: string)
    ensures s == "Success" <==> d.Saved?
    ensures d.NoLink? ==> s == "Skipped (No Link)"
    ensures d.SaveFailed? ==> Text.StartsWith(s, "Failed: ")
  {
    match d
    case NoLink => "Skipped (No Link)"
    case Saved => "Success"
    case SaveFailed(reason) =>
      assert ("Failed: " + reason)[..8] == "Failed: ";
      "Failed: " + reason
  }

  /** The absolute local path of a card (lines 199-211). */
  function LocalPath(card: FileCard, env: Env): string {
    var h := Breadcrumbs.WebHierarchy(Breadcrumbs.FromAttributes(card.attrs));
    env.underRoot(PathResolver.ResolveFull(env.cfg, h, Filename(card), env.sub, env.normpath))
  }

  /** Lines 235-248: the manifest entry of a card. Its `metadata` member (scraped form
      fields and timestamps) is not modelled. */
  function Entry(card: FileCard, env: Env): (e: Json)
    ensures e.JObject?
    ensures Get(e.fields, "original_filename") == JStr(Filename(card))
    ensures Get(e.fields, "status") == JStr("Success") <==> card.download.Saved?
    ensures Get(e.fields, "source_url") == JNull
  {
    EntryOf(Filename(card), LocalPath(card, env), card.download)
  }

  /** The entry of a file name, its local path and its download. */
  function EntryOf(name: string, path: string, d: Download): (e: Json)
    ensures e.JObject?
    ensures Get(e.fields, "original_filename") == JStr(name)
    ensures Get(e.fields, "status") == JStr("Success") <==> d.Saved?
    ensures Get(e.fields, "source_url") == JNull
  {
    JObject(map[
      "original_filename" := JStr(name),
      "local_path" := JStr(path),
      "status" := JStr(StatusText(d))])
  }

  /** The manifest file as `log_manifest` finds it. */
  datatype ManifestFile =
    | Missing             // no file yet
    | Unreadable          // present, but `json.load` raised
    | Stored(data: Json)  // present and decoded

  /** Lines 135-145: the decoded list with `entry` appended; an absent or unreadable file
      counts as the empty list. A decoded value that is not a list has no `append`, and
      the `AttributeError` is outside the `try`. */
  function LogManifest(file: ManifestFile, entry: Json): (r: Result<Json>)
    ensures file.Stored? && file.data.JArray? ==> r == Success(JArray(file.data.items + [entry]))
    ensures file.Missing? || file.Unreadable? ==> r == Success(JArray([entry]))
    ensures file.Stored? && !file.data.JArray? ==> r == Failure(NotAnObject)
  {
    match file
    case Stored(JArray(items)) => Success(JArray(items + [entry]))
    case Stored(_) => Failure(NotAnObject)
    case _ => Success(JArray([entry]))
  }

  /** The list already logged: the decoded list, or nothing when there is none to read. */
  function Prior(file: ManifestFile): seq<Json> {
    if file.Stored? && file.data.JArray? then file.data.items else []
  }

  /** Logging onto a loggable manifest appends to what it already holds. */
  lemma LogManifestAppends(file: ManifestFile, entry: Json)
    requires !(file.Stored? && !file.data.JArray?)
    ensures LogManifest(file, entry) == Success(JArray(Prior(file) + [entry]))
  {
    if !file.Stored? {
      assert Prior(file) + [entry] == [entry];
    }
  }

  /** The entries of a sequence of cards, in order. */
  function Entries(cards: seq<FileCard>, env: Env): (es: seq<Json>)
    ensures |es| == |cards|
    ensures forall i :: 0 <= i < |cards| ==> es[i] == Entry(cards[i], env)
  {
    seq(|cards|, i requires 0 <= i < |cards| => Entry(cards[i], env))
  }

  /** The manifest file after logging `entries` one by one. The first failing
      `log_manifest` ends the run (the global handler catches it). */
  function LogAll(file: ManifestFile, entries: seq<Json>): ManifestFile
    decreases |entries|
  {
    if |entries| == 0 then file
    else
      match LogManifest(file, entries[0])
      case Failure(_) => file
      case Success(data) => LogAll(Stored(data), entries[1..])
  }

  /** Lines 164-248: the manifest file after processing the cards in order. An entry does
      not depend on the manifest, so the run is the logging of all entries. */
  function Run(cards: seq<FileCard>, file: ManifestFile, env: Env): ManifestFile {
    LogAll(file, Entries(cards, env))
  }

  /** Logging onto a loggable manifest keeps what it held and adds the entries in order. */
  lemma {:induction false} LogAllAppends(file: ManifestFile, entries: seq<Json>)
    requires |entries| > 0
    requires !(file.Stored? && !file.data.JArray?)
    ensures LogAll(file, entries) == Stored(JArray(Prior(file) + entries))
    decreases |entries|
  {
    var e := entries[0];
    var next := Stored(JArray(Prior(file) + [e]));
    LogManifestAppends(file, e);
    assert LogAll(file, entries) == LogAll(next, entries[1..]);
    if |entries| > 1 {
      LogAllAppends(next, entries[1..]);
      assert Prior(next) == Prior(file) + [e];
      assert Prior(file) + [e] + entries[1..] == Prior(file) + entries;
    } else {
      assert entries == [e];
    }
  }

  /** A run over a readable list, a missing file or an unreadable file leaves the earlier
      entries followed by one entry per card, in card order. */
  lemma RunAppendsEveryEntry(cards: seq<FileCard>, file: ManifestFile, env: Env)
    requires |cards| > 0
    requires !(file.Stored? && !file.data.JArray?)
    ensures Run(cards, file, env) == Stored(JArray(Prior(file) + Entries(cards, env)))
  {
    LogAllAppends(file, Entries(cards, env));
  }

  /** An unreadable manifest is replaced: after the run it holds this run's entries only. */
  lemma UnreadableManifestIsReplaced(cards: seq<FileCard>, env: Env)
    requires |cards| > 0
    ensures Run(cards, Unreadable, env) == Stored(JArray(Entries(cards, env)))
  {
    RunAppendsEveryEntry(cards, Unreadable, env);
    assert Prior(Unreadable) + Entries(cards, env) == Entries(cards, env);
  }

  /** A manifest that decodes to something other than a list stops the run at the first
      card and is left as it was. */
  lemma NonListManifestStopsRun(cards: seq<FileCard>, file: ManifestFile, env: Env)
    requires |cards| > 0 && file.Stored? && !file.data.JArray?
    ensures Run(cards, file, env) == file
  {
    assert LogManifest(file, Entries(cards, env)[0]).Failure?;
  }
}
