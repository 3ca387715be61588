/** restructure_migration.py: re-roots each migrated file at its first `HR` folder, drops
    the folders the rules skip, and emits the 14-column indexing CSV and the version-2
    manifest. */
module Restructure {
  import opened Wrappers
  import opened Json
  import Seqs
  import Text

  /** The `restructuring` section of config.json (lines 19-27). */
  datatype Rules = Rules(targetRoot: string, foldersToSkip: seq<string>, skipRegex: string, dryRun: bool)

  /** What the script asks of the platform: `os.sep`, `re.match`, whether the source file
      exists under the source root, and `os.path.join` over path components. */
  datatype Platform = Platform(
    sep: char,
    matches: (string, string) -> bool,
    sourceExists: seq<string> -> bool,
    join: seq<string> -> string)

  /** An entry of the source manifest's `files` list. The file name is kept as read: it
      is only used as text once the path has been re-rooted (line 90). */
  datatype SourceEntry = SourceEntry(filename: Json, oldPath: string, metadata: Json)

  /** A restructured entry (lines 113-118); `newParts` are the components joined into `newPath`. */
  datatype Moved = Moved(filename: string, oldPath: string, newParts: seq<string>, newPath: string, metadata: Json)

  /** `d[k]` of a string-valued field. */
  function TextField(fields: map<string, Json>, k: string): (r: Result<string>)
    ensures r.Success? <==> k in fields && fields[k].JStr?
    ensures r.Success? ==> fields[k] == JStr(r.value)
  {
    if k !in fields then Failure(MissingKey(k))
    else if !fields[k].JStr? then Failure(BadField(k))
    else Success(fields[k].s)
  }

  /** Lines 45-47 and 57: the three subscripts, which raise on a missing key, and
      `old_path.split`, which raises unless the path is text. Any value is accepted as the
      file name here. */
  function ParseEntry(v: Json): (r: Result<SourceEntry>)
    ensures r.Success? <==>
      v.JObject? && "filename" in v.fields && "path" in v.fields && "metadata" in v.fields
      && v.fields["path"].JStr?
    ensures r.Success? ==>
      && r.value.filename == v.fields["filename"]
      && JStr(r.value.oldPath) == v.fields["path"]
      && r.value.metadata == v.fields["metadata"]
  {
    if !v.JObject? then Failure(NotAnObject)
    else if "filename" !in v.fields then Failure(MissingKey("filename"))
    else if "path" !in v.fields then Failure(MissingKey("path"))
    else if "metadata" !in v.fields then Failure(MissingKey("metadata"))
    else
      var oldPath :- TextField(v.fields, "path");
      Success(SourceEntry(v.fields["filename"], oldPath, v.fields["metadata"]))
  }

  /** Lines 59-67: the components from the first `HR` on, or `None` when there is none. */
  function TrimToHR(parts: seq<string>): (r: Option<seq<string>>)
    ensures r.None? <==> "HR" !in parts
    ensures r.Some? ==> |r.value| > 0 && r.value[0] == "HR"
    ensures r.Some? ==> exists i :: 0 <= i < |parts| && r.value == parts[i..] && "HR" !in parts[..i]
  {
    match Seqs.IndexOf(parts, "HR")
    case None => None
    case Some(i) => Some(parts[i..])
  }

  /** `[f.lower() for f in folders_to_skip]`. */
  function LowerAll(names: seq<string>): (r: seq<string>)
    ensures |r| == |names|
    ensures forall i :: 0 <= i < |names| ==> r[i] == Text.Lower(names[i])
  {
    if |names| == 0 then [] else [Text.Lower(names[0])] + LowerAll(names[1..])
  }

  /** Lines 75-85: a component is dropped when it is the file name, when its lowered and
      stripped text is a lowered skip name, or when the skip regex matches it. */
  predicate IsSkipped(part: string, filename: string, rules: Rules, p: Platform) {
    || part == filename
    || Text.Strip(Text.Lower(part)) in LowerAll(rules.foldersToSkip)
    || (rules.skipRegex != "" && p.matches(rules.skipRegex, part))
  }

  /** A component is skipped exactly when it is the file name, when stripping and lowering
      it gives the lowered form of some configured folder name (whatever the case either was
      written in), or when a non-empty skip regex matches it. */
  lemma IsSkippedIff(part: string, filename: string, rules: Rules, p: Platform)
    ensures IsSkipped(part, filename, rules, p) <==>
      || part == filename
      || (exists i :: 0 <= i < |rules.foldersToSkip| && Text.Strip(Text.Lower(part)) == Text.Lower(rules.foldersToSkip[i]))
      || (rules.skipRegex != "" && p.matches(rules.skipRegex, part))
  {
    var lowered := LowerAll(rules.foldersToSkip);
    if Text.Strip(Text.Lower(part)) in lowered {
      var i :| 0 <= i < |lowered| && lowered[i] == Text.Strip(Text.Lower(part));
      assert Text.Strip(Text.Lower(part)) == Text.Lower(rules.foldersToSkip[i]);
    }
  }

  function Keeps(filename: string, rules: Rules, p: Platform): string -> bool {
    (part: string) => !IsSkipped(part, filename, rules, p)
  }

  /** Lines 70-88: the kept folder components, in order. */
  function KeptParts(clean: seq<string>, filename: string, rules: Rules, p: Platform): (kept: seq<string>)
    ensures forall i :: 0 <= i < |kept| ==> kept[i] != filename
    ensures forall i :: 0 <= i < |kept| ==> Text.Strip(Text.Lower(kept[i])) !in LowerAll(rules.foldersToSkip)
    ensures forall i :: 0 <= i < |kept| ==> !(rules.skipRegex != "" && p.matches(rules.skipRegex, kept[i]))
    ensures forall i :: 0 <= i < |clean| && !IsSkipped(clean[i], filename, rules, p) ==> clean[i] in kept
  {
    Seqs.Filter(clean, Keeps(filename, rules, p))
  }

  /** The kept components are an order-preserving selection of the trimmed path. */
  lemma KeptPartsInOrder(clean: seq<string>, filename: string, rules: Rules, p: Platform)
    ensures Seqs.IsSubsequence(KeptParts(clean, filename, rules, p), clean)
  {
    Seqs.FilterIsSubsequence(clean, Keeps(filename, rules, p));
  }

  /** Lines 59-118 for one entry: `None` when the entry is dropped. Once the path has an
      `HR` component, `os.path.join` at line 90 raises unless the file name is text. */
  function RestructureEntry(e: SourceEntry, rules: Rules, p: Platform): (r: Result<Option<Moved>>)
    ensures r.Success? && r.value.Some? ==>
      && e.filename == JStr(r.value.value.filename)
      && r.value.value.oldPath == e.oldPath && r.value.value.metadata == e.metadata
    ensures r.Success? && r.value.Some? ==> (
      var m := r.value.value;
      && |m.newParts| >= 2 && m.newParts[0] == rules.targetRoot
      && m.newParts[|m.newParts| - 1] == m.filename
      && m.newPath == p.join(m.newParts))
  {
    match TrimToHR(Text.Split(e.oldPath, p.sep))
    case None => Success(None)
    case Some(clean) =>
      if !e.filename.JStr? then Failure(BadField("filename"))
      else
        var filename := e.filename.s;
        var parts := [rules.targetRoot] + KeptParts(clean, filename, rules, p) + [filename];
        if !rules.dryRun && !p.sourceExists(clean) then Success(None)
        else Success(Some(Moved(filename, e.oldPath, parts, p.join(parts), e.metadata)))
  }

  /** An entry without an `HR` component is dropped whatever its file name; one with it
      raises exactly when the file name is not text, and is otherwise kept exactly when, outside
      a dry run, its source file exists; the new path is the target root, the kept folders and
      the file name. */
  lemma RestructureEntryKeptIff(e: SourceEntry, rules: Rules, p: Platform)
    ensures var parts := Text.Split(e.oldPath, p.sep);
      RestructureEntry(e, rules, p).Failure? <==> "HR" in parts && !e.filename.JStr?
    ensures var parts := Text.Split(e.oldPath, p.sep);
      RestructureEntry(e, rules, p) == Success(None) <==>
        "HR" !in parts || (e.filename.JStr? && !rules.dryRun && !p.sourceExists(TrimToHR(parts).value))
    ensures var parts := Text.Split(e.oldPath, p.sep);
      var r := RestructureEntry(e, rules, p);
      r.Success? && r.value.Some? ==>
        r.value.value.newParts ==
          [rules.targetRoot] + KeptParts(TrimToHR(parts).value, e.filename.s, rules, p) + [e.filename.s]
  {
  }

  /** What the loop body does with one raw entry: raise, drop it, or restructure it. */
  function Outcome(v: Json, rules: Rules, p: Platform): Result<Option<Moved>> {
    match ParseEntry(v)
    case Failure(err) => Failure(err)
    case Success(e) => RestructureEntry(e, rules, p)
  }

  /** The loop of lines 44-118 with its body as `step`: the entries in order, the first
      raise ending the script, the dropped entries left out. */
  function Gather(entries: seq<Json>, step: Json -> Result<Option<Moved>>): (r: Result<seq<Moved>>)
    ensures r.Success? <==> forall i :: 0 <= i < |entries| ==> step(entries[i]).Success?
    ensures r.Success? ==> |r.value| <= |entries|
    decreases |entries|
  {
    if |entries| == 0 then Success([])
    else
      assert forall j :: 0 < j < |entries| ==> entries[j] == entries[1..][j - 1];
      var head :- step(entries[0]);
      var rest :- Gather(entries[1..], step);
      match head
      case None => Success(rest)
      case Some(m) => Success([m] + rest)
  }

  /** A successful loop outputs exactly what the steps produced: each item a step produces
      appears in the output, and each output item was produced by some step. */
  lemma {:induction false} GatherOutputs(entries: seq<Json>, step: Json -> Result<Option<Moved>>)
    requires Gather(entries, step).Success?
    ensures var out := Gather(entries, step).value;
      forall j :: 0 <= j < |entries| && step(entries[j]).value.Some? ==> step(entries[j]).value.value in out
    ensures var out := Gather(entries, step).value;
      forall i :: 0 <= i < |out| ==> exists j :: 0 <= j < |entries| && step(entries[j]) == Success(Some(out[i]))
    decreases |entries|
  {
    if |entries| > 0 {
      var rest := entries[1..];
      assert step(entries[0]).Success?;
      GatherOutputs(rest, step);
      var tail := Gather(rest, step).value;
      var out := Gather(entries, step).value;
      var head := step(entries[0]).value;
      assert out == (if head.Some? then [head.value] + tail else tail);
      forall j | 0 < j < |entries| ensures entries[j] == rest[j - 1] {}
      forall i | 0 <= i < |out| ensures exists j :: 0 <= j < |entries| && step(entries[j]) == Success(Some(out[i])) {
        if head.Some? && i == 0 {
          assert step(entries[0]) == Success(Some(out[0]));
        } else {
          var k := if head.Some? then i - 1 else i;
          assert out[i] == tail[k];
          var j :| 0 <= j < |rest| && step(rest[j]) == Success(Some(tail[k]));
          assert step(entries[j + 1]) == Success(Some(out[i]));
        }
      }
    }
  }

  /** The loop body for one raw entry, as a step. */
  function EntryStep(rules: Rules, p: Platform): Json -> Result<Option<Moved>> {
    v => Outcome(v, rules, p)
  }

  /** Lines 44-118: every entry in order; an entry that raises ends the script, so the run
      succeeds exactly when no entry raises. */
  function RestructureAll(entries: seq<Json>, rules: Rules, p: Platform): (r: Result<seq<Moved>>)
    ensures r.Success? <==> forall i :: 0 <= i < |entries| ==> Outcome(entries[i], rules, p).Success?
    ensures r.Success? ==> |r.value| <= |entries|
  {
    Gather(entries, EntryStep(rules, p))
  }

  /** A successful run outputs exactly the restructured entries: each one an entry
      restructures appears in it, and each item of it is the restructuring of some entry. */
  lemma RestructureAllOutputs(entries: seq<Json>, rules: Rules, p: Platform)
    requires RestructureAll(entries, rules, p).Success?
    ensures var out := RestructureAll(entries, rules, p).value;
      forall j :: 0 <= j < |entries| && Outcome(entries[j], rules, p).value.Some? ==>
        Outcome(entries[j], rules, p).value.value in out
    ensures var out := RestructureAll(entries, rules, p).value;
      forall i :: 0 <= i < |out| ==> exists j :: 0 <= j < |entries| && Outcome(entries[j], rules, p) == Success(Some(out[i]))
  {
    GatherOutputs(entries, EntryStep(rules, p));
  }

  /** In a dry run, an entry's fate depends only on whether its path has an `HR` component. */
  lemma {:induction false} DryRunKeepsEveryHREntry(entries: seq<Json>, rules: Rules, p: Platform)
    requires rules.dryRun
    requires RestructureAll(entries, rules, p).Success?
    ensures |RestructureAll(entries, rules, p).value| == CountWithHR(entries, p.sep)
    decreases |entries|
  {
    if |entries| > 0 {
      assert Outcome(entries[0], rules, p).Success?;
      DryRunKeepsEveryHREntry(entries[1..], rules, p);
      var e := ParseEntry(entries[0]).value;
      RestructureEntryKeptIff(e, rules, p);
    }
  }

  /** The number of entries whose path has an `HR` component. */
  function CountWithHR(entries: seq<Json>, sep: char): nat {
    if |entries| == 0 then 0
    else
      var hasHR := ParseEntry(entries[0]).Success? && "HR" in Text.Split(ParseEntry(entries[0]).value.oldPath, sep);
      (if hasHR then 1 else 0) + CountWithHR(entries[1..], sep)
  }

  /** Lines 121-126: the CSV columns, in order. */
  const Headers: seq<string> := [
    "File Name", "Classification", "Document Sub Type", "Quick Reference",
    "Document Date", "Expiry Date", "Offsite Location", "On-Premises Location",
    "Remarks", "Keywords", "Document Type", "Document SubType Internal",
    "Lifespan", "Category"]

  /** `meta.get(k, "")`. */
  function GetOrEmpty(meta: map<string, Json>, k: string): Json {
    if k in meta then meta[k] else JStr("")
  }

  /** Lines 130-146: one CSV row. `meta.get` raises when the metadata is not an object. */
  function CsvRow(m: Moved): (r: Result<map<string, Json>>)
    ensures r.Success? <==> m.metadata.JObject?
    ensures r.Success? ==> r.value.Keys == set h | h in Headers
    ensures r.Success? ==> r.value["File Name"] == JStr(m.filename)
    ensures r.Success? ==> forall h :: h in Headers && h != "File Name" ==>
      r.value[h] == (if h in m.metadata.fields then m.metadata.fields[h] else JStr(""))
  {
    if !m.metadata.JObject? then Failure(NotAnObject)
    else
      var meta := m.metadata.fields;
      Success(map h | h in Headers :: if h == "File Name" then JStr(m.filename) else GetOrEmpty(meta, h))
  }

  /** There are 14 distinct columns, and "File Name" is the first. */
  lemma HeadersAreDistinct()
    ensures |Headers| == 14 && Headers[0] == "File Name"
    ensures forall i, j :: 0 <= i < j < |Headers| ==> Headers[i] != Headers[j]
  {
  }

  /** Lines 128-147: all rows, in the order of the restructured entries. */
  function CsvRows(moved: seq<Moved>): (r: Result<seq<map<string, Json>>>)
    ensures r.Success? <==> forall i :: 0 <= i < |moved| ==> moved[i].metadata.JObject?
    ensures r.Success? ==> |r.value| == |moved| && forall i :: 0 <= i < |moved| ==> CsvRow(moved[i]) == Success(r.value[i])
    decreases |moved|
  {
    if |moved| == 0 then Success([])
    else
      assert forall i :: 0 < i < |moved| ==> moved[i] == moved[1..][i - 1];
      var row :- CsvRow(moved[0]);
      var rest :- CsvRows(moved[1..]);
      Success([row] + rest)
  }

  /** Lines 113-118: the JSON of a restructured entry. */
  function MovedJson(m: Moved): Json {
    JObject(map["filename" := JStr(m.filename), "old_path" := JStr(m.oldPath),
                "new_path" := JStr(m.newPath), "metadata" := m.metadata])
  }

  /** Lines 161-167: the version-2 manifest; `restructured_at` (the clock) is not modelled. */
  function ManifestV2(timestamp: Json, moved: seq<Moved>): (v: Json)
    ensures v.JObject?
    ensures Get(v.fields, "total_files") == JInt(|moved|)
    ensures Get(v.fields, "structure_version") == JStr("2.0")
    ensures Get(v.fields, "files").JArray? && |Get(v.fields, "files").items| == |moved|
    ensures forall i :: 0 <= i < |moved| ==> Get(v.fields, "files").items[i] == MovedJson(moved[i])
  {
    JObject(map[
      "timestamp" := timestamp,
      "total_files" := JInt(|moved|),
      "structure_version" := JStr("2.0"),
      "files" := JArray(seq(|moved|, i requires 0 <= i < |moved| => MovedJson(moved[i])))])
  }
}
