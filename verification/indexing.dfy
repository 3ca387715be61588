/** indexing.py: the metadata pass over the restructured manifest. Each entry's path is
    split into folders and a file name, its metadata is translated into a plan of form
    actions, and the pass tallies successes, failures and skips. */
module Indexing {
  import opened Wrappers
  import opened Json

  /** Lines 65-68: the filled width of the progress bar, `length * current // total`. */
  function Filled(length: nat, current: nat, total: nat): (filled: nat)
    requires total > 0
    ensures current <= total ==> filled <= length
    ensures current == total ==> filled == length
    ensures current == 0 ==> filled == 0
  {
    FilledBounds(length, current, total);
    length * current / total
  }

  lemma FilledBounds(length: nat, current: nat, total: nat)
    requires total > 0
    ensures current <= total ==> length * current / total <= length
    ensures current == total ==> length * current / total == length
    ensures current == 0 ==> length * current / total == 0
  {
    if current <= total {
      MulMonotone(length, current, total);
      DivMonotone(length * current, length * total, total);
      MulDivCancel(length, total);
    }
  }

  lemma MulDivCancel(k: nat, d: nat)
    requires d > 0
    ensures k * d / d == k
  {
    var q: nat, m: nat := k * d / d, k * d % d;
    assert k * d == q * d + m && m < d;
    MulStep(d, q, k);
    MulStep(d, k, q);
  }

  /** Between distinct multiples of `d` lies at least `d`. */
  lemma MulStep(d: nat, a: nat, b: nat)
    ensures a < b ==> d * a + d <= d * b
  {
    if a < b {
      MulMonotone(d, a + 1, b);
    }
  }

  lemma MulMonotone(k: nat, a: nat, b: nat)
    requires a <= b
    ensures k * a <= k * b
  {
    assert k * b == k * a + k * (b - a);
  }

  lemma DivMonotone(a: nat, b: nat, d: nat)
    requires d > 0 && a <= b
    ensures a / d <= b / d
  {
    var qa: nat, qb: nat := a / d, b / d;
    assert a == qa * d + a % d && b == qb * d + b % d;
    MulStep(d, qb, qa);
  }

  /** `c * n` for a non-negative `n`; a negative count gives the empty string, as in Python. */
  function Repeat(c: char, n: int): (s: string)
    ensures |s| == if n < 0 then 0 else n
    ensures forall i :: 0 <= i < |s| ==> s[i] == c
  {
    if n <= 0 then [] else [c] + Repeat(c, n - 1)
  }

  /** Lines 65-67: the bar, `filled` full cells and then empty ones. `float(total)` raises on
      a zero total, so the bar needs a positive one. */
  function Bar(length: nat, current: nat, total: nat): (bar: string)
    requires total > 0
    ensures current <= total ==> |bar| == length
    ensures forall i :: 0 <= i < |bar| ==> (bar[i] == '█' <==> i < Filled(length, current, total))
  {
    var filled := Filled(length, current, total);
    Repeat('█', filled) + Repeat('░', length - filled)
  }

  /** A bar never shrinks as the count advances. */
  lemma FilledMonotone(length: nat, c1: nat, c2: nat, total: nat)
    requires total > 0 && c1 <= c2
    ensures Filled(length, c1, total) <= Filled(length, c2, total)
  {
    MulMonotone(length, c1, c2);
    DivMonotone(length * c1, length * c2, total);
  }

  /** Line 626-630: the export folders a manifest path may start with. */
  const TechnicalFolders: seq<string> := ["vmr_downloads", "restructured_output", "vmr_test"]

  /** Lines 621-638: the folders and file name of a manifest path, given its components
      (`Path(path).parts`). Only a leading technical folder is dropped. */
  function SplitManifestPath(parts: seq<string>): (r: (seq<string>, string))
    ensures var rest := if |parts| > 0 && parts[0] in TechnicalFolders then parts[1..] else parts;
      if |rest| > 0 then r.0 + [r.1] == rest else r == ([], "")
  {
    var rest := if |parts| > 0 && parts[0] in TechnicalFolders then parts[1..] else parts;
    if |rest| > 0 then (rest[..|rest| - 1], rest[|rest| - 1]) else ([], "")
  }

  /** A component other than the first is never dropped, so a path with no technical
      folder in front keeps every folder. */
  lemma SplitKeepsOtherFolders(parts: seq<string>)
    requires |parts| > 0 && parts[0] !in TechnicalFolders
    ensures SplitManifestPath(parts).0 == parts[..|parts| - 1]
    ensures SplitManifestPath(parts).1 == parts[|parts| - 1]
  {
    var r := SplitManifestPath(parts);
    assert r.0 + [r.1] == parts;
    assert parts[..|parts| - 1] == (r.0 + [r.1])[..|r.0|];
  }

  /** Lines 35-45. */
  const ClassificationMap: map<string, string> := map[
    "HR - Annual Review" := "vmr_HRannualreviewRelated",
    "HR - Current Employment" := "vmr_HRcurrentEmploymentRelated",
    "HR - Educational" := "vmr_HReducationalRelated",
    "HR - Exit Formalities" := "vmr_HRexitRelated",
    "HR - Past Employment" := "vmr_HRpastemploymentRelated",
    "HR - Personal / KYC" := "vmr_HRpersonalkycRelated",
    "HR - Recruitment" := "vmr_HRrecruitmentRelated",
    "HR - Statutory" := "vmr_HRstatutoryRelated",
    "HR - Verification" := "vmr_HRverificationRelated"]

  /** Lines 47-51. */
  const CategoryMap: map<string, string> := map["Normal" := "NORM", "Confidential" := "CONF", "Highly Secure" := "HCONF"]

  /** Lines 497-506: the plain text fields and their form selectors, in fill order. */
  const TextFields: seq<(string, string)> := [
    ("Quick Reference", "#vmr_quickref"),
    ("Document Date", "#vmr_docdate"),
    ("Expiry Date", "#vmr_expirydate"),
    ("Offsite Location", "#vmr_geotag"),
    ("On-Premises Location", "#vmr_offpremise"),
    ("Remarks", "#vmr_remarks"),
    ("Keywords", "#vmr_keywords"),
    ("Document Type", "#vmr_doctype")]

  const ClassificationSelector: string := "#fileContentType"
  const LifespanSelector: string := "#vmr_doclifespan"
  const CategorySelector: string := "#vmr_category"

  /** One form change `fill_metadata` attempts. */
  datatype Action =
    | Choose(selector: string, value: Json)  // `page.select_option(selector, value=…)`
    | ChooseSubtype(value: Json)             // the first visible sub-type dropdown (lines 477-495)
    | Fill(selector: string, value: Json)    // `page.fill(selector, str(value))`

  /** `value and value in table`: a falsy value is passed over, a truthy unhashable one makes
      the membership test raise, and only a string key of the table is translated. */
  function Translate(v: Json, table: map<string, string>): (r: Result<Option<string>>)
    ensures r.Failure? <==> Truthy(v) && !Hashable(v)
    ensures r.Success? && r.value.Some? <==> v.JStr? && v.s != "" && v.s in table
    ensures r.Success? && r.value.Some? ==> r.value.value == table[v.s]
  {
    if !Truthy(v) then Success(None)
    else if !Hashable(v) then Failure(Unhashable)
    else if v.JStr? && v.s in table then Success(Some(table[v.s]))
    else Success(None)
  }

  /** Python's `a or b`. */
  function Or(a: Json, b: Json): (r: Json)
    ensures Truthy(r) <==> Truthy(a) || Truthy(b)
    ensures r == a || r == b
  {
    if Truthy(a) then a else b
  }

  /** Lines 510-517: one fill per text field whose value is truthy, in field order. */
  function TextActions(meta: map<string, Json>, fields: seq<(string, string)>): (r: seq<Action>)
    ensures |r| <= |fields|
    ensures forall a :: a in r ==> a.Fill? && Truthy(a.value)
    ensures forall i :: 0 <= i < |fields| && Truthy(Get(meta, fields[i].0)) ==>
      Fill(fields[i].1, Get(meta, fields[i].0)) in r
    ensures forall a :: a in r ==> exists i :: 0 <= i < |fields| && a == Fill(fields[i].1, Get(meta, fields[i].0))
  {
    if |fields| == 0 then []
    else
      var v := Get(meta, fields[0].0);
      var rest := TextActions(meta, fields[1..]);
      assert forall a :: a in rest ==> exists i :: 0 < i < |fields| && a == Fill(fields[i].1, Get(meta, fields[i].0)) by {
        forall a | a in rest ensures exists i :: 0 < i < |fields| && a == Fill(fields[i].1, Get(meta, fields[i].0)) {
          var j :| 0 <= j < |fields[1..]| && a == Fill(fields[1..][j].1, Get(meta, fields[1..][j].0));
          assert fields[1..][j] == fields[j + 1];
        }
      }
      if Truthy(v) then [Fill(fields[0].1, v)] + rest else rest
  }

  /** A translated choice: one action when the value translated, none otherwise. */
  function Choice(selector: string, code: Option<string>): (r: seq<Action>)
    ensures forall a :: a in r ==> a.Choose? && a.selector == selector
    ensures forall c :: Choose(selector, JStr(c)) in r <==> code == Some(c)
  {
    if code.Some? then [Choose(selector, JStr(code.value))] else []
  }

  /** Lines 475-527: the sub-type choice, the text fills and the lifespan choice. */
  function Middle(meta: map<string, Json>): (r: seq<Action>)
    ensures forall a :: a in r ==> !a.Choose? || a.selector == LifespanSelector
    ensures forall a :: a in r && a.ChooseSubtype? ==>
      a.value == Or(Get(meta, "Document Sub Type"), Get(meta, "Document SubType Internal"))
    ensures ChooseSubtype(Or(Get(meta, "Document Sub Type"), Get(meta, "Document SubType Internal"))) in r <==>
      Truthy(Get(meta, "Document Sub Type")) || Truthy(Get(meta, "Document SubType Internal"))
    ensures forall a :: a in r && a.Fill? ==> a in TextActions(meta, TextFields)
    ensures forall a :: a in TextActions(meta, TextFields) ==> a in r
  {
    var subtype := Or(Get(meta, "Document Sub Type"), Get(meta, "Document SubType Internal"));
    var lifespan := Get(meta, "Lifespan");
    (if Truthy(subtype) then [ChooseSubtype(subtype)] else [])
    + TextActions(meta, TextFields)
    + (if Truthy(lifespan) then [Choose(LifespanSelector, lifespan)] else [])
  }

  /** Lines 458-535: the actions `fill_metadata` attempts, in order. It raises when the
      metadata is not a dict or a classification or category value cannot be looked up. */
  function Plan(metadata: Json): (r: Result<seq<Action>>)
    ensures r.Failure? <==>
      !metadata.JObject?
      || (var cls := Get(metadata.fields, "Classification"); Truthy(cls) && !Hashable(cls))
      || (var cat := Get(metadata.fields, "Category"); Truthy(cat) && !Hashable(cat))
  {
    if !metadata.JObject? then Failure(NotAnObject)
    else
      var meta := metadata.fields;
      var cls :- Translate(Get(meta, "Classification"), ClassificationMap);
      var cat :- Translate(Get(meta, "Category"), CategoryMap);
      Success(Choice(ClassificationSelector, cls) + Middle(meta) + Choice(CategorySelector, cat))
  }

  /** Every action of a plan is a translated choice, one of the middle actions, or the
      translated category. */
  lemma PlanParts(metadata: Json)
    requires Plan(metadata).Success?
    ensures var meta := metadata.fields;
      Plan(metadata).value ==
        Choice(ClassificationSelector, Translate(Get(meta, "Classification"), ClassificationMap).value)
        + Middle(meta)
        + Choice(CategorySelector, Translate(Get(meta, "Category"), CategoryMap).value)
  {
  }

  /** Neither table translates the empty string. */
  lemma NoEmptyKeys()
    ensures "" !in ClassificationMap && "" !in CategoryMap
  {
  }

  /** A translated choice selects `code` exactly when the value is a key mapped to it. */
  lemma TranslatedChoice(selector: string, v: Json, table: map<string, string>, code: string)
    requires "" !in table && Translate(v, table).Success?
    ensures Choose(selector, JStr(code)) in Choice(selector, Translate(v, table).value) <==>
      v.JStr? && v.s in table && table[v.s] == code
  {
  }

  /** The classification choice is planned exactly when the value is a key of the
      classification table, and it selects the mapped code. */
  lemma ClassificationPlanned(metadata: Json, code: string)
    requires Plan(metadata).Success?
    ensures Choose(ClassificationSelector, JStr(code)) in Plan(metadata).value <==>
      (var cls := Get(metadata.fields, "Classification");
       cls.JStr? && cls.s in ClassificationMap && ClassificationMap[cls.s] == code)
  {
    var meta := metadata.fields;
    var a := Choose(ClassificationSelector, JStr(code));
    PlanParts(metadata);
    assert LifespanSelector != ClassificationSelector && CategorySelector != ClassificationSelector;
    assert a !in Middle(meta);
    assert a !in Choice(CategorySelector, Translate(Get(meta, "Category"), CategoryMap).value);
    NoEmptyKeys();
    TranslatedChoice(ClassificationSelector, Get(meta, "Classification"), ClassificationMap, code);
  }

  /** The category choice is planned exactly when the value is a key of the category table,
      and it selects the mapped code. */
  lemma CategoryPlanned(metadata: Json, code: string)
    requires Plan(metadata).Success?
    ensures Choose(CategorySelector, JStr(code)) in Plan(metadata).value <==>
      (var cat := Get(metadata.fields, "Category");
       cat.JStr? && cat.s in CategoryMap && CategoryMap[cat.s] == code)
  {
    var meta := metadata.fields;
    var a := Choose(CategorySelector, JStr(code));
    PlanParts(metadata);
    assert LifespanSelector != CategorySelector && ClassificationSelector != CategorySelector;
    assert a !in Middle(meta);
    assert a !in Choice(ClassificationSelector, Translate(Get(meta, "Classification"), ClassificationMap).value);
    NoEmptyKeys();
    TranslatedChoice(CategorySelector, Get(meta, "Category"), CategoryMap, code);
  }

  /** The sub-type choice uses "Document Sub Type" and falls back to "Document SubType
      Internal" when that is falsy; with both falsy there is none. */
  lemma SubtypeFallsBack(metadata: Json)
    requires Plan(metadata).Success?
    ensures var sub := Get(metadata.fields, "Document Sub Type");
      var internal := Get(metadata.fields, "Document SubType Internal");
      (Truthy(sub) ==> ChooseSubtype(sub) in Plan(metadata).value)
      && (!Truthy(sub) && Truthy(internal) ==> ChooseSubtype(internal) in Plan(metadata).value)
      && (!Truthy(sub) && !Truthy(internal) ==> forall a :: a in Plan(metadata).value ==> !a.ChooseSubtype?)
  {
    PlanParts(metadata);
    MiddleSubtype(metadata.fields);
  }

  /** The sub-type choice among the middle actions, with the fallback written out. */
  lemma MiddleSubtype(meta: map<string, Json>)
    ensures var sub := Get(meta, "Document Sub Type");
      var internal := Get(meta, "Document SubType Internal");
      (Truthy(sub) ==> ChooseSubtype(sub) in Middle(meta))
      && (!Truthy(sub) && Truthy(internal) ==> ChooseSubtype(internal) in Middle(meta))
      && (!Truthy(sub) && !Truthy(internal) ==> forall a :: a in Middle(meta) ==> !a.ChooseSubtype?)
  {
    var sub := Get(meta, "Document Sub Type");
    var internal := Get(meta, "Document SubType Internal");
    assert Or(sub, internal) == if Truthy(sub) then sub else internal;
  }

  /** The text-field selectors are pairwise distinct. */
  lemma TextSelectorsDistinct(i: nat, j: nat)
    requires i < |TextFields| && j < |TextFields| && TextFields[i].1 == TextFields[j].1
    ensures i == j
  {
  }

  /** A text field is filled exactly when its value is truthy. */
  lemma TextFieldFilledIff(metadata: Json, i: nat)
    requires Plan(metadata).Success? && i < |TextFields|
    ensures var v := Get(metadata.fields, TextFields[i].0);
      Fill(TextFields[i].1, v) in Plan(metadata).value <==> Truthy(v)
  {
    var meta := metadata.fields;
    var v := Get(meta, TextFields[i].0);
    var f := Fill(TextFields[i].1, v);
    var ts := TextActions(meta, TextFields);
    PlanParts(metadata);
    if f in Plan(metadata).value {
      assert f in Middle(meta);
      assert f in ts;
      var j :| 0 <= j < |TextFields| && f == Fill(TextFields[j].1, Get(meta, TextFields[j].0));
      TextSelectorsDistinct(i, j);
    }
  }

  /** How many planned actions the page accepted (`changes`). */
  function Changes(plan: seq<Action>, accepted: Action -> bool): (n: nat)
    ensures n <= |plan|
    ensures n == 0 <==> forall i :: 0 <= i < |plan| ==> !accepted(plan[i])
  {
    if |plan| == 0 then 0
    else
      assert forall i :: 0 < i < |plan| ==> plan[i] == plan[1..][i - 1];
      (if accepted(plan[0]) then 1 else 0) + Changes(plan[1..], accepted)
  }

  /** What `fill_metadata` came to. */
  datatype FillOutcome =
    | Raised                   // the outer `except` caught an exception: `False`
    | NothingToSave            // no change was accepted: `True` without saving
    | SaveClicked(closed: bool) // the form was saved; `True` exactly when the panel closed

  /** Lines 458-590: the page accepts some actions (`accepted`) and, when the form is saved,
      the panel closes or not (`closes`). */
  function FillMetadata(metadata: Json, accepted: Action -> bool, closes: bool): (r: FillOutcome)
    ensures r.Raised? <==> Plan(metadata).Failure?
    ensures r.NothingToSave? <==> Plan(metadata).Success? && Changes(Plan(metadata).value, accepted) == 0
    ensures r.SaveClicked? ==> r.closed == closes
  {
    match Plan(metadata)
    case Failure(_) => Raised
    case Success(plan) =>
      if Changes(plan, accepted) == 0 then NothingToSave else SaveClicked(closes)
  }

  /** `fill_metadata`'s return value. */
  function Succeeded(o: FillOutcome): bool {
    o.NothingToSave? || (o.SaveClicked? && o.closed)
  }

  /** Metadata with nothing to translate needs no save and counts as success. */
  lemma NothingToFillSucceeds(accepted: Action -> bool, closes: bool)
    ensures FillMetadata(JObject(map[]), accepted, closes) == NothingToSave
    ensures Succeeded(FillMetadata(JObject(map[]), accepted, closes))
  {
    assert TextActions(map[], TextFields) == [];
  }

  /** Line 727: `new_path`, else `path`, else `old_path`, by truthiness. */
  function ManifestPath(fields: map<string, Json>): (p: Json)
    ensures Truthy(Get(fields, "new_path")) ==> p == Get(fields, "new_path")
    ensures !Truthy(Get(fields, "new_path")) && Truthy(Get(fields, "path")) ==> p == Get(fields, "path")
    ensures !Truthy(Get(fields, "new_path")) && !Truthy(Get(fields, "path")) ==> p == Get(fields, "old_path")
  {
    Or(Or(Get(fields, "new_path"), Get(fields, "path")), Get(fields, "old_path"))
  }

  /** Line 726: `entry.get('metadata', {}) or {}`. */
  function MetadataOf(fields: map<string, Json>): (m: Json)
    ensures Truthy(m) <==> Truthy(Get(fields, "metadata"))
  {
    Or(Get(fields, "metadata"), JObject(map[]))
  }

  /** Which counter an entry increments. */
  datatype Verdict = Skipped | Migrated | NotMigrated

  /** The collaborators of the tally loop: `Path(path).parts`, and `process_single_file`,
      whose navigation and form filling run in the browser. */
  datatype Page = Page(parts: string -> seq<string>, process: (string, Json, seq<string>) -> bool)

  /** An entry that passed the skip test: its path is split and the file processed.
      `Path()` raises on a path that is not a string. */
  function Process(fields: map<string, Json>, page: Page): (r: Result<Verdict>)
    ensures r.Success? <==> ManifestPath(fields).JStr?
    ensures r.Success? ==> !r.value.Skipped?
  {
    var path := ManifestPath(fields);
    if !path.JStr? then Failure(BadField("path"))
    else
      var (folders, fname) := SplitManifestPath(page.parts(path.s));
      Success(if page.process(fname, MetadataOf(fields), folders) then Migrated else NotMigrated)
  }

  /** `filename[:40]` in the progress suffix: only strings and lists can be sliced. */
  function SliceCheck(filename: Json): (r: Result<()>)
    ensures r.Success? <==> filename.JStr? || filename.JArray?
  {
    if filename.JStr? || filename.JArray? then Success(())
    else if filename.JNull? then Failure(NoneValue("filename"))
    else Failure(BadField("filename"))
  }

  /** Lines 724-744 for one entry, as written: the progress bar slices the file name before
      the skip test looks at it. */
  function ClassifyAsWritten(entry: Json, page: Page): (r: Result<Verdict>)
    ensures r.Success? && r.value.Skipped? <==>
      entry.JObject? && (Get(entry.fields, "filename").JStr? || Get(entry.fields, "filename").JArray?)
      && (!Truthy(Get(entry.fields, "filename")) || !Truthy(Get(entry.fields, "metadata")))
  {
    if !entry.JObject? then Failure(NotAnObject)
    else
      var filename := Get(entry.fields, "filename");
      var _ :- SliceCheck(filename);
      if !Truthy(filename) || !Truthy(MetadataOf(entry.fields)) then Success(Skipped)
      else Process(entry.fields, page)
  }

  /** The same step with the skip test first, as the loop evidently intends: an entry with no
      file name or no metadata is skipped, whatever its type. */
  function Classify(entry: Json, page: Page): (r: Result<Verdict>)
    ensures r.Success? && r.value.Skipped? <==>
      entry.JObject? && (!Truthy(Get(entry.fields, "filename")) || !Truthy(Get(entry.fields, "metadata")))
    ensures entry.JObject? && r != ClassifyAsWritten(entry, page) ==>
      r.Success? && r.value.Skipped? && !(Get(entry.fields, "filename").JStr? || Get(entry.fields, "filename").JArray?)
  {
    if !entry.JObject? then Failure(NotAnObject)
    else
      var filename := Get(entry.fields, "filename");
      if !Truthy(filename) || !Truthy(MetadataOf(entry.fields)) then Success(Skipped)
      else
        var _ :- SliceCheck(filename);
        Process(entry.fields, page)
  }

  /** The three counters. */
  datatype Counts = Counts(success: nat, fail: nat, skip: nat) {
    function Total(): nat { success + fail + skip }

    function Add(v: Verdict): Counts {
      match v
      case Skipped => Counts(success, fail, skip + 1)
      case Migrated => Counts(success + 1, fail, skip)
      case NotMigrated => Counts(success, fail + 1, skip)
    }
  }

  /** Lines 720-744: the counters after the loop; an exception in any step ends the run. */
  function Tally<E>(files: seq<E>, classify: E -> Result<Verdict>): (r: Result<Counts>)
    ensures r.Success? ==> r.value.Total() == |files|
    ensures r.Failure? ==> exists i :: 0 <= i < |files| && classify(files[i]) == Failure(r.error)
    decreases |files|
  {
    if |files| == 0 then Success(Counts(0, 0, 0))
    else
      assert forall i :: 0 < i < |files| ==> files[i] == files[1..][i - 1];
      var v :- classify(files[0]);
      var rest :- Tally(files[1..], classify);
      Success(rest.Add(v))
  }

  /** The number of entries that get verdict `v`, given that every step succeeds. */
  function CountOf<E>(files: seq<E>, classify: E -> Result<Verdict>, v: Verdict): nat
    decreases |files|
  {
    if |files| == 0 then 0
    else (if classify(files[0]) == Success(v) then 1 else 0) + CountOf(files[1..], classify, v)
  }

  /** Each entry increments exactly one counter: the counters are the verdict counts (and,
      by the contract of `Tally`, they add up to the number of files). */
  lemma {:induction false} TallyCountsEveryEntry<E>(files: seq<E>, classify: E -> Result<Verdict>)
    requires Tally(files, classify).Success?
    ensures var c := Tally(files, classify).value;
      c.success == CountOf(files, classify, Migrated)
      && c.fail == CountOf(files, classify, NotMigrated)
      && c.skip == CountOf(files, classify, Skipped)
    decreases |files|
  {
    if |files| > 0 {
      TallyCountsEveryEntry(files[1..], classify);
    }
  }

  /** The loop completes exactly when no entry raises. */
  lemma {:induction false} TallyCompletesIff<E>(files: seq<E>, classify: E -> Result<Verdict>)
    ensures Tally(files, classify).Success? <==> forall i :: 0 <= i < |files| ==> classify(files[i]).Success?
    decreases |files|
  {
    if |files| > 0 {
      TallyCompletesIff(files[1..], classify);
      assert forall i :: 0 < i < |files| ==> files[i] == files[1..][i - 1];
    }
  }

  /** As written, an entry without a `filename` key ends the whole run at the progress bar. */
  lemma MissingFilenameEndsRun(page: Page)
    ensures var entry := JObject(map["metadata" := JObject(map["Remarks" := JStr("x")])]);
      Tally([entry], e => ClassifyAsWritten(e, page)).Failure?
  {
    var entry := JObject(map["metadata" := JObject(map["Remarks" := JStr("x")])]);
    assert ClassifyAsWritten(entry, page).Failure?;
  }

  /** With the skip test first, the same entry is counted as skipped. */
  lemma MissingFilenameIsSkipped(page: Page)
    ensures var entry := JObject(map["metadata" := JObject(map["Remarks" := JStr("x")])]);
      Tally([entry], e => Classify(e, page)) == Success(Counts(0, 0, 1))
  {
    var entry := JObject(map["metadata" := JObject(map["Remarks" := JStr("x")])]);
    var classify := e => Classify(e, page);
    assert classify(entry) == Success(Skipped);
    assert [entry][1..] == [];
    assert Tally([entry][1..], classify) == Success(Counts(0, 0, 0));
  }

  /** With the skip test first, a run over object entries whose processed paths are strings
      completes, and the counters add up to the number of files. */
  lemma {:induction false} CorrectedTallyCompletes(files: seq<Json>, page: Page)
    requires forall i :: 0 <= i < |files| ==> files[i].JObject?
    requires forall i :: 0 <= i < |files| ==> var f := files[i].fields;
      Truthy(Get(f, "filename")) && Truthy(Get(f, "metadata")) ==>
        (Get(f, "filename").JStr? || Get(f, "filename").JArray?) && ManifestPath(f).JStr?
    ensures Tally(files, e => Classify(e, page)).Success?
    ensures Tally(files, e => Classify(e, page)).value.Total() == |files|
  {
    var classify := e => Classify(e, page);
    forall i | 0 <= i < |files| ensures classify(files[i]).Success? {
      var f := files[i].fields;
      assert Truthy(MetadataOf(f)) <==> Truthy(Get(f, "metadata"));
    }
    TallyCompletesIff(files, classify);
  }
}
