/** ipo_automation.py: the three-level folder of a patent-journal part, and the file names
    its PDFs are saved under. */
module Ipo {
  import opened Wrappers
  import Seqs
  import Text

  /** 1 to 12, January to December. */
  type Month = m: int | 1 <= m <= 12 witness 1

  /** What `strptime(pub_date_raw, "%d/%m/%Y")` yields that `strftime("%Y_%B")` uses: the
      year as `%Y` prints it and the month. */
  datatype Date = Date(yearText: string, month: Month)

  /** `%B` in the C locale. */
  const MonthNames: seq<string> := [
    "January", "February", "March", "April", "May", "June",
    "July", "August", "September", "October", "November", "December"]

  /** Line 18: `"%Y_%B"`. */
  function YearMonth(d: Date): (r: string)
    ensures r == d.yearText + "_" + MonthNames[d.month - 1]
    ensures Text.StartsWith(r, d.yearText + "_")
  {
    var r := d.yearText + "_" + MonthNames[d.month - 1];
    assert r[..|d.yearText| + 1] == d.yearText + "_";
    r
  }

  /** Line 14: `journal_id, year = journal_no_raw.split("/")`, which raises unless there are
      exactly two fields. */
  function JournalId(journalNo: string): (r: Result<string>)
    ensures r.Success? <==> |Text.Split(journalNo, '/')| == 2
    ensures r.Success? ==> r.value == Text.Split(journalNo, '/')[0] && '/' !in r.value
  {
    var fields := Text.Split(journalNo, '/');
    if |fields| != 2 then Failure(BadField("journal_no")) else Success(fields[0])
  }

  /** Line 24: the part name stripped, each space replaced by `_`. */
  function PartFolder(partName: string): (r: string)
    ensures ' ' !in r
    ensures |r| == |Text.Strip(partName)|
    ensures forall k :: 0 <= k < |r| ==> r[k] == (if Text.Strip(partName)[k] == ' ' then '_' else Text.Strip(partName)[k])
  {
    var stripped := Text.Strip(partName);
    Text.ReplaceCharByChar(stripped, ' ', '_');
    Text.Replace(stripped, " ", "_")
  }

  /** Lines 8-27: `base_dir / year_month / Journal_<id> / part_folder`, as path components.
      A date that `strptime` rejects raises. */
  function IpoPath(baseDir: string, journalNo: string, pubDate: string, partName: string,
                   parseDate: string -> Option<Date>): (r: Result<seq<string>>)
    ensures r.Success? <==> |Text.Split(journalNo, '/')| == 2 && parseDate(pubDate).Some?
    ensures r.Success? ==> r.value == [baseDir, YearMonth(parseDate(pubDate).value),
                                       "Journal_" + Text.Split(journalNo, '/')[0], PartFolder(partName)]
  {
    var id :- JournalId(journalNo);
    match parseDate(pubDate)
    case None => Failure(BadField("pub_date"))
    case Some(d) => Success([baseDir, YearMonth(d), "Journal_" + id, PartFolder(partName)])
  }

  /** The field after the `/` only has to exist: two journal numbers with the same id give
      the same folder. */
  lemma YearFieldIsIgnored(baseDir: string, id: string, y1: string, y2: string, pubDate: string,
                           partName: string, parseDate: string -> Option<Date>)
    requires '/' !in id && '/' !in y1 && '/' !in y2
    ensures IpoPath(baseDir, id + "/" + y1, pubDate, partName, parseDate)
         == IpoPath(baseDir, id + "/" + y2, pubDate, partName, parseDate)
  {
    Text.SplitJoin([id, y1], '/');
    Text.SplitJoin([id, y2], '/');
    assert Text.Join([id, y1], '/') == id + "/" + y1;
    assert Text.Join([id, y2], '/') == id + "/" + y2;
  }

  /** Line 90: the part name with each space replaced by `_`, and `.pdf`. */
  function SaveName(partName: string): (r: string)
    ensures ' ' !in r
    ensures Text.EndsWith(r, ".pdf")
  {
    Text.ReplaceCharByChar(partName, ' ', '_');
    var r := Text.Replace(partName, " ", "_") + ".pdf";
    assert r[|r| - 4..] == ".pdf";
    r
  }

  /** The part names the page gives are already stripped (line 73), so a PDF is saved under
      its part folder's name with `.pdf` added. */
  lemma SaveNameMatchesFolder(partName: string)
    requires Text.Strip(partName) == partName
    ensures SaveName(partName) == PartFolder(partName) + ".pdf"
  {
  }

  /** A journal row: its number, its publication date and the labels of its "Part" links. */
  datatype Row = Row(journalNo: string, pubDate: string, parts: seq<string>)

  /** Line 73-74: a part whose stripped label is non-empty. */
  function NonBlank(name: string): bool { Text.Strip(name) != "" }

  /** The folder and file name of a non-blank part of a row with the given number and date. */
  function Target(journalNo: string, pubDate: string, name: string, parseDate: string -> Option<Date>): Result<(seq<string>, string)> {
    var part := Text.Strip(name);
    var folder :- IpoPath("final_storage", journalNo, pubDate, part, parseDate);
    Success((folder, SaveName(part)))
  }

  /** The loop over a row's parts with the path step as `step`: blank parts are skipped,
      the first raise ends the row, and the others give one target each, in order. */
  function PartTargets(parts: seq<string>, step: string -> Result<(seq<string>, string)>): (r: Result<seq<(seq<string>, string)>>)
    ensures r.Success? <==> forall i :: 0 <= i < |parts| && NonBlank(parts[i]) ==> step(parts[i]).Success?
    decreases |parts|
  {
    if |parts| == 0 then Success([])
    else
      assert forall i :: 0 < i < |parts| ==> parts[i] == parts[1..][i - 1];
      if !NonBlank(parts[0]) then PartTargets(parts[1..], step)
      else
        match step(parts[0])
        case Failure(e) => Failure(e)
        case Success(t) =>
          match PartTargets(parts[1..], step)
          case Failure(e) => Failure(e)
          case Success(more) => Success([t] + more)
  }

  /** A successful row has one target per non-blank part, in order: target i is what the
      step gives for the i-th non-blank part. */
  lemma {:induction false} PartTargetsFollowParts(parts: seq<string>, step: string -> Result<(seq<string>, string)>)
    requires PartTargets(parts, step).Success?
    ensures var ts := PartTargets(parts, step).value;
      |ts| == |Seqs.Filter(parts, NonBlank)| &&
      forall i :: 0 <= i < |ts| ==> step(Seqs.Filter(parts, NonBlank)[i]) == Success(ts[i])
    decreases |parts|
  {
    if |parts| > 0 {
      var rest := parts[1..];
      PartTargetsFollowParts(rest, step);
      var more := PartTargets(rest, step).value;
      if NonBlank(parts[0]) {
        var t := step(parts[0]).value;
        assert PartTargets(parts, step).value == [t] + more;
        assert Seqs.Filter(parts, NonBlank) == [parts[0]] + Seqs.Filter(rest, NonBlank);
      } else {
        assert Seqs.Filter(parts, NonBlank) == Seqs.Filter(rest, NonBlank);
      }
    }
  }

  /** The path step for one part of a row. */
  function PartStep(row: Row, parseDate: string -> Option<Date>): string -> Result<(seq<string>, string)> {
    name => Target(row.journalNo, row.pubDate, name, parseDate)
  }

  /** Lines 72-78 and 89-91: the folder and file name of every non-empty part of a row, in
      order. The first failing path raises out of the row, which is then skipped as a whole. */
  function RowTargets(row: Row, parseDate: string -> Option<Date>): (r: Result<seq<(seq<string>, string)>>)
    ensures r.Success? <==> forall i :: 0 <= i < |row.parts| && NonBlank(row.parts[i]) ==>
      Target(row.journalNo, row.pubDate, row.parts[i], parseDate).Success?
    ensures r.Success? ==> |r.value| == |Seqs.Filter(row.parts, NonBlank)|
    ensures r.Success? ==> forall i :: 0 <= i < |r.value| ==>
      Target(row.journalNo, row.pubDate, Seqs.Filter(row.parts, NonBlank)[i], parseDate) == Success(r.value[i])
  {
    var r := PartTargets(row.parts, PartStep(row, parseDate));
    if r.Success? then PartTargetsFollowParts(row.parts, PartStep(row, parseDate)); r else r
  }

  /** `rows[:5]`. */
  function FirstFive(rows: seq<Row>): (r: seq<Row>)
    ensures |r| == if |rows| < 5 then |rows| else 5
    ensures r == rows[..|r|]
  {
    if |rows| <= 5 then rows else rows[..5]
  }

  /** The targets of a row, or none when the row raised. */
  function TargetsOf(row: Row, parseDate: string -> Option<Date>): seq<(seq<string>, string)> {
    match RowTargets(row, parseDate) case Success(ts) => ts case Failure(_) => []
  }

  /** The targets of one row, as a step. */
  function RowStep(parseDate: string -> Option<Date>): Row -> seq<(seq<string>, string)> {
    row => TargetsOf(row, parseDate)
  }

  /** A target of the first five rows is a target of one of them. */
  lemma InFirstFive(rows: seq<Row>, parseDate: string -> Option<Date>, t: (seq<string>, string))
    ensures t in Seqs.FlatMap(FirstFive(rows), RowStep(parseDate)) <==> exists i :: 0 <= i < |rows| && i < 5 && t in TargetsOf(rows[i], parseDate)
  {
    var first := FirstFive(rows);
    Seqs.InFlatMap(first, RowStep(parseDate), t);
    if t in Seqs.FlatMap(first, RowStep(parseDate)) {
      var i :| 0 <= i < |first| && t in TargetsOf(first[i], parseDate);
      assert first[i] == rows[i];
    }
    if exists i :: 0 <= i < |rows| && i < 5 && t in TargetsOf(rows[i], parseDate) {
      var i :| 0 <= i < |rows| && i < 5 && t in TargetsOf(rows[i], parseDate);
      assert first[i] == rows[i];
    }
  }

  /** Lines 58-108: the targets of the first five rows, in order; a save is attempted for
      a target exactly when it belongs to one of those rows and that row did not raise. */
  function Targets(rows: seq<Row>, parseDate: string -> Option<Date>): (ts: seq<(seq<string>, string)>)
    ensures forall t :: t in ts <==> exists i :: 0 <= i < |rows| && i < 5 && t in TargetsOf(rows[i], parseDate)
  {
    forall t ensures t in Seqs.FlatMap(FirstFive(rows), RowStep(parseDate)) <==> exists i :: 0 <= i < |rows| && i < 5 && t in TargetsOf(rows[i], parseDate) {
      InFirstFive(rows, parseDate, t);
    }
    Seqs.FlatMap(FirstFive(rows), RowStep(parseDate))
  }

  /** Lines 81-99: the files saved, given the outcome `saves` of each popup-and-print
      attempt. A failed attempt is only reported and the loop goes on, so a file is saved
      exactly when its save was attempted and succeeded. */
  function SavedFiles(rows: seq<Row>, parseDate: string -> Option<Date>, saves: ((seq<string>, string)) -> bool): (fs: seq<(seq<string>, string)>)
    ensures forall t :: t in fs <==> saves(t) && exists i :: 0 <= i < |rows| && i < 5 && t in TargetsOf(rows[i], parseDate)
  {
    var ts := Targets(rows, parseDate);
    var fs := Seqs.Filter(ts, saves);
    forall t ensures t in fs <==> saves(t) && t in ts {
      if t in ts && saves(t) {
        var k :| 0 <= k < |ts| && ts[k] == t;
      }
    }
    fs
  }

  /** A row whose journal number does not split into two fields saves nothing, whatever
      its parts. */
  lemma {:induction false} BadJournalNumberSkipsRow(row: Row, parseDate: string -> Option<Date>)
    requires |Text.Split(row.journalNo, '/')| != 2
    requires exists i :: 0 <= i < |row.parts| && Text.Strip(row.parts[i]) != ""
    ensures RowTargets(row, parseDate).Failure?
    decreases |row.parts|
  {
    if Text.Strip(row.parts[0]) == "" {
      var rest := Row(row.journalNo, row.pubDate, row.parts[1..]);
      var i :| 0 <= i < |row.parts| && Text.Strip(row.parts[i]) != "";
      assert rest.parts[i - 1] == row.parts[i];
      BadJournalNumberSkipsRow(rest, parseDate);
    }
  }

  /** Rows after the fifth are never looked at. */
  lemma OnlyFirstFiveRows(rows: seq<Row>, more: seq<Row>, parseDate: string -> Option<Date>)
    requires |rows| >= 5
    ensures Targets(rows + more, parseDate) == Targets(rows, parseDate)
  {
    assert FirstFive(rows + more) == FirstFive(rows);
  }
}
