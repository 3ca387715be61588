/** The resumable ledgers kept as JSONL files: `load_set_from_jsonl` of
    production_migration_engine.py, `load_migration_state` of
    full_migration_engine_optimized.py, and the append-only writers of both. */
module Ledger {
  import opened Wrappers
  import opened Json
  import Seqs

  /** Which key a loader takes from each decoded line. */
  datatype Selector =
    | TruthyField(field: string)   // load_set_from_jsonl(path, field): the field's value when truthy
    | MigratedFilename             // load_migration_state: original_filename of "Success" entries

  /** The key one line contributes to the loaded set; `None` when the line is skipped.
      `entry.get` on a decoded value that is not an object raises, and so does adding an
      unhashable value to a set; both are swallowed by the per-line `except`. */
  function LineKey(sel: Selector, line: Line): (k: Option<Json>)
    ensures k.Some? ==> line.Parsed? && line.value.JObject? && Hashable(k.value)
    ensures sel.TruthyField? && line.Parsed? && line.value.JObject? ==>
      (k.Some? <==> Truthy(Get(line.value.fields, sel.field)) && Hashable(Get(line.value.fields, sel.field)))
    ensures sel.TruthyField? && k.Some? ==> k.value == Get(line.value.fields, sel.field)
    ensures sel.MigratedFilename? && line.Parsed? && line.value.JObject? ==>
      (k.Some? <==> Get(line.value.fields, "status") == JStr("Success") && Hashable(Get(line.value.fields, "original_filename")))
    ensures sel.MigratedFilename? && k.Some? ==> k.value == Get(line.value.fields, "original_filename")
  {
    match line
    case Parsed(JObject(fields)) =>
      (match sel
       case TruthyField(f) =>
         var v := Get(fields, f);
         if Truthy(v) && Hashable(v) then Some(v) else None
       case MigratedFilename =>
         var v := Get(fields, "original_filename");
         if Get(fields, "status") == JStr("Success") && Hashable(v) then Some(v) else None)
    case _ => None
  }

  /** The set a loader builds from the lines of a present file, line by line. */
  function Collect(sel: Selector, lines: seq<Line>): (keys: set<Json>)
    decreases |lines|
  {
    if |lines| == 0 then {}
    else
      var last := LineKey(sel, lines[|lines| - 1]);
      Collect(sel, lines[..|lines| - 1]) + (if last.Some? then {last.value} else {})
  }

  /** A key is loaded exactly when some line contributes it. */
  lemma {:induction false} CollectMembership(sel: Selector, lines: seq<Line>, k: Json)
    ensures k in Collect(sel, lines) <==> exists i :: 0 <= i < |lines| && LineKey(sel, lines[i]) == Some(k)
    decreases |lines|
  {
    if |lines| > 0 {
      var init := lines[..|lines| - 1];
      CollectMembership(sel, init, k);
      if k in Collect(sel, init) {
        var i :| 0 <= i < |init| && LineKey(sel, init[i]) == Some(k);
        assert lines[i] == init[i];
      }
      if exists i :: 0 <= i < |lines| && LineKey(sel, lines[i]) == Some(k) {
        var i :| 0 <= i < |lines| && LineKey(sel, lines[i]) == Some(k);
        if i < |init| {
          assert init[i] == lines[i];
        }
      }
    }
  }

  /** Lines are independent: the set loaded from two stretches of a file is the union of
      the sets loaded from each, so a blank or malformed line changes nothing else. */
  lemma {:induction false} CollectAppend(sel: Selector, lines: seq<Line>, more: seq<Line>)
    ensures Collect(sel, lines + more) == Collect(sel, lines) + Collect(sel, more)
    decreases |more|
  {
    if |more| == 0 {
      assert lines + more == lines;
    } else {
      var init := more[..|more| - 1];
      assert (lines + more)[..|lines + more| - 1] == lines + init;
      assert (lines + more)[|lines + more| - 1] == more[|more| - 1];
      CollectAppend(sel, lines, init);
    }
  }

  /** Every loaded key is hashable, and a `TruthyField` key is truthy. */
  lemma LoadedKeysAreSound(sel: Selector, lines: seq<Line>, k: Json)
    requires k in Collect(sel, lines)
    ensures Hashable(k)
    ensures sel.TruthyField? ==> Truthy(k)
  {
    CollectMembership(sel, lines, k);
  }

  /** Lines that cannot contribute a key leave the loaded set as it was. */
  lemma SkippedLinesChangeNothing(sel: Selector, lines: seq<Line>, skipped: seq<Line>)
    requires forall i :: 0 <= i < |skipped| ==> skipped[i].Blank? || skipped[i].Malformed?
    ensures Collect(sel, lines + skipped) == Collect(sel, lines)
  {
    CollectAppend(sel, lines, skipped);
    forall k ensures k !in Collect(sel, skipped) {
      CollectMembership(sel, skipped, k);
    }
  }

  /** `load_set_from_jsonl` and `load_migration_state`: the empty set when the file does
      not exist, otherwise the keys of its lines, read in order. */
  method LoadSet(sel: Selector, file: Option<seq<Line>>) returns (keys: set<Json>)
    ensures file.None? ==> keys == {}
    ensures file.Some? ==> forall k :: k in keys <==> exists i :: 0 <= i < |file.value| && LineKey(sel, file.value[i]) == Some(k)
    ensures file.Some? ==> keys == Collect(sel, file.value)
  {
    keys := {};
    if file.Some? {
      var lines := file.value;
      var n := 0;
      while n < |lines|
        invariant n <= |lines|
        invariant keys == Collect(sel, lines[..n])
      {
        assert lines[..n + 1][..n] == lines[..n];
        var key := LineKey(sel, lines[n]);
        if key.Some? {
          keys := keys + {key.value};
        }
        n := n + 1;
      }
      assert lines[..n] == lines;
      forall k ensures k in keys <==> exists i :: 0 <= i < |lines| && LineKey(sel, lines[i]) == Some(k) {
        CollectMembership(sel, lines, k);
      }
    }
  }

  /** The key set one line contributes: its key, or nothing. */
  function KeySet(sel: Selector, line: Line): (keys: set<Json>)
    ensures |keys| <= 1
    ensures forall k :: k in keys <==> LineKey(sel, line) == Some(k)
  {
    if LineKey(sel, line).Some? then {LineKey(sel, line).value} else {}
  }

  /** A JSONL file as its writers find it: its lines, and whether its text ends with a line
      break. A crash in the middle of a write leaves the last line cut short and without
      its line break. */
  datatype Jsonl = Jsonl(lines: seq<Line>, terminated: bool)

  /** The next write to the file starts a line of its own: the text ends with a line
      break, or there is no text. */
  predicate EndsLine(f: Jsonl) {
    f.terminated || |f.lines| == 0
  }

  /** The lines a write leaves as they are: all of them, or all but an unterminated last
      one, which the write continues. */
  function Kept(f: Jsonl): (r: seq<Line>)
    ensures |r| == if EndsLine(f) then |f.lines| else |f.lines| - 1
    ensures r == f.lines[..|r|]
  {
    if EndsLine(f) then f.lines else f.lines[..|f.lines| - 1]
  }

  /** How the line reads back when an encoded object is written right after `tail`, the
      unterminated end of the file. `json.loads` skips leading whitespace, so after a blank
      tail the object decodes; after anything else the line is rejected, either as extra
      data after a complete value or as a cut-off value continued by the object. */
  function Merge(tail: Line, e: Json): (r: Line)
    ensures r.Parsed? <==> tail.Blank?
    ensures r.Parsed? ==> r.value == e
  {
    if tail.Blank? then Parsed(e) else Malformed
  }

  /** The line a record written to `f` reads back as. */
  function Written(f: Jsonl, e: Json): (r: Line)
    ensures EndsLine(f) ==> r == Parsed(e)
    ensures !EndsLine(f) ==> r == Merge(f.lines[|f.lines| - 1], e)
  {
    if EndsLine(f) then Parsed(e) else Merge(f.lines[|f.lines| - 1], e)
  }

  /** `append_jsonl` (production_migration_engine.py:29-31) and the optimized `log_manifest`:
      the file is opened for appending and the record's encoding is written followed by a
      line break. The text lands right after whatever the file ends with, so a record
      written after a cut-off line becomes part of that line. */
  function Append(f: Jsonl, e: Json): (r: Jsonl)
    ensures r.terminated
    ensures |r.lines| == |Kept(f)| + 1 && r.lines[..|Kept(f)|] == Kept(f)
    ensures r.lines[|r.lines| - 1] == Parsed(e) <==> EndsLine(f) || f.lines[|f.lines| - 1].Blank?
    ensures EndsLine(f) ==> r.lines == f.lines + [Parsed(e)]
  {
    var r := Jsonl(Kept(f) + [Written(f, e)], true);
    assert r.lines[..|Kept(f)|] == Kept(f);
    r
  }

  /** The lines of records each written on a line of its own. */
  function AsLines(entries: seq<Json>): (lines: seq<Line>)
    ensures |lines| == |entries|
    ensures forall i :: 0 <= i < |entries| ==> lines[i] == Parsed(entries[i])
  {
    if |entries| == 0 then [] else [Parsed(entries[0])] + AsLines(entries[1..])
  }

  /** The first record's line, then the others'. */
  lemma AsLinesCons(entries: seq<Json>)
    requires |entries| > 0
    ensures AsLines(entries) == [Parsed(entries[0])] + AsLines(entries[1..])
  {
    assert forall i :: 0 < i < |entries| ==> AsLines(entries)[i] == AsLines(entries[1..])[i - 1];
  }

  /** A key is loaded from records on lines of their own exactly when one of them yields it. */
  lemma RecordsCollect(sel: Selector, es: seq<Json>, from: nat, k: Json)
    requires from <= |es|
    ensures k in Collect(sel, AsLines(es[from..])) <==> exists i :: from <= i < |es| && LineKey(sel, Parsed(es[i])) == Some(k)
  {
    var added := AsLines(es[from..]);
    CollectMembership(sel, added, k);
    if k in Collect(sel, added) {
      var j :| 0 <= j < |added| && LineKey(sel, added[j]) == Some(k);
      assert added[j] == Parsed(es[from + j]);
    }
    if exists i :: from <= i < |es| && LineKey(sel, Parsed(es[i])) == Some(k) {
      var i :| from <= i < |es| && LineKey(sel, Parsed(es[i])) == Some(k);
      assert added[i - from] == Parsed(es[i]);
    }
  }

  /** The records appended one after another. */
  function AppendAll(f: Jsonl, entries: seq<Json>): (r: Jsonl)
    ensures |entries| == 0 ==> r == f
    ensures |entries| > 0 ==> r.terminated
    decreases |entries|
  {
    if |entries| == 0 then f else AppendAll(Append(f, entries[0]), entries[1..])
  }

  /** After a run of appends the file holds its kept lines, the line the first record
      became, and one line per later record; on a file that ended a line, that is the old
      lines followed by one line per record. */
  lemma AppendAllLines(f: Jsonl, entries: seq<Json>)
    ensures |entries| > 0 ==>
      AppendAll(f, entries).lines == Kept(f) + [Written(f, entries[0])] + AsLines(entries[1..])
    ensures EndsLine(f) ==> AppendAll(f, entries).lines == f.lines + AsLines(entries)
  {
    if |entries| > 0 {
      var g := Append(f, entries[0]);
      assert AppendAll(f, entries) == AppendAll(g, entries[1..]);
      assert g.lines == Kept(f) + [Written(f, entries[0])];
      AppendAllEnded(g, entries[1..]);
    }
    if EndsLine(f) {
      AppendAllEnded(f, entries);
    }
  }

  /** On a file that ended a line, every record gets a line of its own. */
  lemma {:induction false} AppendAllEnded(f: Jsonl, entries: seq<Json>)
    requires EndsLine(f)
    ensures AppendAll(f, entries).lines == f.lines + AsLines(entries)
    decreases |entries|
  {
    if |entries| == 0 {
      assert f.lines + AsLines(entries) == f.lines;
    } else {
      AppendAllEnded(Append(f, entries[0]), entries[1..]);
      AppendAllEndedStep(f, entries);
    }
  }

  /** The step of the induction above: the first record's line, then the rest's. */
  lemma AppendAllEndedStep(f: Jsonl, entries: seq<Json>)
    requires EndsLine(f) && |entries| > 0
    requires AppendAll(Append(f, entries[0]), entries[1..]).lines == Append(f, entries[0]).lines + AsLines(entries[1..])
    ensures AppendAll(f, entries).lines == f.lines + AsLines(entries)
  {
    var g := Append(f, entries[0]);
    assert AppendAll(f, entries) == AppendAll(g, entries[1..]);
    assert g.lines + AsLines(entries[1..]) == f.lines + AsLines(entries) by {
      assert g.lines == f.lines + [Parsed(entries[0])];
      assert AsLines(entries) == [Parsed(entries[0])] + AsLines(entries[1..]);
      Seqs.AppendAssoc(f.lines, [Parsed(entries[0])], AsLines(entries[1..]));
    }
  }

  /** Reloading after an append gives the set of the kept lines plus the key of the line
      the record became; on a file that ended a line, the old set plus the record's key. */
  lemma AppendThenCollect(sel: Selector, f: Jsonl, e: Json)
    ensures Collect(sel, Append(f, e).lines) == Collect(sel, Kept(f)) + KeySet(sel, Written(f, e))
    ensures EndsLine(f) ==> Collect(sel, Append(f, e).lines) == Collect(sel, f.lines) + KeySet(sel, Parsed(e))
  {
    var r := Append(f, e).lines;
    assert r[..|r| - 1] == Kept(f);
  }

  /** How many of the records appended next are lost on reload: the first one, when it
      continues a cut-off line that is not blank; none otherwise. */
  function Swallowed(f: Jsonl): (n: nat)
    ensures n <= 1
    ensures n == 1 <==> !EndsLine(f) && !f.lines[|f.lines| - 1].Blank?
  {
    if EndsLine(f) || f.lines[|f.lines| - 1].Blank? then 0 else 1
  }

  /** Reloading after a run of appends gives the set of the kept lines plus the keys of
      every record but the swallowed one. */
  lemma AppendAllThenCollect(sel: Selector, f: Jsonl, entries: seq<Json>)
    ensures |entries| > 0 || EndsLine(f) ==>
      Collect(sel, AppendAll(f, entries).lines) == Collect(sel, Kept(f)) + Collect(sel, AsLines(entries[Swallowed(f)..]))
  {
    AppendAllLines(f, entries);
    if |entries| > 0 {
      var w := Written(f, entries[0]);
      var tail := AsLines(entries[1..]);
      CollectAppend(sel, Kept(f) + [w], tail);
      CollectAppend(sel, Kept(f), [w]);
      if Swallowed(f) == 0 {
        assert [w] + tail == AsLines(entries[Swallowed(f)..]);
        CollectAppend(sel, [w], tail);
      } else {
        assert w == Malformed;
        assert [w][..0] == [];
      }
    } else if EndsLine(f) {
      assert AsLines(entries) == [];
      assert f.lines + [] == f.lines;
    }
  }

  /** As written, a record appended after a cut-off line is lost on reload, and so is the
      cut-off line: the reloaded set is that of the lines before them. */
  lemma AppendAfterCutLineLosesRecord(sel: Selector, f: Jsonl, e: Json)
    requires !EndsLine(f) && !f.lines[|f.lines| - 1].Blank?
    ensures Collect(sel, Append(f, e).lines) == Collect(sel, f.lines[..|f.lines| - 1])
  {
    AppendThenCollect(sel, f, e);
  }

  /** A queue whose last job line was cut off by a crash, and the next job written to it. */
  const CutQueue: Jsonl := Jsonl([Parsed(JObject(map["source_url" := JStr("u1")])), Malformed], false)
  const NextJob: Json := JObject(map["source_url" := JStr("u2")])

  /** As written, the next job's URL is not in the set reloaded from the queue; with the
      corrected writer it is. */
  lemma CutLineDropsNextRecord()
    ensures JStr("u2") !in Collect(TruthyField("source_url"), Append(CutQueue, NextJob).lines)
    ensures JStr("u2") in Collect(TruthyField("source_url"), AppendOnNewLine(CutQueue, NextJob).lines)
  {
    var sel := TruthyField("source_url");
    AppendAfterCutLineLosesRecord(sel, CutQueue, NextJob);
    assert CutQueue.lines[..1] == [Parsed(JObject(map["source_url" := JStr("u1")]))];
    assert Collect(sel, CutQueue.lines[..1]) == {JStr("u1")} by {
      assert CutQueue.lines[..1][..0] == [];
    }
    AppendOnNewLineThenCollect(sel, CutQueue, NextJob);
    assert LineKey(sel, Parsed(NextJob)) == Some(JStr("u2"));
  }

  /** The writer as evidently intended: an unterminated last line is closed with a line
      break before the record is written, so every record gets a line of its own. */
  function AppendOnNewLine(f: Jsonl, e: Json): (r: Jsonl)
    ensures r.terminated
    ensures |r.lines| == |f.lines| + 1 && r.lines[..|f.lines|] == f.lines
    ensures r.lines[|f.lines|] == Parsed(e)
  {
    var r := Jsonl(f.lines + [Parsed(e)], true);
    assert r.lines[..|f.lines|] == f.lines;
    r
  }

  /** With the corrected writer, reloading after an append gives the old set plus the
      record's key, whatever the file ended with. */
  lemma AppendOnNewLineThenCollect(sel: Selector, f: Jsonl, e: Json)
    ensures Collect(sel, AppendOnNewLine(f, e).lines) == Collect(sel, f.lines) + KeySet(sel, Parsed(e))
  {
    var r := AppendOnNewLine(f, e).lines;
    assert r[..|r| - 1] == f.lines;
  }
}
