/** full_migration_engine_optimized.py: the same pass as the full engine, made resumable.
    Files already recorded as migrated are skipped, every processed file appends one JSONL
    line, and the in-memory set of migrated names grows only on success. */
module OptimizedEngine {
  import opened Wrappers
  import opened Json
  import Ledger
  import FullEngine

  /** The engine's state: `MIGRATED_FILES` and the manifest file. */
  datatype State = State(migrated: set<Json>, manifest: Ledger.Jsonl)

  /** Lines 152-217 for one card: skip a name already migrated; otherwise log the entry
      and remember the name if the download was saved. */
  function Step(card: FileCard, st: State, env: FullEngine.Env): (r: State)
    ensures JStr(FullEngine.Filename(card)) in st.migrated ==> r == st
    ensures JStr(FullEngine.Filename(card)) !in st.migrated ==>
      r.manifest == Ledger.Append(st.manifest, FullEngine.Entry(card, env))
    ensures r.migrated == if card.download.Saved? then st.migrated + {JStr(FullEngine.Filename(card))} else st.migrated
  {
    var name := JStr(FullEngine.Filename(card));
    if name in st.migrated then st
    else
      var manifest := Ledger.Append(st.manifest, FullEngine.Entry(card, env));
      if card.download.Saved? then State(st.migrated + {name}, manifest) else State(st.migrated, manifest)
  }

  type FileCard = FullEngine.FileCard

  /** The loop of lines 151-217 over all cards. */
  function Run(cards: seq<FileCard>, st: State, env: FullEngine.Env): State
    decreases |cards|
  {
    if |cards| == 0 then st else Run(cards[1..], Step(cards[0], st, env), env)
  }

  /** `MIGRATED_FILES` is what `load_migration_state` would rebuild from the manifest, and
      the manifest ends with a line break, as every append leaves it. */
  predicate InSync(st: State) {
    st.migrated == Ledger.Collect(Ledger.MigratedFilename, st.manifest.lines) && Ledger.EndsLine(st.manifest)
  }

  /** One step keeps the in-memory set equal to what reloading the manifest would give. */
  lemma StepKeepsStateInSync(card: FileCard, st: State, env: FullEngine.Env)
    requires InSync(st)
    ensures InSync(Step(card, st, env))
  {
    var name := JStr(FullEngine.Filename(card));
    if name !in st.migrated {
      var e := FullEngine.Entry(card, env);
      Ledger.AppendThenCollect(Ledger.MigratedFilename, st.manifest, e);
      EntryKey(card, env);
    }
  }

  /** As written, a manifest whose last line was cut off by a crash swallows the next
      entry: reloading gives only the lines before the cut one, although a saved card's
      name has joined `MIGRATED_FILES`. */
  lemma CutManifestLosesEntry(card: FileCard, st: State, env: FullEngine.Env)
    requires !Ledger.EndsLine(st.manifest) && !st.manifest.lines[|st.manifest.lines| - 1].Blank?
    requires JStr(FullEngine.Filename(card)) !in st.migrated
    ensures Ledger.Collect(Ledger.MigratedFilename, Step(card, st, env).manifest.lines) ==
      Ledger.Collect(Ledger.MigratedFilename, Ledger.Kept(st.manifest))
    ensures card.download.Saved? ==> JStr(FullEngine.Filename(card)) in Step(card, st, env).migrated
  {
    Ledger.AppendAfterCutLineLosesRecord(Ledger.MigratedFilename, st.manifest, FullEngine.Entry(card, env));
  }

  /** The key `load_migration_state` reads back from a card's entry: its name, when saved. */
  lemma EntryKey(card: FileCard, env: FullEngine.Env)
    ensures Ledger.LineKey(Ledger.MigratedFilename, Parsed(FullEngine.Entry(card, env))) ==
      if card.download.Saved? then Some(JStr(FullEngine.Filename(card))) else None
  {
    EntryOfKey(FullEngine.Filename(card), FullEngine.LocalPath(card, env), card.download);
  }

  lemma EntryOfKey(name: string, path: string, d: FullEngine.Download)
    ensures Ledger.LineKey(Ledger.MigratedFilename, Parsed(FullEngine.EntryOf(name, path, d))) ==
      if d.Saved? then Some(JStr(name)) else None
  {
    var e := FullEngine.EntryOf(name, path, d);
    assert Get(e.fields, "original_filename") == JStr(name);
  }

  /** Resumability: after any run, `MIGRATED_FILES` is exactly what `load_migration_state`
      would rebuild from the manifest, provided it was so at the start. */
  lemma {:induction false} RunKeepsStateInSync(cards: seq<FileCard>, st: State, env: FullEngine.Env)
    requires InSync(st)
    ensures InSync(Run(cards, st, env))
    decreases |cards|
  {
    if |cards| > 0 {
      StepKeepsStateInSync(cards[0], st, env);
      RunKeepsStateInSync(cards[1..], Step(cards[0], st, env), env);
    }
  }

  /** A run never forgets a migrated name, and every saved card's name is migrated after it. */
  lemma {:induction false} RunRecordsSaved(cards: seq<FileCard>, st: State, env: FullEngine.Env)
    ensures st.migrated <= Run(cards, st, env).migrated
    ensures forall i :: 0 <= i < |cards| && cards[i].download.Saved? ==>
      JStr(FullEngine.Filename(cards[i])) in Run(cards, st, env).migrated
    decreases |cards|
  {
    if |cards| > 0 {
      var next := Step(cards[0], st, env);
      RunRecordsSaved(cards[1..], next, env);
      var fin := Run(cards, st, env);
      assert fin == Run(cards[1..], next, env);
      StepRecordsSaved(cards[0], st, env);
      forall i | 0 <= i < |cards| && cards[i].download.Saved?
        ensures JStr(FullEngine.Filename(cards[i])) in fin.migrated
      {
        if i > 0 {
          assert cards[i] == cards[1..][i - 1];
        }
      }
    }
  }

  /** One step keeps every migrated name and adds the card's name when it was saved. */
  lemma StepRecordsSaved(card: FileCard, st: State, env: FullEngine.Env)
    ensures st.migrated <= Step(card, st, env).migrated
    ensures card.download.Saved? ==> JStr(FullEngine.Filename(card)) in Step(card, st, env).migrated
  {
  }

  /** One step leaves the kept lines of the manifest as they were. */
  lemma StepOnlyAppends(card: FileCard, st: State, env: FullEngine.Env)
    ensures |st.manifest.lines| <= |Step(card, st, env).manifest.lines|
    ensures |Ledger.Kept(st.manifest)| <= |Ledger.Kept(Step(card, st, env).manifest)|
    ensures Ledger.Kept(Step(card, st, env).manifest)[..|Ledger.Kept(st.manifest)|] == Ledger.Kept(st.manifest)
  {
    var next := Step(card, st, env).manifest;
    if next != st.manifest {
      assert Ledger.Kept(next) == next.lines;
    }
  }

  /** The manifest only grows, and the lines a write does not continue are never
      rewritten: all of them when the manifest ended with a line break, all but the
      cut-off last one otherwise. */
  lemma {:induction false} RunOnlyAppends(cards: seq<FileCard>, st: State, env: FullEngine.Env)
    ensures |st.manifest.lines| <= |Run(cards, st, env).manifest.lines|
    ensures |Ledger.Kept(st.manifest)| <= |Ledger.Kept(Run(cards, st, env).manifest)|
    ensures Ledger.Kept(Run(cards, st, env).manifest)[..|Ledger.Kept(st.manifest)|] == Ledger.Kept(st.manifest)
    ensures Ledger.EndsLine(st.manifest) ==>
      Run(cards, st, env).manifest.lines[..|st.manifest.lines|] == st.manifest.lines
    decreases |cards|
  {
    if |cards| > 0 {
      var next := Step(cards[0], st, env);
      RunOnlyAppends(cards[1..], next, env);
      StepOnlyAppends(cards[0], st, env);
      PrefixOfPrefix(Ledger.Kept(Run(cards, st, env).manifest), Ledger.Kept(next.manifest), Ledger.Kept(st.manifest));
    }
    if Ledger.EndsLine(st.manifest) {
      KeptPrefixIsLinePrefix(st.manifest, Run(cards, st, env).manifest);
    }
  }

  lemma PrefixOfPrefix(c: seq<Line>, b: seq<Line>, a: seq<Line>)
    requires |b| <= |c| && c[..|b|] == b && |a| <= |b| && b[..|a|] == a
    ensures c[..|a|] == a
  {
    assert c[..|b|][..|a|] == c[..|a|];
  }

  /** When the earlier file ended with a line break, keeping its lines means keeping all. */
  lemma KeptPrefixIsLinePrefix(a: Ledger.Jsonl, b: Ledger.Jsonl)
    requires Ledger.EndsLine(a)
    requires |Ledger.Kept(a)| <= |Ledger.Kept(b)| && Ledger.Kept(b)[..|Ledger.Kept(a)|] == Ledger.Kept(a)
    ensures |a.lines| <= |b.lines| && b.lines[..|a.lines|] == a.lines
  {
    var k := Ledger.Kept(b);
    PrefixOfPrefix(b.lines, k, a.lines);
  }

  /** A file whose name was migrated by an earlier run is skipped by the next one: a second
      run over cards that were all saved changes nothing. */
  lemma {:induction false} RerunAfterSuccessIsNoOp(cards: seq<FileCard>, st: State, env: FullEngine.Env)
    requires forall i :: 0 <= i < |cards| ==> JStr(FullEngine.Filename(cards[i])) in st.migrated
    ensures Run(cards, st, env) == st
    decreases |cards|
  {
    if |cards| > 0 {
      RerunAfterSuccessIsNoOp(cards[1..], st, env);
    }
  }
}
