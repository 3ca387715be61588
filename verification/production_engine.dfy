/** production_migration_engine.py: a two-phase pipeline. Discovery appends one job per
    new download link to a JSONL queue; execution loads the manifest's `source_url`s as
    the done set, keeps the queued jobs not yet done, and processes them in batches of 50,
    appending one manifest line per job. */
module ProductionEngine {
  import opened Wrappers
  import opened Json
  import Seqs
  import Text
  import Ledger
  import Breadcrumbs
  import PathResolver
  import FullEngine

  const BatchSize: nat := 50

  /** `SERVER_URL.rsplit('/', 1)[0]`. */
  const UrlBase: string := "http://localhost:8000/web_ui"

  // ---------------------------------------------------------------------------
  // Phase 1: discovery (lines 56-128)
  // ---------------------------------------------------------------------------

  /** The card's `a[download]` link: absent, or present with an `href` that may be missing. */
  datatype Link = NoDownload | Download(href: Option<string>)

  /** A `.file` card of the listing page. */
  datatype Card = Card(text: string, attrs: Breadcrumbs.Attributes, link: Link)

  /** Line 95: the absolute URL of a link; an absent `href` formats as `None`. */
  function FullUrl(href: Option<string>): (u: string)
    ensures Text.StartsWith(u, UrlBase + "/")
    ensures href.Some? ==> u == UrlBase + "/" + href.value
  {
    var u := UrlBase + "/" + (if href.Some? then href.value else "None");
    assert u[..|UrlBase + "/"|] == UrlBase + "/";
    u
  }

  /** A job as discovery stores it (its timestamp is not modelled). */
  datatype QueuedJob = QueuedJob(url: string, filename: string, crumbs: Breadcrumbs.Crumbs)

  /** Lines 108-119: the queue line of a job. */
  function JobJson(j: QueuedJob): (v: Json)
    ensures v.JObject? && Get(v.fields, "source_url") == JStr(j.url)
  {
    JObject(map[
      "source_url" := JStr(j.url),
      "filename" := JStr(j.filename),
      "metadata_context" := JObject(map[
        "group" := JStr(j.crumbs.group),
        "dept" := JStr(j.crumbs.dept),
        "status" := JStr(j.crumbs.status),
        "year" := JStr(j.crumbs.year),
        "raw_employee" := JStr(j.crumbs.rawEmployee)])])
  }

  /** The `source_url`s of a list of jobs, as the keys `load_set_from_jsonl` stores. */
  function UrlKeys(jobs: seq<QueuedJob>): (keys: set<Json>)
    ensures forall k :: k in keys <==> exists i :: 0 <= i < |jobs| && k == JStr(jobs[i].url)
  {
    if |jobs| == 0 then {}
    else
      var rest := UrlKeys(jobs[1..]);
      assert forall i :: 0 < i < |jobs| ==> jobs[i] == jobs[1..][i - 1];
      {JStr(jobs[0].url)} + rest
  }

  /** Lines 80-122: the jobs discovery appends, given the `source_url`s already queued.
      Each appended URL is added to the queued set before the next card is examined. */
  function Discover(cards: seq<Card>, queued: set<Json>): (jobs: seq<QueuedJob>)
    ensures forall i :: 0 <= i < |jobs| ==> JStr(jobs[i].url) !in queued
    ensures forall i :: 0 <= i < |jobs| ==> Text.StartsWith(jobs[i].url, UrlBase + "/")
    decreases |cards|
  {
    if |cards| == 0 then []
    else
      var card := cards[0];
      if card.link.NoDownload? then Discover(cards[1..], queued)
      else
        var url := FullUrl(card.link.href);
        if JStr(url) in queued then Discover(cards[1..], queued)
        else
          var rest := Discover(cards[1..], queued + {JStr(url)});
          var jobs := [JobOf(card, url)] + rest;
          assert forall i :: 0 < i < |jobs| ==> jobs[i] == rest[i - 1];
          jobs
  }

  /** Lines 85 and 101-119: the job of a linked card. */
  function JobOf(card: Card, url: string): (j: QueuedJob)
    ensures j.url == url
  {
    QueuedJob(url, Text.Strip(card.text), Breadcrumbs.FromAttributes(card.attrs))
  }

  predicate DistinctUrls(jobs: seq<QueuedJob>) {
    forall i, j :: 0 <= i < j < |jobs| ==> jobs[i].url != jobs[j].url
  }

  /** Within one discovery run the appended jobs have pairwise distinct URLs. */
  lemma {:induction false} DiscoverDistinct(cards: seq<Card>, queued: set<Json>)
    ensures DistinctUrls(Discover(cards, queued))
    decreases |cards|
  {
    if |cards| > 0 && cards[0].link.Download? {
      var url := FullUrl(cards[0].link.href);
      if JStr(url) in queued {
        DiscoverDistinct(cards[1..], queued);
        assert Discover(cards, queued) == Discover(cards[1..], queued);
      } else {
        var rest := Discover(cards[1..], queued + {JStr(url)});
        DiscoverDistinct(cards[1..], queued + {JStr(url)});
        assert Discover(cards, queued) == [JobOf(cards[0], url)] + rest;
        assert forall j :: 0 <= j < |rest| ==> rest[j].url != url;
        DistinctCons(JobOf(cards[0], url), rest);
      }
    } else if |cards| > 0 {
      DiscoverDistinct(cards[1..], queued);
      assert Discover(cards, queued) == Discover(cards[1..], queued);
    }
  }

  lemma DistinctCons(job: QueuedJob, rest: seq<QueuedJob>)
    requires DistinctUrls(rest)
    requires forall j :: 0 <= j < |rest| ==> rest[j].url != job.url
    ensures DistinctUrls([job] + rest)
  {
    var jobs := [job] + rest;
    forall i, j | 0 <= i < j < |jobs| ensures jobs[i].url != jobs[j].url {
      assert jobs[j] == rest[j - 1];
      if i > 0 {
        assert jobs[i] == rest[i - 1];
      }
    }
  }

  /** Every linked card's URL is queued after discovery: it was queued before, or one of
      the appended jobs carries it. */
  lemma {:induction false} DiscoverComplete(cards: seq<Card>, queued: set<Json>)
    ensures forall i :: 0 <= i < |cards| && cards[i].link.Download? ==>
      JStr(FullUrl(cards[i].link.href)) in queued + UrlKeys(Discover(cards, queued))
    decreases |cards|
  {
    if |cards| > 0 {
      var tail := cards[1..];
      assert forall i :: 0 < i < |cards| ==> cards[i] == tail[i - 1];
      if cards[0].link.Download? && JStr(FullUrl(cards[0].link.href)) !in queued {
        var url := FullUrl(cards[0].link.href);
        var job := JobOf(cards[0], url);
        var rest := Discover(tail, queued + {JStr(url)});
        DiscoverComplete(tail, queued + {JStr(url)});
        assert Discover(cards, queued) == [job] + rest;
        assert UrlKeys([job] + rest) == {JStr(url)} + UrlKeys(rest) by {
          assert ([job] + rest)[1..] == rest;
        }
      } else {
        DiscoverComplete(tail, queued);
      }
    }
  }

  /** The indices of the cards discovery turns into jobs, scanning `cards` from `from` on. */
  function Picked(cards: seq<Card>, queued: set<Json>, from: nat): (ks: seq<nat>)
    requires from <= |cards|
    decreases |cards| - from
  {
    if from == |cards| then []
    else if cards[from].link.NoDownload? then Picked(cards, queued, from + 1)
    else
      var url := FullUrl(cards[from].link.href);
      if JStr(url) in queued then Picked(cards, queued, from + 1)
      else [from] + Picked(cards, queued + {JStr(url)}, from + 1)
  }

  /** `jobs[i]` is the job of the linked card `cards[ks[i]]`, and the cards are taken in
      order, each at or after `from`. */
  predicate JobsOfCards(cards: seq<Card>, from: nat, ks: seq<nat>, jobs: seq<QueuedJob>) {
    && |ks| == |jobs|
    && (forall i :: 0 <= i < |ks| ==> from <= ks[i] < |cards| && cards[ks[i]].link.Download?)
    && (forall i :: 0 <= i < |ks| && ks[i] < |cards| ==> jobs[i] == JobOf(cards[ks[i]], FullUrl(cards[ks[i]].link.href)))
    && (forall i, j :: 0 <= i < j < |ks| ==> ks[i] < ks[j])
  }

  lemma {:induction false} DiscoverPicked(cards: seq<Card>, queued: set<Json>, from: nat)
    requires from <= |cards|
    ensures JobsOfCards(cards, from, Picked(cards, queued, from), Discover(cards[from..], queued))
    decreases |cards| - from
  {
    if from < |cards| {
      var tail := cards[from..][1..];
      assert tail == cards[from + 1..];
      if cards[from].link.Download? && JStr(FullUrl(cards[from].link.href)) !in queued {
        var url := FullUrl(cards[from].link.href);
        DiscoverPicked(cards, queued + {JStr(url)}, from + 1);
        var ks := Picked(cards, queued + {JStr(url)}, from + 1);
        var rest := Discover(tail, queued + {JStr(url)});
        assert Discover(cards[from..], queued) == [JobOf(cards[from], url)] + rest;
        ConsJobOfCard(cards, from, ks, rest);
      } else {
        DiscoverPicked(cards, queued, from + 1);
      }
    }
  }

  lemma ConsJobOfCard(cards: seq<Card>, from: nat, ks: seq<nat>, jobs: seq<QueuedJob>)
    requires from < |cards| && cards[from].link.Download?
    requires JobsOfCards(cards, from + 1, ks, jobs)
    ensures JobsOfCards(cards, from, [from] + ks, [JobOf(cards[from], FullUrl(cards[from].link.href))] + jobs)
  {
    var ks' := [from] + ks;
    var jobs' := [JobOf(cards[from], FullUrl(cards[from].link.href))] + jobs;
    forall i | 0 < i < |ks'| ensures ks'[i] == ks[i - 1] && jobs'[i] == jobs[i - 1] { }
    forall i | 0 <= i < |ks'|
      ensures from <= ks'[i] < |cards| && cards[ks'[i]].link.Download?
      ensures jobs'[i] == JobOf(cards[ks'[i]], FullUrl(cards[ks'[i]].link.href))
    {
      if i > 0 {
        assert ks'[i] == ks[i - 1];
      }
    }
    forall i, j | 0 <= i < j < |ks'| ensures ks'[i] < ks'[j] {
      if i > 0 {
        assert ks'[i] == ks[i - 1] && ks'[j] == ks[j - 1];
      } else {
        assert from + 1 <= ks[j - 1];
      }
    }
  }

  /** Every appended job comes from a linked card, in card order: its URL is the card's
      link, its file name the card's stripped text and its context the card's breadcrumb
      attributes. */
  lemma DiscoverSound(cards: seq<Card>, queued: set<Json>)
    ensures var jobs := Discover(cards, queued); var ks := Picked(cards, queued, 0);
      && |ks| == |jobs|
      && (forall i, j :: 0 <= i < j < |ks| ==> ks[i] < ks[j])
      && forall i :: 0 <= i < |jobs| ==> ks[i] < |cards| && cards[ks[i]].link.Download? && jobs[i] == QueuedJob(FullUrl(cards[ks[i]].link.href), Text.Strip(cards[ks[i]].text), Breadcrumbs.FromAttributes(cards[ks[i]].attrs))
  {
    assert cards[0..] == cards;
    DiscoverPicked(cards, queued, 0);
  }

  /** The queue records discovery appends, one per job. */
  function JobJsons(jobs: seq<QueuedJob>): (records: seq<Json>)
    ensures |records| == |jobs|
    ensures forall i :: 0 <= i < |jobs| ==> records[i] == JobJson(jobs[i])
  {
    seq(|jobs|, i requires 0 <= i < |jobs| => JobJson(jobs[i]))
  }

  /** Each appended job is recognised by the next discovery: the queued set reloaded after
      the run is the old one plus every new URL. After a crash that cut the queue's last
      line short, the cut line and the first new job are lost instead. */
  lemma {:induction false} DiscoveredJobsReload(f: Ledger.Jsonl, jobs: seq<QueuedJob>)
    requires forall i :: 0 <= i < |jobs| ==> Text.StartsWith(jobs[i].url, UrlBase + "/")
    ensures Ledger.EndsLine(f) ==>
      Ledger.Collect(Ledger.TruthyField("source_url"), Ledger.AppendAll(f, JobJsons(jobs)).lines) ==
      Ledger.Collect(Ledger.TruthyField("source_url"), f.lines) + UrlKeys(jobs)
    ensures |jobs| > 0 ==>
      Ledger.Collect(Ledger.TruthyField("source_url"), Ledger.AppendAll(f, JobJsons(jobs)).lines) ==
      Ledger.Collect(Ledger.TruthyField("source_url"), Ledger.Kept(f)) + UrlKeys(jobs[Ledger.Swallowed(f)..])
  {
    var sel := Ledger.TruthyField("source_url");
    Ledger.AppendAllThenCollect(sel, f, JobJsons(jobs));
    if |jobs| > 0 || Ledger.EndsLine(f) {
      JobsFromCollect(jobs, Ledger.Swallowed(f));
      if Ledger.EndsLine(f) {
        assert jobs[0..] == jobs;
      }
    }
  }

  /** The queued set of the job lines from `from` on is the set of those jobs' URLs. */
  lemma JobsFromCollect(jobs: seq<QueuedJob>, from: nat)
    requires forall i :: 0 <= i < |jobs| ==> Text.StartsWith(jobs[i].url, UrlBase + "/")
    requires from <= |jobs|
    ensures Ledger.Collect(Ledger.TruthyField("source_url"), Ledger.AsLines(JobJsons(jobs)[from..])) == UrlKeys(jobs[from..])
  {
    var sel := Ledger.TruthyField("source_url");
    var es := JobJsons(jobs);
    var later := jobs[from..];
    forall k ensures k in Ledger.Collect(sel, Ledger.AsLines(es[from..])) <==> k in UrlKeys(later) {
      Ledger.RecordsCollect(sel, es, from, k);
      if k in UrlKeys(later) {
        var i :| 0 <= i < |later| && k == JStr(later[i].url);
        assert later[i] == jobs[from + i];
        JobLineKey(jobs[from + i]);
      }
      if k in Ledger.Collect(sel, Ledger.AsLines(es[from..])) {
        var i :| from <= i < |es| && Ledger.LineKey(sel, Parsed(es[i])) == Some(k);
        JobLineKey(jobs[i]);
        assert later[i - from] == jobs[i];
      }
    }
  }

  /** A job line contributes its URL to the queued set whenever the URL is not empty. */
  lemma JobLineKey(j: QueuedJob)
    requires Text.StartsWith(j.url, UrlBase + "/")
    ensures Ledger.LineKey(Ledger.TruthyField("source_url"), Parsed(JobJson(j))) == Some(JStr(j.url))
  {
  }

  /** Running discovery twice over the same page adds nothing the second time. */
  lemma {:induction false} RediscoveryAddsNothing(cards: seq<Card>, queued: set<Json>)
    requires forall i :: 0 <= i < |cards| && cards[i].link.Download? ==> JStr(FullUrl(cards[i].link.href)) in queued
    ensures Discover(cards, queued) == []
    decreases |cards|
  {
    if |cards| > 0 {
      RediscoveryAddsNothing(cards[1..], queued);
    }
  }

  // ---------------------------------------------------------------------------
  // Phase 2: execution (lines 133-263)
  // ---------------------------------------------------------------------------

  /** Lines 234-240: the queue file's decoded lines. The lines are parsed without a guard,
      so the first malformed line aborts the whole execution phase. */
  function LoadQueue(file: Option<seq<Line>>): (r: Result<seq<Json>>)
    ensures file.None? ==> r == Success([])
    ensures file.Some? ==> (r.Success? <==> forall i :: 0 <= i < |file.value| ==> !file.value[i].Malformed?)
    ensures file.Some? && r.Failure? ==> r.error.MalformedLine? && r.error.index < |file.value| && file.value[r.error.index].Malformed?
    ensures file.Some? && r.Success? ==> r.value == ParsedValues(file.value)
  {
    if file.None? then Success([]) else LoadLines(file.value, 0)
  }

  /** The values of the decoded lines, in order; blank lines are skipped. */
  function ParsedValues(lines: seq<Line>): (vs: seq<Json>)
    ensures |vs| <= |lines|
  {
    if |lines| == 0 then []
    else (if lines[0].Parsed? then [lines[0].value] else []) + ParsedValues(lines[1..])
  }

  function LoadLines(lines: seq<Line>, offset: nat): (r: Result<seq<Json>>)
    ensures r.Success? <==> forall i :: 0 <= i < |lines| ==> !lines[i].Malformed?
    ensures r.Failure? ==> r.error.MalformedLine? && offset <= r.error.index < offset + |lines| && lines[r.error.index - offset].Malformed?
    ensures r.Success? ==> r.value == ParsedValues(lines)
    decreases |lines|
  {
    if |lines| == 0 then Success([])
    else if lines[0].Malformed? then Failure(MalformedLine(offset))
    else
      assert forall i :: 0 < i < |lines| ==> lines[i] == lines[1..][i - 1];
      var rest :- LoadLines(lines[1..], offset + 1);
      Success((if lines[0].Parsed? then [lines[0].value] else []) + rest)
  }

  /** A queued item is still to do when its `source_url` is not in the done set. */
  function Pending(done: set<Json>): Json -> bool {
    (item: Json) => item.JObject? && Get(item.fields, "source_url") !in done
  }

  /** `q["source_url"] not in done_urls` can raise: on a value that is not an object,
      on a missing key, and on an unhashable URL. */
  function UrlOf(item: Json): (r: Result<Json>)
    ensures r.Success? <==> item.JObject? && "source_url" in item.fields && Hashable(item.fields["source_url"])
    ensures r.Success? ==> r.value == item.fields["source_url"]
  {
    if !item.JObject? then Failure(NotAnObject)
    else if "source_url" !in item.fields then Failure(MissingKey("source_url"))
    else if !Hashable(item.fields["source_url"]) then Failure(Unhashable)
    else Success(item.fields["source_url"])
  }

  /** Line 243: `[q for q in queue if q["source_url"] not in done_urls]`. */
  function Todo(queue: seq<Json>, done: set<Json>): (r: Result<seq<Json>>)
    ensures r.Success? <==> forall i :: 0 <= i < |queue| ==> UrlOf(queue[i]).Success?
    ensures r.Success? ==> r.value == Seqs.Filter(queue, Pending(done))
    decreases |queue|
  {
    if |queue| == 0 then Success([])
    else
      assert forall i :: 0 < i < |queue| ==> queue[i] == queue[1..][i - 1];
      var url :- UrlOf(queue[0]);
      var rest :- Todo(queue[1..], done);
      Success(if url !in done then [queue[0]] + rest else rest)
  }

  /** The todo list holds exactly the queued items whose URL is not done, in queue order. */
  lemma TodoIsPendingQueue(queue: seq<Json>, done: set<Json>)
    requires Todo(queue, done).Success?
    ensures forall i :: 0 <= i < |queue| ==> (queue[i] in Todo(queue, done).value <==> queue[i].fields["source_url"] !in done)
    ensures Seqs.IsSubsequence(Todo(queue, done).value, queue)
  {
    Seqs.FilterIsSubsequence(queue, Pending(done));
    assert forall i :: 0 <= i < |queue| ==> UrlOf(queue[i]).Success?;
  }

  /** Lines 254-258: `todo[i : i + BATCH_SIZE]` for `i` in `range(0, len(todo), BATCH_SIZE)`. */
  function Batches<T>(todo: seq<T>, size: nat): (bs: seq<seq<T>>)
    requires size > 0
    ensures Seqs.Concat(bs) == todo
    ensures forall b :: 0 <= b < |bs| ==> 0 < |bs[b]| <= size
    ensures forall b :: 0 <= b < |bs| - 1 ==> |bs[b]| == size
    decreases |todo|
  {
    if |todo| == 0 then []
    else if |todo| <= size then [todo]
    else
      var rest := Batches(todo[size..], size);
      var bs := [todo[..size]] + rest;
      assert bs[1..] == rest;
      assert todo == todo[..size] + todo[size..];
      bs
  }

  /** What the browser did for a queued job; the run's page interaction is a given. */
  datatype Outcome =
    | Downloaded                  // the download was saved
    | LinkNotFound                // the card had no `a[download]`
    | Raised(reason: string)      // navigation, download or save raised; `reason` is `str(e)`

  /** The collaborators of execution: path resolution's, the browser's outcome for each
      queued job, and the text of a lookup error raised while reading a job. */
  datatype Services = Services(env: FullEngine.Env, attempt: Json -> Outcome, describe: Error -> string)

  /** A queued job as `process_batch` reads it. */
  datatype Job = Job(url: Json, filename: string, crumbs: Breadcrumbs.Crumbs)

  /** `d[k]`, raising `KeyError` when `k` is absent. */
  function Field(fields: map<string, Json>, k: string): (r: Result<Json>)
    ensures r.Success? <==> k in fields
    ensures r.Success? ==> r.value == fields[k]
    ensures r.Failure? ==> r.error == MissingKey(k)
  {
    if k in fields then Success(fields[k]) else Failure(MissingKey(k))
  }

  /** A field that must be a string to be used as a breadcrumb or file name. */
  function TextField(fields: map<string, Json>, k: string): (r: Result<string>)
    ensures r.Success? <==> k in fields && fields[k].JStr?
    ensures r.Success? ==> fields[k] == JStr(r.value)
  {
    var v :- Field(fields, k);
    if v.JStr? then Success(v.s) else Failure(BadField(k))
  }

  /** The breadcrumb fields of `metadata_context` that the job's hierarchy is built from. */
  const CrumbFields: set<string> := {"raw_employee", "group", "dept", "status", "year"}

  /** Lines 140-157 and 209: the fields `process_batch` reads, in the order it reads them.
      Reading succeeds exactly when the job has a text file name, an object context holding
      every breadcrumb field as text, and a `source_url` of any kind. */
  function ParseJob(fields: map<string, Json>): (r: Result<Job>)
    ensures r.Success? <==>
      && "filename" in fields && fields["filename"].JStr?
      && "metadata_context" in fields && fields["metadata_context"].JObject?
      && (forall k :: k in CrumbFields ==>
            k in fields["metadata_context"].fields && fields["metadata_context"].fields[k].JStr?)
      && "source_url" in fields
    ensures r.Success? ==> r.value.url == fields["source_url"]
    ensures r.Success? ==> fields["filename"] == JStr(r.value.filename)
    ensures r.Success? ==> var meta := fields["metadata_context"].fields;
      r.value.crumbs == Breadcrumbs.Crumbs(meta["group"].s, meta["dept"].s, meta["status"].s, meta["year"].s, meta["raw_employee"].s)
  {
    var filename :- TextField(fields, "filename");
    var meta :- Field(fields, "metadata_context");
    if !meta.JObject? then Failure(NotAnObject)
    else
      var employee :- TextField(meta.fields, "raw_employee");
      var group :- TextField(meta.fields, "group");
      var dept :- TextField(meta.fields, "dept");
      var status :- TextField(meta.fields, "status");
      var year :- TextField(meta.fields, "year");
      var url :- Field(fields, "source_url");
      Success(Job(url, filename, Breadcrumbs.Crumbs(group, dept, status, year, employee)))
  }

  /** A job written by discovery reads back as the same job. */
  lemma ParseJobJson(j: QueuedJob)
    ensures ParseJob(JobJson(j).fields) == Success(Job(JStr(j.url), j.filename, j.crumbs))
  {
    var meta := JobJson(j).fields["metadata_context"];
    assert TextField(meta.fields, "raw_employee") == Success(j.crumbs.rawEmployee);
    assert TextField(meta.fields, "group") == Success(j.crumbs.group);
  }

  /** Lines 194-210: the manifest entry of a job whose processing did not raise. */
  function JobEntry(job: Job, linked: bool, sv: Services): (e: Json)
    ensures e.JObject? && Get(e.fields, "source_url") == job.url
    ensures Get(e.fields, "status") == JStr(if linked then "Success" else "Failed (Link Not Found)")
  {
    var h := Breadcrumbs.WebHierarchy(job.crumbs);
    var path := sv.env.underRoot(PathResolver.ResolveProduction(sv.env.cfg, h, job.filename, sv.env.sub, sv.env.normpath));
    JObject(map[
      "original_filename" := JStr(job.filename),
      "local_path" := JStr(path),
      "source_url" := job.url,
      "status" := JStr(if linked then "Success" else "Failed (Link Not Found)")])
  }

  /** Lines 219-223: the entry of a job whose processing raised; it has no `source_url`. */
  function FailEntry(filename: Json, reason: string): (e: Json)
    ensures e.JObject? && Get(e.fields, "source_url") == JNull
    ensures Get(e.fields, "original_filename") == filename
  {
    JObject(map["original_filename" := filename, "status" := JStr("Failed: " + reason)])
  }

  /** Lines 138-223 for one job: the manifest entry appended, or the error that escapes
      `process_batch` when the handler itself fails on `job['filename']`. */
  function ProcessJob(item: Json, sv: Services): (r: Result<Json>)
    ensures r.Failure? <==> !(item.JObject? && "filename" in item.fields)
    ensures r.Success? ==> r.value.JObject?
  {
    if !item.JObject? then Failure(NotAnObject)
    else if "filename" !in item.fields then Failure(MissingKey("filename"))
    else
      match ParseJob(item.fields)
      case Failure(e) => Success(FailEntry(item.fields["filename"], sv.describe(e)))
      case Success(job) =>
        match sv.attempt(item)
        case Raised(reason) => Success(FailEntry(item.fields["filename"], reason))
        case Downloaded => Success(JobEntry(job, true, sv))
        case LinkNotFound => Success(JobEntry(job, false, sv))
  }

  /** A job counts as done in a later run exactly when its processing did not raise and
      its URL is truthy: "Failed (Link Not Found)" counts, an exception does not. */
  predicate Completes(item: Json, sv: Services) {
    item.JObject? && ParseJob(item.fields).Success? && !sv.attempt(item).Raised?
  }

  lemma ProcessedEntryKey(item: Json, sv: Services)
    requires ProcessJob(item, sv).Success?
    ensures var k := Ledger.LineKey(Ledger.TruthyField("source_url"), Parsed(ProcessJob(item, sv).value));
      k == if Completes(item, sv) && Truthy(item.fields["source_url"]) && Hashable(item.fields["source_url"])
           then Some(item.fields["source_url"]) else None
  {
  }

  /** The jobs processed one after another: the entries appended, and the error that
      ended the run early, if any. */
  datatype Execution = Execution(entries: seq<Json>, crash: Option<Error>)

  /** The jobs run one after another by `step`, the first escaping error ending the run. */
  function Steps<T>(items: seq<T>, step: T -> Result<Json>): (x: Execution)
    ensures |x.entries| <= |items|
    decreases |items|
  {
    if |items| == 0 then Execution([], None)
    else
      match step(items[0])
      case Failure(e) => Execution([], Some(e))
      case Success(entry) =>
        var rest := Steps(items[1..], step);
        Execution([entry] + rest.entries, rest.crash)
  }

  /** Entry `i` is item `i`'s result; the run stops only at an item whose step fails. */
  lemma {:induction false} StepsSpec<T>(items: seq<T>, step: T -> Result<Json>)
    ensures var x := Steps(items, step);
      && (forall i :: 0 <= i < |x.entries| ==> step(items[i]) == Success(x.entries[i]))
      && (x.crash.None? <==> |x.entries| == |items|)
      && (x.crash.Some? ==> step(items[|x.entries|]) == Failure(x.crash.value))
    decreases |items|
  {
    if |items| > 0 && step(items[0]).Success? {
      StepsSpec(items[1..], step);
      assert forall i :: 0 < i < |items| ==> items[i] == items[1..][i - 1];
    }
  }

  /** Once a step fails, nothing after it runs. */
  lemma {:induction false} StepsAppendCrash<T>(a: seq<T>, b: seq<T>, step: T -> Result<Json>)
    requires Steps(a, step).crash.Some?
    ensures Steps(a + b, step) == Steps(a, step)
    decreases |a|
  {
    assert (a + b)[0] == a[0];
    if step(a[0]).Success? {
      assert (a + b)[1..] == a[1..] + b;
      StepsAppendCrash(a[1..], b, step);
    }
  }

  /** Without a failing step, the entries of two stretches are concatenated. */
  lemma {:induction false} StepsAppendOk<T>(a: seq<T>, b: seq<T>, step: T -> Result<Json>)
    requires Steps(a, step).crash.None?
    ensures Steps(a + b, step) == Execution(Steps(a, step).entries + Steps(b, step).entries, Steps(b, step).crash)
    decreases |a|
  {
    if |a| == 0 {
      assert a + b == b;
    } else {
      assert (a + b)[0] == a[0];
      assert (a + b)[1..] == a[1..] + b;
      StepsAppendOk(a[1..], b, step);
      var x, y := Steps(a[1..], step), Steps(b, step);
      var e := step(a[0]).value;
      assert [e] + (x.entries + y.entries) == ([e] + x.entries) + y.entries;
    }
  }

  /** `process_batch`'s handling of one job, as a step. */
  function JobStep(sv: Services): Json -> Result<Json> {
    item => ProcessJob(item, sv)
  }

  /** Lines 133-223: the jobs processed one after another: entry `i` is job `i`'s entry, and
      the run stops early only at a job whose error escapes the handler. */
  function ProcessAll(items: seq<Json>, sv: Services): (x: Execution)
    ensures |x.entries| <= |items|
    ensures forall i :: 0 <= i < |x.entries| ==> ProcessJob(items[i], sv) == Success(x.entries[i])
    ensures x.crash.None? <==> |x.entries| == |items|
    ensures x.crash.Some? ==> ProcessJob(items[|x.entries|], sv) == Failure(x.crash.value)
  {
    StepsSpec(items, JobStep(sv));
    Steps(items, JobStep(sv))
  }

  /** `for batch in batches: process_batch(batch)`, an escaping error ending the loop. */
  function ProcessConcat(bs: seq<seq<Json>>, sv: Services): Execution
    decreases |bs|
  {
    if |bs| == 0 then Execution([], None)
    else
      var first := ProcessAll(bs[0], sv);
      if first.crash.Some? then first
      else
        var rest := ProcessConcat(bs[1..], sv);
        Execution(first.entries + rest.entries, rest.crash)
  }

  /** Processing batch after batch is processing the todo list in order. */
  lemma {:induction false} ProcessBatches(bs: seq<seq<Json>>, sv: Services)
    ensures ProcessAll(Seqs.Concat(bs), sv) == ProcessConcat(bs, sv)
    decreases |bs|
  {
    if |bs| > 0 {
      ProcessBatches(bs[1..], sv);
      if ProcessAll(bs[0], sv).crash.Some? {
        StepsAppendCrash(bs[0], Seqs.Concat(bs[1..]), JobStep(sv));
      } else {
        StepsAppendOk(bs[0], Seqs.Concat(bs[1..]), JobStep(sv));
      }
    }
  }

  /** Lines 227-258: the whole execution phase. */
  function RunExecution(manifest: Option<seq<Line>>, queue: Option<seq<Line>>, sv: Services): (r: Result<Execution>)
    ensures r.Success? <==> LoadQueue(queue).Success? && Todo(LoadQueue(queue).value, DoneSet(manifest)).Success?
    ensures r.Success? ==> r.value == ProcessAll(Todo(LoadQueue(queue).value, DoneSet(manifest)).value, sv)
  {
    var done := DoneSet(manifest);
    var items :- LoadQueue(queue);
    var todo :- Todo(items, done);
    var batches := Batches(todo, BatchSize);
    ProcessBatches(batches, sv);
    Success(ProcessConcat(batches, sv))
  }

  /** Line 231: `load_set_from_jsonl(MANIFEST_FILE, "source_url")`. */
  function DoneSet(manifest: Option<seq<Line>>): (done: set<Json>)
    ensures manifest.None? ==> done == {}
  {
    if manifest.None? then {} else Ledger.Collect(Ledger.TruthyField("source_url"), manifest.value)
  }

  /** Job `item` completed and its truthy, hashable `source_url` is `k`: the key its
      manifest entry contributes. */
  predicate RecordsUrl(item: Json, sv: Services, k: Json) {
    Completes(item, sv) && item.fields["source_url"] == k && Truthy(k) && Hashable(k)
  }

  /** The URLs the next run treats as done: the old ones plus those of the processed jobs
      that completed; a job whose processing raised is retried. After a crash that cut the
      manifest's last line short, the cut line and the first new entry are lost instead. */
  lemma {:induction false} NextDoneSet(f: Ledger.Jsonl, items: seq<Json>, sv: Services, k: Json)
    ensures var x := ProcessAll(items, sv);
      Ledger.EndsLine(f) ==>
        (k in Ledger.Collect(Ledger.TruthyField("source_url"), Ledger.AppendAll(f, x.entries).lines) <==>
         k in Ledger.Collect(Ledger.TruthyField("source_url"), f.lines) ||
         exists i :: 0 <= i < |x.entries| && RecordsUrl(items[i], sv, k))
    ensures var x := ProcessAll(items, sv);
      |x.entries| > 0 ==>
        (k in Ledger.Collect(Ledger.TruthyField("source_url"), Ledger.AppendAll(f, x.entries).lines) <==>
         k in Ledger.Collect(Ledger.TruthyField("source_url"), Ledger.Kept(f)) ||
         exists i :: Ledger.Swallowed(f) <= i < |x.entries| && RecordsUrl(items[i], sv, k))
  {
    var x := ProcessAll(items, sv);
    var sel := Ledger.TruthyField("source_url");
    Ledger.AppendAllThenCollect(sel, f, x.entries);
    if |x.entries| > 0 || Ledger.EndsLine(f) {
      EntriesCollect(items, sv, Ledger.Swallowed(f), k);
    }
  }

  /** The keys of processed entries from `from` on, written on lines of their own. */
  lemma {:induction false} EntriesCollect(items: seq<Json>, sv: Services, from: nat, k: Json)
    requires from <= |ProcessAll(items, sv).entries|
    ensures var x := ProcessAll(items, sv);
      k in Ledger.Collect(Ledger.TruthyField("source_url"), Ledger.AsLines(x.entries[from..])) <==>
      exists i :: from <= i < |x.entries| && RecordsUrl(items[i], sv, k)
  {
    var sel := Ledger.TruthyField("source_url");
    var es := ProcessAll(items, sv).entries;
    Ledger.RecordsCollect(sel, es, from, k);
    forall i | from <= i < |es| ensures Ledger.LineKey(sel, Parsed(es[i])) == Some(k) <==> RecordsUrl(items[i], sv, k) {
      EntryKeyAt(items, sv, i, k);
    }
  }

  /** Entry `i` of a run contributes `k` exactly when job `i` records it. */
  lemma EntryKeyAt(items: seq<Json>, sv: Services, i: nat, k: Json)
    requires i < |ProcessAll(items, sv).entries|
    ensures Ledger.LineKey(Ledger.TruthyField("source_url"), Parsed(ProcessAll(items, sv).entries[i])) == Some(k) <==>
      RecordsUrl(items[i], sv, k)
  {
    ProcessedEntryKey(items[i], sv);
  }
}
