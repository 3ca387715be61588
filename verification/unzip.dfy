/** The ZIP-wrapper repairs: final_unzip_fix.py replaces a downloaded ZIP wrapper by the one
    member that is the real document; fix_vmr_data.py spills every member of a ZIP into the
    archive's folder. Both work on one folder, modelled as the files it holds and its
    sub-folders with the files directly inside them; decompression is a given function from
    the archive's bytes to its members. */
module Unzip {
  import opened Wrappers
  import Text

  type Bytes = seq<bv8>

  /** An extracted member: its path in the walk of the extraction folder, its base name,
      and its contents. */
  datatype Member = Member(path: string, name: string, data: Bytes)

  /** `extractall` followed by the walk of the extraction folder: `None` when the archive
      cannot be read (`BadZipFile` or another exception), otherwise the files in walk order. */
  type Extractor = Bytes -> Option<seq<Member>>

  /** A folder: the files directly in it, and its sub-folders by name with the files
      directly in each. */
  datatype Folder = Folder(files: map<string, Bytes>, dirs: map<string, map<string, Bytes>>)

  /** The local file header signature `PK\x03\x04` (section 4.3.7 of PKWARE's APPNOTE.TXT). */
  const Signature: Bytes := [0x50, 0x4B, 0x03, 0x04]

  /** final_unzip_fix.py:11-14: `f.read(4) == b'PK\x03\x04'`; a shorter file reads fewer bytes. */
  predicate HasZipSignature(content: Bytes) {
    |content| >= 4 && content[..4] == Signature
  }

  /** The position of the first member satisfying `p` (`next(...)` over the walk). */
  function FirstWhere(ms: seq<Member>, p: Member -> bool): (r: Option<nat>)
    ensures r.None? <==> forall i :: 0 <= i < |ms| ==> !p(ms[i])
    ensures r.Some? ==> r.value < |ms| && p(ms[r.value]) && forall i :: 0 <= i < r.value ==> !p(ms[i])
  {
    if |ms| == 0 then None
    else if p(ms[0]) then Some(0)
    else match FirstWhere(ms[1..], p)
      case None => None
      case Some(i) => Some(i + 1)
  }

  function NamedAs(target: string): Member -> bool {
    (m: Member) => m.name == target
  }

  function IsPdf(m: Member): bool {
    Text.EndsWith(m.path, ".pdf")
  }

  /** final_unzip_fix.py:39-48: the first member named like the wrapper, else the first
      `.pdf` (case-sensitive), else the first member. */
  function BestForWrapper(ms: seq<Member>, target: string): (k: nat)
    requires |ms| > 0
    ensures k < |ms|
    ensures (exists i :: 0 <= i < |ms| && ms[i].name == target) ==>
      ms[k].name == target && forall i :: 0 <= i < k ==> ms[i].name != target
    ensures (forall i :: 0 <= i < |ms| ==> ms[i].name != target) && (exists i :: 0 <= i < |ms| && IsPdf(ms[i])) ==>
      IsPdf(ms[k]) && forall i :: 0 <= i < k ==> !IsPdf(ms[i])
    ensures (forall i :: 0 <= i < |ms| ==> ms[i].name != target && !IsPdf(ms[i])) ==> k == 0
  {
    match FirstWhere(ms, NamedAs(target))
    case Some(i) => i
    case None =>
      match FirstWhere(ms, IsPdf)
      case Some(j) => j
      case None => 0
  }

  /** final_unzip_fix.py:8: the extraction folder sits next to the file. */
  function FixTemp(name: string): string { name + "_fix_extract" }

  /** final_unzip_fix.py:7-61 for the file `name` of `dir`. Every exit goes through the
      `finally` that removes the extraction folder if it exists. */
  function CleanZipWrapper(dir: Folder, name: string, extract: Extractor): (r: Folder)
    ensures r.dirs == dir.dirs - {FixTemp(name)}
    ensures r.files.Keys == dir.files.Keys
    ensures forall n :: n in dir.files && n != name ==> r.files[n] == dir.files[n]
    ensures name in dir.files && !HasZipSignature(dir.files[name]) ==> r.files == dir.files
    ensures name in dir.files && HasZipSignature(dir.files[name]) ==>
      match extract(dir.files[name])
      case None => r.files == dir.files
      case Some(ms) =>
        if |ms| == 0 then r.files == dir.files
        else r.files == dir.files[name := ms[BestForWrapper(ms, name)].data]
  {
    var cleaned := dir.dirs - {FixTemp(name)};
    if name !in dir.files || !HasZipSignature(dir.files[name]) then Folder(dir.files, cleaned)
    else
      match extract(dir.files[name])
      case None => Folder(dir.files, cleaned)
      case Some(ms) =>
        if |ms| == 0 then Folder(dir.files, cleaned)
        else Folder(dir.files[name := ms[BestForWrapper(ms, name)].data], cleaned)
  }

  /** final_unzip_fix.py:63-68: the files of a walked folder in listing order; `.json`
      files are passed over. */
  function ScanAndFix(dir: Folder, names: seq<string>, extract: Extractor): Folder
    decreases |names|
  {
    if |names| == 0 then dir
    else if Text.EndsWith(names[0], ".json") then ScanAndFix(dir, names[1..], extract)
    else ScanAndFix(CleanZipWrapper(dir, names[0], extract), names[1..], extract)
  }

  /** A scan never changes a `.json` file, keeps the set of files, and leaves no extraction
      folder of a scanned file behind. */
  lemma {:induction false} ScanLeavesJsonUntouched(dir: Folder, names: seq<string>, extract: Extractor)
    ensures ScanAndFix(dir, names, extract).files.Keys == dir.files.Keys
    ensures forall n :: n in dir.files && Text.EndsWith(n, ".json") ==> ScanAndFix(dir, names, extract).files[n] == dir.files[n]
    ensures forall i :: 0 <= i < |names| && !Text.EndsWith(names[i], ".json") ==>
      FixTemp(names[i]) !in ScanAndFix(dir, names, extract).dirs
    ensures ScanAndFix(dir, names, extract).dirs.Keys <= dir.dirs.Keys
    ensures forall n :: n in ScanAndFix(dir, names, extract).dirs ==> ScanAndFix(dir, names, extract).dirs[n] == dir.dirs[n]
    decreases |names|
  {
    if |names| > 0 {
      var next := if Text.EndsWith(names[0], ".json") then dir else CleanZipWrapper(dir, names[0], extract);
      ScanLeavesJsonUntouched(next, names[1..], extract);
      forall i | 0 < i < |names| ensures names[i] == names[1..][i - 1] {}
    }
  }

  /** fix_vmr_data.py:9: the extraction folder of `extract_zip`. */
  function SpillTemp(name: string): string { name + "_temp_extract" }

  /** `shutil.move(f, dest)` at fix_vmr_data.py:31 for one member: when `dest` names a
      sub-folder the file goes inside it under its base name, and the move raises if that
      sub-folder already holds the name; otherwise the file becomes `dest`, replacing a file
      of that name. `None` is the raise. */
  function MoveOne(d: Folder, m: Member): (r: Option<Folder>)
    ensures r.None? <==> m.name in d.dirs && m.name in d.dirs[m.name]
    ensures r.Some? ==> r.value.dirs.Keys == d.dirs.Keys
    ensures r.Some? && m.name in d.dirs ==>
      r.value.files == d.files && r.value.dirs == d.dirs[m.name := d.dirs[m.name][m.name := m.data]]
    ensures r.Some? && m.name !in d.dirs ==> r.value == Folder(d.files[m.name := m.data], d.dirs)
  {
    if m.name in d.dirs then
      if m.name in d.dirs[m.name] then None
      else Some(Folder(d.files, d.dirs[m.name := d.dirs[m.name][m.name := m.data]]))
    else Some(Folder(d.files[m.name := m.data], d.dirs))
  }

  /** The folder after the moves of fix_vmr_data.py:28-32, and how many members were moved
      before one raised (all of them when none did). */
  datatype Spill = Spill(dir: Folder, moved: nat)

  /** Member `i` cannot be moved: its name is a sub-folder that already holds that name,
      or that an earlier member moved into. */
  predicate Clashes(dirs: map<string, map<string, Bytes>>, ms: seq<Member>, i: nat)
    requires i < |ms|
  {
    ms[i].name in dirs && (ms[i].name in dirs[ms[i].name] || exists j :: 0 <= j < i && ms[j].name == ms[i].name)
  }

  /** fix_vmr_data.py:28-32: the members moved one after another, the first raise ending
      the loop. */
  function MoveAll(d: Folder, ms: seq<Member>): (r: Spill)
    ensures r.moved <= |ms|
    ensures r.dir.dirs.Keys == d.dirs.Keys
    ensures d.files.Keys <= r.dir.files.Keys
    decreases |ms|
  {
    if |ms| == 0 then Spill(d, 0)
    else match MoveOne(d, ms[0])
      case None => Spill(d, 0)
      case Some(next) =>
        var rest := MoveAll(next, ms[1..]);
        Spill(rest.dir, rest.moved + 1)
  }

  /** Moving stops exactly at the first member that clashes: every member before it was
      moved, and the one it stopped at clashes. */
  lemma {:induction false} MoveAllStopsAtClash(d: Folder, ms: seq<Member>)
    ensures forall i :: 0 <= i < MoveAll(d, ms).moved ==> !Clashes(d.dirs, ms, i)
    ensures MoveAll(d, ms).moved < |ms| ==> Clashes(d.dirs, ms, MoveAll(d, ms).moved)
    decreases |ms|
  {
    if |ms| > 0 {
      match MoveOne(d, ms[0])
      case None =>
      case Some(next) =>
        var rest := ms[1..];
        MoveAllStopsAtClash(next, rest);
        forall i | 1 <= i < |ms| ensures Clashes(d.dirs, ms, i) <==> Clashes(next.dirs, rest, i - 1) {
          ClashShift(d, ms, next, i);
        }
    }
  }

  /** After moving the first member, member `i` clashes in the new folder exactly as it
      did in the old one. */
  lemma ClashShift(d: Folder, ms: seq<Member>, next: Folder, i: nat)
    requires 1 <= i < |ms| && MoveOne(d, ms[0]) == Some(next)
    ensures Clashes(d.dirs, ms, i) <==> Clashes(next.dirs, ms[1..], i - 1)
  {
    var rest := ms[1..];
    assert rest[i - 1] == ms[i];
    if exists j :: 0 <= j < i && ms[j].name == ms[i].name {
      var j :| 0 <= j < i && ms[j].name == ms[i].name;
      if j > 0 {
        assert rest[j - 1] == ms[j];
      }
    }
    if exists j :: 0 <= j < i - 1 && rest[j].name == rest[i - 1].name {
      var j :| 0 <= j < i - 1 && rest[j].name == rest[i - 1].name;
      assert ms[j + 1] == rest[j];
    }
  }

  /** Among the moved members, a name that is no sub-folder of `d` holds the data of the
      last moved member of that name. */
  predicate LastMovedWins(d: Folder, ms: seq<Member>, r: Spill)
    requires r.moved <= |ms|
  {
    forall i :: 0 <= i < r.moved && ms[i].name !in d.dirs && (forall j :: i < j < r.moved ==> ms[j].name != ms[i].name) ==>
      ms[i].name in r.dir.files && r.dir.files[ms[i].name] == ms[i].data
  }

  /** A moved member named like a sub-folder of `d` sits inside that sub-folder. */
  predicate MovedInside(d: Folder, ms: seq<Member>, r: Spill)
    requires r.moved <= |ms|
  {
    forall i :: 0 <= i < r.moved && ms[i].name in d.dirs ==>
      ms[i].name in r.dir.dirs && ms[i].name in r.dir.dirs[ms[i].name] && r.dir.dirs[ms[i].name][ms[i].name] == ms[i].data
  }

  /** The files of `d` that no moved member names are as they were. */
  predicate UnnamedFilesSame(d: Folder, ms: seq<Member>, r: Spill)
    requires r.moved <= |ms|
  {
    forall n :: n in d.files && (forall i :: 0 <= i < r.moved ==> ms[i].name != n) ==> n in r.dir.files && r.dir.files[n] == d.files[n]
  }

  /** Every file after the moves was in `d` or is named by a moved member. */
  predicate NoStrayFiles(d: Folder, ms: seq<Member>, r: Spill)
    requires r.moved <= |ms|
  {
    forall n :: n in r.dir.files ==> n in d.files || exists i :: 0 <= i < r.moved && ms[i].name == n
  }

  /** The sub-folders of `d` that no moved member names are as they were. */
  predicate UnnamedDirsSame(d: Folder, ms: seq<Member>, r: Spill)
    requires r.moved <= |ms|
  {
    forall n :: n in d.dirs && (forall i :: 0 <= i < r.moved ==> ms[i].name != n) ==> n in r.dir.dirs && r.dir.dirs[n] == d.dirs[n]
  }

  /** The members that were moved, seen from the folder: a name that is no sub-folder holds
      the data of the last moved member of that name, a sub-folder holds the one member
      that went inside it, and everything no moved member names is as it was. */
  lemma MoveAllLastWins(d: Folder, ms: seq<Member>)
    ensures LastMovedWins(d, ms, MoveAll(d, ms))
    ensures MovedInside(d, ms, MoveAll(d, ms))
    ensures UnnamedFilesSame(d, ms, MoveAll(d, ms))
    ensures NoStrayFiles(d, ms, MoveAll(d, ms))
    ensures UnnamedDirsSame(d, ms, MoveAll(d, ms))
  {
    MovedFilesLastWin(d, ms);
    MovedIntoDirs(d, ms);
    UnnamedFilesKept(d, ms);
    FilesComeFromMembers(d, ms);
    UnnamedDirsKept(d, ms);
  }

  lemma {:induction false} MovedFilesLastWin(d: Folder, ms: seq<Member>)
    ensures var r := MoveAll(d, ms);
      forall i :: 0 <= i < r.moved && ms[i].name !in d.dirs && (forall j :: i < j < r.moved ==> ms[j].name != ms[i].name) ==>
        ms[i].name in r.dir.files && r.dir.files[ms[i].name] == ms[i].data
    decreases |ms|
  {
    if |ms| > 0 && MoveOne(d, ms[0]).Some? {
      var next := MoveOne(d, ms[0]).value;
      var rest := ms[1..];
      MovedFilesLastWin(next, rest);
      var r := MoveAll(d, ms);
      assert r == Spill(MoveAll(next, rest).dir, MoveAll(next, rest).moved + 1);
      forall i | 0 <= i < r.moved && ms[i].name !in d.dirs && (forall j :: i < j < r.moved ==> ms[j].name != ms[i].name)
        ensures ms[i].name in r.dir.files && r.dir.files[ms[i].name] == ms[i].data
      {
        if i == 0 {
          FirstMovedWins(d, ms);
        } else {
          LaterMovedWins(d, next, ms, MoveAll(next, rest), r, i);
        }
      }
    }
  }

  /** The first member, when no later moved member shares its name, keeps its file. */
  lemma FirstMovedWins(d: Folder, ms: seq<Member>)
    requires |ms| > 0 && MoveOne(d, ms[0]).Some? && ms[0].name !in d.dirs
    requires forall j :: 0 < j < MoveAll(d, ms).moved ==> ms[j].name != ms[0].name
    ensures ms[0].name in MoveAll(d, ms).dir.files && MoveAll(d, ms).dir.files[ms[0].name] == ms[0].data
  {
    var next := MoveOne(d, ms[0]).value;
    var rest := ms[1..];
    var tail := MoveAll(next, rest);
    UnnamedFilesKept(next, rest);
    assert MoveAll(d, ms) == Spill(tail.dir, tail.moved + 1);
    forall k | 0 <= k < tail.moved ensures rest[k].name != ms[0].name {
      assert rest[k] == ms[k + 1];
    }
  }

  /** A later member wins as it does among the members after the first: `r` is the spill
      of all of `ms` and `tail` that of `ms[1..]` after the first move reached `next`. */
  lemma LaterMovedWins(d: Folder, next: Folder, ms: seq<Member>, tail: Spill, r: Spill, i: nat)
    requires |ms| > 0 && next.dirs.Keys == d.dirs.Keys
    requires tail.moved <= |ms| - 1 && r == Spill(tail.dir, tail.moved + 1)
    requires LastMovedWins(next, ms[1..], tail)
    requires 0 < i < r.moved && ms[i].name !in d.dirs
    requires forall j :: i < j < r.moved ==> ms[j].name != ms[i].name
    ensures ms[i].name in r.dir.files && r.dir.files[ms[i].name] == ms[i].data
  {
    var rest := ms[1..];
    assert rest[i - 1] == ms[i];
    forall j | i - 1 < j < tail.moved ensures rest[j].name != rest[i - 1].name {
      assert rest[j] == ms[j + 1];
    }
  }

  lemma {:induction false} MovedIntoDirs(d: Folder, ms: seq<Member>)
    ensures var r := MoveAll(d, ms);
      forall i :: 0 <= i < r.moved && ms[i].name in d.dirs ==>
        ms[i].name in r.dir.dirs && ms[i].name in r.dir.dirs[ms[i].name] && r.dir.dirs[ms[i].name][ms[i].name] == ms[i].data
    decreases |ms|
  {
    if |ms| > 0 && MoveOne(d, ms[0]).Some? {
      var next := MoveOne(d, ms[0]).value;
      var rest := ms[1..];
      MovedIntoDirs(next, rest);
      UnnamedDirsKept(next, rest);
      MoveAllStopsAtClash(d, ms);
      var r := MoveAll(d, ms);
      assert r == Spill(MoveAll(next, rest).dir, MoveAll(next, rest).moved + 1);
      forall i | 0 < i < |ms| ensures ms[i] == rest[i - 1] {}
      if ms[0].name in d.dirs {
        forall i | 0 <= i < MoveAll(next, rest).moved ensures rest[i].name != ms[0].name {
          assert !Clashes(d.dirs, ms, i + 1);
        }
      }
    }
  }

  lemma {:induction false} UnnamedFilesKept(d: Folder, ms: seq<Member>)
    ensures var r := MoveAll(d, ms);
      forall n :: n in d.files && (forall i :: 0 <= i < r.moved ==> ms[i].name != n) ==> n in r.dir.files && r.dir.files[n] == d.files[n]
    decreases |ms|
  {
    if |ms| > 0 && MoveOne(d, ms[0]).Some? {
      var next := MoveOne(d, ms[0]).value;
      var rest := ms[1..];
      var tail := MoveAll(next, rest);
      UnnamedFilesKept(next, rest);
      var r := MoveAll(d, ms);
      assert r == Spill(tail.dir, tail.moved + 1);
      forall n | n in d.files && (forall i :: 0 <= i < r.moved ==> ms[i].name != n) ensures n in r.dir.files && r.dir.files[n] == d.files[n] {
        assert ms[0].name != n;
        forall k | 0 <= k < tail.moved ensures rest[k].name != n {
          assert rest[k] == ms[k + 1];
        }
      }
    }
  }

  lemma {:induction false} FilesComeFromMembers(d: Folder, ms: seq<Member>)
    ensures var r := MoveAll(d, ms);
      forall n :: n in r.dir.files ==> n in d.files || exists i :: 0 <= i < r.moved && ms[i].name == n
    decreases |ms|
  {
    if |ms| > 0 && MoveOne(d, ms[0]).Some? {
      var next := MoveOne(d, ms[0]).value;
      var rest := ms[1..];
      FilesComeFromMembers(next, rest);
      var r := MoveAll(d, ms);
      forall n | n in r.dir.files ensures n in d.files || exists i :: 0 <= i < r.moved && ms[i].name == n {
        if n !in next.files {
          var i :| 0 <= i < MoveAll(next, rest).moved && rest[i].name == n;
          assert ms[i + 1] == rest[i];
        } else if n !in d.files {
          assert ms[0].name == n;
        }
      }
    }
  }

  lemma {:induction false} UnnamedDirsKept(d: Folder, ms: seq<Member>)
    ensures var r := MoveAll(d, ms);
      forall n :: n in d.dirs && (forall i :: 0 <= i < r.moved ==> ms[i].name != n) ==> n in r.dir.dirs && r.dir.dirs[n] == d.dirs[n]
    decreases |ms|
  {
    if |ms| > 0 && MoveOne(d, ms[0]).Some? {
      var next := MoveOne(d, ms[0]).value;
      UnnamedDirsKept(next, ms[1..]);
      forall i | 0 < i < |ms| ensures ms[i] == ms[1..][i - 1] {}
    }
  }

  /** The folder once `os.makedirs(temp_dir, exist_ok=True)` has run. */
  function WithTemp(dir: Folder, name: string): (r: Folder)
    ensures r.files == dir.files && r.dirs.Keys == dir.dirs.Keys + {SpillTemp(name)}
    ensures forall n :: n in dir.dirs ==> r.dirs[n] == dir.dirs[n]
  {
    if SpillTemp(name) in dir.dirs then dir else Folder(dir.files, dir.dirs[SpillTemp(name) := map[]])
  }

  /** fix_vmr_data.py:7-41 as written: the members are moved next to the archive, and then
      the archive's own path is removed, taking with it a member that had the same name.
      An unreadable archive, or a move that raises, is reported and skipped, leaving the
      extraction folder behind and the archive in place. */
  function ExtractZipAsWritten(dir: Folder, name: string, extract: Extractor): (r: Folder)
    requires name in dir.files
    ensures extract(dir.files[name]).None? ==> r == WithTemp(dir, name)
    ensures extract(dir.files[name]) == Some([]) ==> r.files == dir.files && SpillTemp(name) !in r.dirs
    ensures r.dirs.Keys == dir.dirs.Keys - {SpillTemp(name)} || r.dirs.Keys == dir.dirs.Keys + {SpillTemp(name)}
  {
    var d := WithTemp(dir, name);
    match extract(dir.files[name])
    case None => d
    case Some(ms) =>
      if |ms| == 0 then Folder(dir.files, dir.dirs - {SpillTemp(name)})
      else
        var s := MoveAll(d, ms);
        if s.moved < |ms| then s.dir
        else Folder(s.dir.files - {name}, s.dir.dirs - {SpillTemp(name)})
  }

  /** As written, an archive with no members only loses its extraction folder. */
  lemma EmptyZipRemovesTempFolder(dir: Folder, name: string, extract: Extractor)
    requires name in dir.files && extract(dir.files[name]) == Some([])
    ensures var r := ExtractZipAsWritten(dir, name, extract);
      r.files == dir.files && r.dirs == dir.dirs - {SpillTemp(name)} && SpillTemp(name) !in r.dirs
  {
  }

  /** As written, when no member clashes the extraction succeeds: every member is moved,
      and then the archive's path and the extraction folder are removed. */
  lemma ExtractZipAsWrittenSpills(dir: Folder, name: string, extract: Extractor)
    requires name in dir.files && extract(dir.files[name]).Some?
    requires var ms := extract(dir.files[name]).value;
      |ms| > 0 && forall i :: 0 <= i < |ms| ==> !Clashes(WithTemp(dir, name).dirs, ms, i)
    ensures var r := ExtractZipAsWritten(dir, name, extract);
      name !in r.files && SpillTemp(name) !in r.dirs
    ensures var ms := extract(dir.files[name]).value;
      var s := MoveAll(WithTemp(dir, name), ms);
      var r := ExtractZipAsWritten(dir, name, extract);
      s.moved == |ms| && r.files == s.dir.files - {name} && r.dirs == s.dir.dirs - {SpillTemp(name)}
  {
    MoveAllStopsAtClash(WithTemp(dir, name), extract(dir.files[name]).value);
  }

  /** Where the members of a successful as-written extraction land: a member named like the
      archive is removed with it; any other lands last-wins next to it, or inside the
      sub-folder of its name; files no member names stay as they were. */
  lemma ExtractZipAsWrittenLands(dir: Folder, name: string, extract: Extractor)
    requires name in dir.files && extract(dir.files[name]).Some?
    requires var ms := extract(dir.files[name]).value;
      |ms| > 0 && forall i :: 0 <= i < |ms| ==> !Clashes(WithTemp(dir, name).dirs, ms, i)
    ensures var ms := extract(dir.files[name]).value;
      var r := ExtractZipAsWritten(dir, name, extract);
      forall i :: 0 <= i < |ms| && ms[i].name != name && ms[i].name !in WithTemp(dir, name).dirs && (forall j :: i < j < |ms| ==> ms[j].name != ms[i].name) ==>
        ms[i].name in r.files && r.files[ms[i].name] == ms[i].data
    ensures var ms := extract(dir.files[name]).value;
      var r := ExtractZipAsWritten(dir, name, extract);
      forall i :: 0 <= i < |ms| && ms[i].name in dir.dirs && ms[i].name != SpillTemp(name) ==>
        ms[i].name in r.dirs && ms[i].name in r.dirs[ms[i].name] && r.dirs[ms[i].name][ms[i].name] == ms[i].data
    ensures var ms := extract(dir.files[name]).value;
      var r := ExtractZipAsWritten(dir, name, extract);
      forall n :: n in dir.files && n != name && (forall i :: 0 <= i < |ms| ==> ms[i].name != n) ==>
        n in r.files && r.files[n] == dir.files[n]
  {
    var ms := extract(dir.files[name]).value;
    var d := WithTemp(dir, name);
    ExtractZipAsWrittenSpills(dir, name, extract);
    MoveAllLastWins(d, ms);
    var s, r := MoveAll(d, ms), ExtractZipAsWritten(dir, name, extract);
    RemovalKeepsMovedFiles(d, ms, s, name, SpillTemp(name), r);
    RemovalKeepsMovedInside(d, ms, s, name, SpillTemp(name), r);
    RemovalKeepsUnnamed(d, ms, s, name, SpillTemp(name), r);
  }

  /** A complete spill followed by the removal of one file and one sub-folder: the last
      member of each other name that went next to the archive stays. */
  lemma RemovalKeepsMovedFiles(d: Folder, ms: seq<Member>, s: Spill, name: string, temp: string, r: Folder)
    requires s.moved == |ms| && LastMovedWins(d, ms, s)
    requires r.files == s.dir.files - {name} && r.dirs == s.dir.dirs - {temp}
    ensures forall i :: 0 <= i < |ms| && ms[i].name != name && ms[i].name !in d.dirs && (forall j :: i < j < |ms| ==> ms[j].name != ms[i].name) ==>
      ms[i].name in r.files && r.files[ms[i].name] == ms[i].data
  {
  }

  /** The same removals keep every member that went inside another sub-folder. */
  lemma RemovalKeepsMovedInside(d: Folder, ms: seq<Member>, s: Spill, name: string, temp: string, r: Folder)
    requires s.moved == |ms| && MovedInside(d, ms, s)
    requires r.files == s.dir.files - {name} && r.dirs == s.dir.dirs - {temp}
    ensures forall i :: 0 <= i < |ms| && ms[i].name in d.dirs && ms[i].name != temp ==>
      ms[i].name in r.dirs && ms[i].name in r.dirs[ms[i].name] && r.dirs[ms[i].name][ms[i].name] == ms[i].data
  {
  }

  /** The same removals keep every other file no member names. */
  lemma RemovalKeepsUnnamed(d: Folder, ms: seq<Member>, s: Spill, name: string, temp: string, r: Folder)
    requires s.moved == |ms| && UnnamedFilesSame(d, ms, s)
    requires r.files == s.dir.files - {name} && r.dirs == s.dir.dirs - {temp}
    ensures forall n :: n in d.files && n != name && (forall i :: 0 <= i < |ms| ==> ms[i].name != n) ==>
      n in r.files && r.files[n] == d.files[n]
  {
  }

  /** An archive holding one member named like itself loses that member: as written, the
      folder ends with neither the archive nor its contents. */
  lemma SameNameMemberIsDeleted(extract: Extractor, doc: Bytes)
    requires extract([0x50, 0x4B, 0x03, 0x04]) == Some([Member("a.pdf", "a.pdf", doc)])
    ensures var dir := Folder(map["a.pdf" := [0x50, 0x4B, 0x03, 0x04]], map[]);
      "a.pdf" !in ExtractZipAsWritten(dir, "a.pdf", extract).files
  {
  }

  /** A member named like a sub-folder of the archive's folder is moved inside that
      sub-folder, as `scan/scan`, rather than becoming a file of the folder. */
  lemma MemberNamedLikeFolderGoesInside(extract: Extractor, doc: Bytes)
    requires extract([0x50, 0x4B, 0x03, 0x04]) == Some([Member("scan", "scan", doc)])
    ensures var dir := Folder(map["a.zip" := [0x50, 0x4B, 0x03, 0x04]], map["scan" := map[]]);
      var r := ExtractZipAsWritten(dir, "a.zip", extract);
      "scan" !in r.files && "scan" in r.dirs && r.dirs["scan"] == map["scan" := doc]
  {
    var dir := Folder(map["a.zip" := [0x50, 0x4B, 0x03, 0x04]], map["scan" := map[]]);
    var d := WithTemp(dir, "a.zip");
    var ms := [Member("scan", "scan", doc)];
    assert SpillTemp("a.zip") != "scan" by {
      assert |SpillTemp("a.zip")| != |"scan"|;
    }
    assert "scan" in d.dirs && d.dirs["scan"] == map[];
    var next := Folder(d.files, d.dirs["scan" := map["scan" := doc]]);
    assert MoveOne(d, ms[0]) == Some(next);
    assert MoveAll(d, ms) == Spill(next, 1) by {
      assert MoveAll(next, ms[1..]) == Spill(next, 0);
    }
    assert d.files == map["a.zip" := [0x50, 0x4B, 0x03, 0x04]];
  }

  /** As written, an unreadable archive leaves a new `_temp_extract` folder behind. */
  lemma InvalidZipLeavesTempFolder(dir: Folder, name: string, extract: Extractor)
    requires name in dir.files && extract(dir.files[name]).None?
    ensures ExtractZipAsWritten(dir, name, extract).files == dir.files
    ensures SpillTemp(name) in ExtractZipAsWritten(dir, name, extract).dirs
  {
  }

  /** As written, a member that cannot be moved into its sub-folder ends the extraction:
      the members before it stay moved, the archive stays, and so does the extraction
      folder. */
  lemma MoveClashLeavesTempFolder(dir: Folder, name: string, extract: Extractor)
    requires name in dir.files && extract(dir.files[name]).Some?
    requires var ms := extract(dir.files[name]).value;
      exists i :: 0 <= i < |ms| && Clashes(WithTemp(dir, name).dirs, ms, i)
    ensures var ms := extract(dir.files[name]).value;
      ExtractZipAsWritten(dir, name, extract) == MoveAll(WithTemp(dir, name), ms).dir
    ensures name in ExtractZipAsWritten(dir, name, extract).files
    ensures SpillTemp(name) in ExtractZipAsWritten(dir, name, extract).dirs
  {
    var ms := extract(dir.files[name]).value;
    var d := WithTemp(dir, name);
    MoveAllStopsAtClash(d, ms);
    MoveAllLastWins(d, ms);
  }

  /** `extract_zip` as evidently intended: the archive is removed only when no member took
      its name, it is kept when a move raises, and the extraction folder is removed on
      every exit. */
  function ExtractZip(dir: Folder, name: string, extract: Extractor): (r: Folder)
    requires name in dir.files
    ensures r.dirs.Keys == dir.dirs.Keys - {SpillTemp(name)}
    ensures extract(dir.files[name]).None? ==> r.files == dir.files
    ensures extract(dir.files[name]).Some? && |extract(dir.files[name]).value| == 0 ==> r.files == dir.files
  {
    var cleaned := dir.dirs - {SpillTemp(name)};
    match extract(dir.files[name])
    case None => Folder(dir.files, cleaned)
    case Some(ms) =>
      if |ms| == 0 then Folder(dir.files, cleaned)
      else
        var s := MoveAll(WithTemp(dir, name), ms);
        var replaced := exists i :: 0 <= i < s.moved && ms[i].name == name;
        var files := if s.moved < |ms| || replaced then s.dir.files else s.dir.files - {name};
        Folder(files, s.dir.dirs - {SpillTemp(name)})
  }

  /** With the corrected order, when no member clashes, every member lands in the folder
      with the data of the last member of its name (inside the sub-folder of that name if
      there is one); the archive is gone unless a member took its name; the remaining files
      are untouched. When a member clashes, the archive stays. */
  lemma ExtractZipSpillsEveryMember(dir: Folder, name: string, extract: Extractor)
    requires name in dir.files
    requires extract(dir.files[name]).Some? && |extract(dir.files[name]).value| > 0
    ensures var ms := extract(dir.files[name]).value;
      var r := ExtractZip(dir, name, extract);
      var dirs := WithTemp(dir, name).dirs;
      (forall i :: 0 <= i < |ms| ==> !Clashes(dirs, ms, i)) ==>
      && (forall i :: 0 <= i < |ms| && ms[i].name !in dirs && (forall j :: i < j < |ms| ==> ms[j].name != ms[i].name) ==>
            ms[i].name in r.files && r.files[ms[i].name] == ms[i].data)
      && (forall i :: 0 <= i < |ms| && ms[i].name in dirs && ms[i].name != SpillTemp(name) ==>
            ms[i].name in r.dirs && ms[i].name in r.dirs[ms[i].name] && r.dirs[ms[i].name][ms[i].name] == ms[i].data)
      && (name in r.files <==> exists i :: 0 <= i < |ms| && ms[i].name == name)
      && (forall n :: n in dir.files && n != name && (forall i :: 0 <= i < |ms| ==> ms[i].name != n) ==>
            n in r.files && r.files[n] == dir.files[n])
    ensures var ms := extract(dir.files[name]).value;
      (exists i :: 0 <= i < |ms| && Clashes(WithTemp(dir, name).dirs, ms, i)) ==>
      name in ExtractZip(dir, name, extract).files
  {
    var ms := extract(dir.files[name]).value;
    var d := WithTemp(dir, name);
    if forall i :: 0 <= i < |ms| ==> !Clashes(d.dirs, ms, i) {
      SpillFiles(dir, name, extract);
      SpillIntoDirs(dir, name, extract);
      SpillArchive(dir, name, extract);
      SpillKeepsOthers(dir, name, extract);
    } else {
      MoveAllStopsAtClash(d, ms);
    }
  }

  /** When no member clashes, every member is moved and the corrected extraction removes
      the archive only if no member took its name. */
  lemma SpillResult(dir: Folder, name: string, extract: Extractor)
    requires name in dir.files
    requires extract(dir.files[name]).Some? && |extract(dir.files[name]).value| > 0
    requires var ms := extract(dir.files[name]).value;
      forall i :: 0 <= i < |ms| ==> !Clashes(WithTemp(dir, name).dirs, ms, i)
    ensures var ms := extract(dir.files[name]).value;
      var s := MoveAll(WithTemp(dir, name), ms);
      && s.moved == |ms|
      && ExtractZip(dir, name, extract) ==
         Folder(if exists i :: 0 <= i < |ms| && ms[i].name == name then s.dir.files else s.dir.files - {name},
                s.dir.dirs - {SpillTemp(name)})
  {
    var ms := extract(dir.files[name]).value;
    MoveAllStopsAtClash(WithTemp(dir, name), ms);
  }

  lemma SpillFiles(dir: Folder, name: string, extract: Extractor)
    requires name in dir.files
    requires extract(dir.files[name]).Some? && |extract(dir.files[name]).value| > 0
    requires var ms := extract(dir.files[name]).value;
      forall i :: 0 <= i < |ms| ==> !Clashes(WithTemp(dir, name).dirs, ms, i)
    ensures var ms := extract(dir.files[name]).value;
      var r := ExtractZip(dir, name, extract);
      forall i :: 0 <= i < |ms| && ms[i].name !in WithTemp(dir, name).dirs && (forall j :: i < j < |ms| ==> ms[j].name != ms[i].name) ==>
        ms[i].name in r.files && r.files[ms[i].name] == ms[i].data
  {
    SpillResult(dir, name, extract);
    MovedFilesLastWin(WithTemp(dir, name), extract(dir.files[name]).value);
  }

  lemma SpillIntoDirs(dir: Folder, name: string, extract: Extractor)
    requires name in dir.files
    requires extract(dir.files[name]).Some? && |extract(dir.files[name]).value| > 0
    requires var ms := extract(dir.files[name]).value;
      forall i :: 0 <= i < |ms| ==> !Clashes(WithTemp(dir, name).dirs, ms, i)
    ensures var ms := extract(dir.files[name]).value;
      var r := ExtractZip(dir, name, extract);
      forall i :: 0 <= i < |ms| && ms[i].name in WithTemp(dir, name).dirs && ms[i].name != SpillTemp(name) ==>
        ms[i].name in r.dirs && ms[i].name in r.dirs[ms[i].name] && r.dirs[ms[i].name][ms[i].name] == ms[i].data
  {
    SpillResult(dir, name, extract);
    MovedIntoDirs(WithTemp(dir, name), extract(dir.files[name]).value);
  }

  lemma SpillArchive(dir: Folder, name: string, extract: Extractor)
    requires name in dir.files
    requires extract(dir.files[name]).Some? && |extract(dir.files[name]).value| > 0
    requires var ms := extract(dir.files[name]).value;
      forall i :: 0 <= i < |ms| ==> !Clashes(WithTemp(dir, name).dirs, ms, i)
    ensures var ms := extract(dir.files[name]).value;
      name in ExtractZip(dir, name, extract).files <==> exists i :: 0 <= i < |ms| && ms[i].name == name
  {
    SpillResult(dir, name, extract);
  }

  lemma SpillKeepsOthers(dir: Folder, name: string, extract: Extractor)
    requires name in dir.files
    requires extract(dir.files[name]).Some? && |extract(dir.files[name]).value| > 0
    requires var ms := extract(dir.files[name]).value;
      forall i :: 0 <= i < |ms| ==> !Clashes(WithTemp(dir, name).dirs, ms, i)
    ensures var ms := extract(dir.files[name]).value;
      var r := ExtractZip(dir, name, extract);
      forall n :: n in dir.files && n != name && (forall i :: 0 <= i < |ms| ==> ms[i].name != n) ==>
        n in r.files && r.files[n] == dir.files[n]
  {
    SpillResult(dir, name, extract);
    UnnamedFilesKept(WithTemp(dir, name), extract(dir.files[name]).value);
  }

  /** fix_vmr_data.py:73-80 for one folder: the listed files in order, each checked with
      `is_zipfile` as it is when reached (an earlier extraction may have replaced or
      removed it) and spilled when it is a ZIP. The only sub-folders a scan can add are
      extraction folders left behind. */
  function ScanAndFixZips(dir: Folder, names: seq<string>, isZip: Bytes -> bool, extract: Extractor): (r: Folder)
    ensures r.dirs.Keys <= dir.dirs.Keys + set i | 0 <= i < |names| :: SpillTemp(names[i])
    decreases |names|
  {
    if |names| == 0 then dir
    else
      var name := names[0];
      var next := if name in dir.files && isZip(dir.files[name]) then ExtractZipAsWritten(dir, name, extract) else dir;
      var r := ScanAndFixZips(next, names[1..], isZip, extract);
      assert forall i :: 0 < i < |names| ==> names[1..][i - 1] == names[i];
      r
  }

  /** Only files that `is_zipfile` accepts are touched: a folder in which it accepts none of
      the listed files is left exactly as it was. */
  lemma {:induction false} NoZipNoChange(dir: Folder, names: seq<string>, isZip: Bytes -> bool, extract: Extractor)
    requires forall i :: 0 <= i < |names| && names[i] in dir.files ==> !isZip(dir.files[names[i]])
    ensures ScanAndFixZips(dir, names, isZip, extract) == dir
    decreases |names|
  {
    if |names| > 0 {
      forall i | 0 < i < |names| ensures names[i] == names[1..][i - 1] {}
      NoZipNoChange(dir, names[1..], isZip, extract);
    }
  }
}
