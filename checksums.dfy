/** The release checksum tool: `generate_checksums` writes one
    `<sha256>  <path>` line per distributable file (and per configuration
    file), and `verify_checksums` reads such a file back, recomputes each
    listed file's hash and counts the matches and the mismatches.
    Hashing and the file system are oracles: a listing of the `dist` tree
    with each file's hash, and a map from a path under `dist` to the hash
    of the file there (`None` when it cannot be read). */
module Checksums {
  import opened Wrappers
  import opened Text

  /** One line of `checksums.sha256`. */
  datatype Entry = Entry(hash: string, path: string)

  /** The text written for one entry: the hash, two spaces, the path. */
  function ChecksumLine(e: Entry): string {
    e.hash + "  " + e.path + "\n"
  }

  /** The whole file for a list of entries, in order. */
  function Render(es: seq<Entry>): string {
    if es == [] then "" else ChecksumLine(es[0]) + Render(es[1..])
  }

  lemma {:induction false} RenderAppend(es: seq<Entry>, e: Entry)
    ensures Render(es + [e]) == Render(es) + ChecksumLine(e)
  {
    if es == [] {
      assert [e][1..] == [];
    } else {
      assert (es + [e])[1..] == es[1..] + [e];
      RenderAppend(es[1..], e);
    }
  }

  // ---------------------------------------------------------------------
  // `generate_checksums`

  /** A path yielded by `Path("dist").rglob("*")`: its final name, its path
      relative to `dist`, whether it is a regular file, and what
      `calculate_file_hash` returns for it. */
  datatype DistEntry = DistEntry(name: string, relPath: string, isFile: bool, hash: Option<string>)

  /** `if file_hash:` — an unreadable file (None) or an empty digest is not
      written. */
  predicate Hashed(h: Option<string>) {
    h.Some? && h.value != []
  }

  /** Regular files whose own name does not start with a dot, and whose hash
      could be computed. */
  predicate Qualifies(d: DistEntry) {
    d.isFile && !StartsWith(d.name, ".") && Hashed(d.hash)
  }

  function Emit(d: DistEntry): seq<Entry> {
    if Qualifies(d) then [Entry(d.hash.value, d.relPath)] else []
  }

  /** The entries written for the `dist` tree, in traversal order. */
  function DistWritten(dist: seq<DistEntry>): seq<Entry> {
    if dist == [] then [] else DistWritten(dist[..|dist| - 1]) + Emit(dist[|dist| - 1])
  }

  /** The configuration files appended after the `dist` tree, hashed at
      their path relative to the working directory. */
  const ConfigFiles: seq<string> := ["config/version.json", "config/settings.json", "config/models.json"]

  /** The entries written for the configuration files: `configs` maps each
      existing file to what `calculate_file_hash` returns for it. */
  function ConfigWritten(paths: seq<string>, configs: map<string, Option<string>>): seq<Entry> {
    if paths == [] then []
    else
      var p := paths[|paths| - 1];
      ConfigWritten(paths[..|paths| - 1], configs)
        + (if p in configs && Hashed(configs[p]) then [Entry(configs[p].value, p)] else [])
  }

  function Written(dist: seq<DistEntry>, configs: map<string, Option<string>>): seq<Entry> {
    DistWritten(dist) + ConfigWritten(ConfigFiles, configs)
  }

  /** Exactly the qualifying files of the tree are listed, each with its own
      hash and relative path. */
  lemma {:induction false} DistWrittenExactly(dist: seq<DistEntry>, e: Entry)
    ensures e in DistWritten(dist) <==>
      (exists j :: 0 <= j < |dist| && Qualifies(dist[j]) && e == Entry(dist[j].hash.value, dist[j].relPath))
  {
    if dist != [] {
      var n := |dist| - 1;
      var init, last := dist[..n], dist[n];
      DistWrittenExactly(init, e);
      assert DistWritten(dist) == DistWritten(init) + Emit(last);
      if e in DistWritten(init) {
        var j :| 0 <= j < |init| && Qualifies(init[j]) && e == Entry(init[j].hash.value, init[j].relPath);
        assert dist[j] == init[j];
      } else if e in Emit(last) {
        assert Qualifies(dist[n]) && e == Entry(dist[n].hash.value, dist[n].relPath);
      } else {
        forall j | 0 <= j < |dist|
          ensures !(Qualifies(dist[j]) && e == Entry(dist[j].hash.value, dist[j].relPath))
        {
          if j < n {
            assert init[j] == dist[j];
          }
        }
      }
    }
  }

  /** Exactly the configuration files that exist and could be hashed are
      listed, under their own names. */
  lemma {:induction false} ConfigWrittenExactly(paths: seq<string>, configs: map<string, Option<string>>, e: Entry)
    ensures e in ConfigWritten(paths, configs) <==>
      (e.path in paths && e.path in configs && Hashed(configs[e.path]) && configs[e.path].value == e.hash)
  {
    if paths != [] {
      var init, p := paths[..|paths| - 1], paths[|paths| - 1];
      ConfigWrittenExactly(init, configs, e);
      assert paths == init + [p];
    }
  }

  lemma DistStep(dist: seq<DistEntry>, i: nat)
    requires i < |dist|
    ensures DistWritten(dist[..i + 1]) == DistWritten(dist[..i]) + Emit(dist[i])
  {
    assert dist[..i + 1][..i] == dist[..i];
  }

  lemma ConfigStep(paths: seq<string>, configs: map<string, Option<string>>, k: nat)
    requires k < |paths|
    ensures var p := paths[k];
      ConfigWritten(paths[..k + 1], configs)
        == ConfigWritten(paths[..k], configs) + (if p in configs && Hashed(configs[p]) then [Entry(configs[p].value, p)] else [])
  {
    assert paths[..k + 1][..k] == paths[..k];
  }

  /** `generate_checksums(directory)`: the content written to
      `checksums.sha256` and the `files_processed` counter. */
  method GenerateChecksums(dist: seq<DistEntry>, configs: map<string, Option<string>>)
    returns (content: string, processed: nat)
    ensures content == Render(Written(dist, configs))
    ensures processed == |Written(dist, configs)|
  {
    content, processed := WriteDist(dist);
    content, processed := WriteConfigs(DistWritten(dist), content, processed, configs);
  }

  /** The walk over the `dist` tree (lines 33-40). */
  method WriteDist(dist: seq<DistEntry>) returns (content: string, processed: nat)
    ensures content == Render(DistWritten(dist))
    ensures processed == |DistWritten(dist)|
  {
    content, processed := "", 0;
    var i := 0;
    while i < |dist|
      invariant 0 <= i <= |dist|
      invariant content == Render(DistWritten(dist[..i]))
      invariant processed == |DistWritten(dist[..i])|
    {
      var d := dist[i];
      DistStep(dist, i);
      ghost var before := DistWritten(dist[..i]);
      if d.isFile && !StartsWith(d.name, ".") {
        var fileHash := d.hash;
        if fileHash.Some? && fileHash.value != [] {
          var line := fileHash.value + "  " + d.relPath + "\n";
          RenderAppend(before, Entry(fileHash.value, d.relPath));
          content := content + line;
          processed := processed + 1;
        } else {
          assert before + Emit(d) == before;
        }
      } else {
        assert before + Emit(d) == before;
      }
      i := i + 1;
    }
    assert dist[..i] == dist;
  }

  /** The configuration files appended after the tree (lines 42-55). */
  method WriteConfigs(ghost tree: seq<Entry>, content0: string, processed0: nat, configs: map<string, Option<string>>)
    returns (content: string, processed: nat)
    requires content0 == Render(tree) && processed0 == |tree|
    ensures content == Render(tree + ConfigWritten(ConfigFiles, configs))
    ensures processed == |tree + ConfigWritten(ConfigFiles, configs)|
  {
    content, processed := content0, processed0;
    assert tree + ConfigWritten(ConfigFiles[..0], configs) == tree;
    var k := 0;
    while k < |ConfigFiles|
      invariant 0 <= k <= |ConfigFiles|
      invariant content == Render(tree + ConfigWritten(ConfigFiles[..k], configs))
      invariant processed == |tree + ConfigWritten(ConfigFiles[..k], configs)|
    {
      var configFile := ConfigFiles[k];
      ConfigStep(ConfigFiles, configs, k);
      ghost var written := ConfigWritten(ConfigFiles[..k], configs);
      ghost var before := tree + written;
      if configFile in configs && configs[configFile].Some? && configs[configFile].value != [] {
        var fileHash := configs[configFile].value;
        var line := fileHash + "  " + configFile + "\n";
        RenderAppend(before, Entry(fileHash, configFile));
        AppendAssoc(tree, written, [Entry(fileHash, configFile)]);
        content := content + line;
        processed := processed + 1;
      } else {
        assert written + [] == written;
      }
      k := k + 1;
    }
    assert ConfigFiles[..k] == ConfigFiles;
  }

  // ---------------------------------------------------------------------
  // `verify_checksums`

  /** The lines `for line in f` yields, each without its newline (the
      strip that follows removes it anyway). */
  function Lines(content: string): seq<string> {
    SplitOn(content, '\n')
  }

  /** Lines 80-87 as written: strip, split on whitespace, skip lines of
      fewer than two tokens; with more than two tokens the path is the
      tokens from the THIRD on, so the first word of a path containing a
      space is lost. */
  function ParseLineAsWritten(line: string): (r: Option<Entry>)
    ensures r.None? <==> |Split(Strip(line))| < 2
  {
    var parts := Split(Strip(line));
    if |parts| < 2 then None
    else Some(Entry(parts[0], if |parts| > 2 then Join(parts[2..]) else parts[1]))
  }

  /** A path `generate_checksums` writes and a line split can restore:
      non-empty words separated by single spaces. */
  predicate SingleSpaced(p: string) {
    p != [] && Join(Split(p)) == p
  }

  /** The corrected reading: the path is every token after the hash, joined
      by single spaces. */
  function ParseLine(line: string): (r: Option<Entry>)
    ensures r.None? <==> |Split(Strip(line))| < 2
    ensures r.Some? ==> IsWord(r.value.hash) && SingleSpaced(r.value.path)
  {
    var parts := Split(Strip(line));
    if |parts| < 2 then None
    else
      SplitJoin(parts[1..]);
      JoinNonEmpty(parts[1..]);
      Some(Entry(parts[0], Join(parts[1..])))
  }

  /** The tokens of a written line: the hash, then the path's words. */
  lemma WrittenLineTokens(h: string, ws: seq<string>)
    requires IsWord(h) && AllWords(ws) && ws != []
    ensures Split(Strip(h + "  " + Join(ws))) == [h] + ws
  {
    var j := Join(ws);
    var line := h + ("  " + j);
    assert h + "  " + j == line;
    JoinNonEmpty(ws);
    assert line[0] == h[0];
    assert line[|line| - 1] == ("  " + j)[|"  " + j| - 1] == j[|j| - 1];
    StripUnpadded(line);
    SplitWordTwoSpacesJoin(h, ws);
  }

  /** A written line reads back as the entry it was written from, when the
      hash is one token and the path is single-spaced. */
  lemma ParseWrittenLine(e: Entry)
    requires IsWord(e.hash) && SingleSpaced(e.path)
    ensures ParseLine(e.hash + "  " + e.path) == Some(e)
  {
    var ws := Split(e.path);
    assert ws != [];
    WrittenLineTokens(e.hash, ws);
    assert ([e.hash] + ws)[1..] == ws;
  }

  /** The misreading in lines 84-87: a path of two or more words loses its
      first word. */
  lemma SpacedPathLosesFirstWord(h: string, ws: seq<string>)
    requires IsWord(h) && AllWords(ws) && |ws| >= 2
    ensures ParseLineAsWritten(h + "  " + Join(ws)) == Some(Entry(h, Join(ws[1..])))
    ensures Join(ws[1..]) != Join(ws)
  {
    WrittenLineTokens(h, ws);
    ConsDropTwo(h, ws);
    JoinDropsFirst(ws);
  }

  lemma ConsDropTwo<T>(h: T, ws: seq<T>)
    requires |ws| >= 1
    ensures ([h] + ws)[0] == h && ([h] + ws)[2..] == ws[1..]
  {
  }

  lemma JoinDropsFirst(ws: seq<string>)
    requires |ws| >= 2
    ensures |Join(ws[1..])| < |Join(ws)|
  {
    assert Join(ws) == ws[0] + " " + Join(ws[1..]);
  }

  lemma MyFileWords()
    ensures IsWord("0f") && AllWords(["my", "file.txt"])
    ensures "0f" + "  " + Join(["my", "file.txt"]) == "0f  my file.txt"
    ensures Join(["my", "file.txt"][1..]) == "file.txt"
    ensures SingleSpaced(Join(["my", "file.txt"]))
    ensures Join(["my", "file.txt"]) == "my file.txt"
  {
    var ws := ["my", "file.txt"];
    assert IsWord("0f") && AllWords(ws) by {
    }
    assert Join(ws[1..]) == "file.txt" && Join(ws) == "my file.txt" by {
      PairTail("my", "file.txt");
      assert "my" + " " + "file.txt" == "my file.txt";
    }
    assert "0f" + "  " + "my file.txt" == "0f  my file.txt";
    SplitJoin(ws);
  }

  lemma PairTail<T>(a: T, b: T)
    ensures [a, b][1..] == [b]
  {
  }

  /** The line written for `my file.txt` is read back as `file.txt`. */
  lemma MyFileMisread()
    ensures ParseLineAsWritten("0f  my file.txt") == Some(Entry("0f", "file.txt"))
  {
    var ws := ["my", "file.txt"];
    MyFileWords();
    SpacedPathLosesFirstWord("0f", ws);
  }

  /** The corrected reading keeps the whole path. */
  lemma MyFileRead()
    ensures ParseLine("0f  my file.txt") == Some(Entry("0f", "my file.txt"))
  {
    var ws := ["my", "file.txt"];
    MyFileWords();
    ParseWrittenLine(Entry("0f", Join(ws)));
  }

  /** What happens to one line of the checksum file. */
  datatype LineCheck = Skipped | Verified | Mismatch | NotFound

  /** What a parsed line leads to. `disk` maps a path under the `dist`
      directory to what `calculate_file_hash` returns for the file there; a
      path not in the map does not exist. */
  function Classify(parsed: Option<Entry>, disk: map<string, Option<string>>): LineCheck {
    match parsed
    case None => Skipped
    case Some(e) =>
      if e.path !in disk then NotFound
      else if disk[e.path] == Some(e.hash) then Verified
      else Mismatch
  }

  /** A line of fewer than two tokens is skipped, by both readings. */
  lemma ShortLineSkipped(line: string, disk: map<string, Option<string>>)
    requires |Split(Strip(line))| < 2
    ensures Check(line, disk) == Skipped && CheckAsWritten(line, disk) == Skipped
  {
  }

  /** One line, read with the corrected parse (see `ParseLine`). */
  function Check(line: string, disk: map<string, Option<string>>): LineCheck {
    Classify(ParseLine(line), disk)
  }

  /** One line as lines 80-100 classify it, with the parse as written. */
  function CheckAsWritten(line: string, disk: map<string, Option<string>>): LineCheck {
    Classify(ParseLineAsWritten(line), disk)
  }

  /** For a written line whose path has two or more words, the check as
      written looks up the path without its first word: the file itself is
      never compared. */
  lemma SpacedPathCheckedWrongly(h: string, ws: seq<string>, disk: map<string, Option<string>>)
    requires IsWord(h) && AllWords(ws) && |ws| >= 2
    ensures CheckAsWritten(h + "  " + Join(ws), disk) == Classify(Some(Entry(h, Join(ws[1..]))), disk)
    ensures SingleSpaced(Join(ws)) ==> Check(h + "  " + Join(ws), disk) == Classify(Some(Entry(h, Join(ws))), disk)
  {
    SpacedPathLosesFirstWord(h, ws);
    if SingleSpaced(Join(ws)) {
      ParseWrittenLine(Entry(h, Join(ws)));
    }
  }

  /** With only `my file.txt` on disk, hashing to `0f`, its line is
      reported as not found by the check as written and as verified by the
      corrected one. */
  lemma MyFileVerdicts()
    ensures var disk := map["my file.txt" := Some("0f")];
      CheckAsWritten("0f  my file.txt", disk) == NotFound && Check("0f  my file.txt", disk) == Verified
  {
    MyFileMisread();
    MyFileRead();
    assert "file.txt" != "my file.txt";
  }

  /** How many lines end as `k`. */
  function CountOf(lines: seq<string>, disk: map<string, Option<string>>, k: LineCheck): nat {
    if lines == [] then 0
    else (if Check(lines[0], disk) == k then 1 else 0) + CountOf(lines[1..], disk, k)
  }

  datatype Report = Report(ok: bool, verified: nat, errors: nat)

  /** The outcome of `verify_checksums` on a checksum file that may be
      missing. */
  function Verification(hashFile: Option<string>, disk: map<string, Option<string>>): Report {
    match hashFile
    case None => Report(false, 0, 0)
    case Some(content) =>
      var errors := CountOf(Lines(content), disk, Mismatch);
      Report(errors == 0, CountOf(Lines(content), disk, Verified), errors)
  }

  /** `verify_checksums(directory)`: the verdict and the two counters. */
  method VerifyChecksums(hashFile: Option<string>, disk: map<string, Option<string>>)
    returns (ok: bool, verified: nat, errors: nat)
    ensures Report(ok, verified, errors) == Verification(hashFile, disk)
  {
    if hashFile.None? {
      return false, 0, 0;
    }
    verified, errors := CountLines(Lines(hashFile.value), disk);
    ok := errors == 0;
  }

  /** The loop over the lines of the checksum file (lines 79-101): the two
      counters it ends with. */
  method CountLines(lines: seq<string>, disk: map<string, Option<string>>) returns (verified: nat, errors: nat)
    ensures verified == CountOf(lines, disk, Verified)
    ensures errors == CountOf(lines, disk, Mismatch)
  {
    ghost var cs := Checks(lines, disk);
    verified, errors := 0, 0;
    var i := 0;
    while i < |lines|
      invariant 0 <= i <= |lines|
      invariant verified + Tally(cs[i..], Verified) == Tally(cs, Verified)
      invariant errors + Tally(cs[i..], Mismatch) == Tally(cs, Mismatch)
    {
      var c := CheckLine(lines, i, disk);
      TallyStep(cs, i, Verified);
      TallyStep(cs, i, Mismatch);
      if c == Verified {
        verified := verified + 1;
      } else if c == Mismatch {
        errors := errors + 1;
      }
      i := i + 1;
    }
    assert cs[i..] == [];
    TallyChecks(lines, disk, Verified);
    TallyChecks(lines, disk, Mismatch);
  }

  /** One line of the checksum file: parse it, look the file up, compare. */
  method CheckLine(lines: seq<string>, i: nat, disk: map<string, Option<string>>) returns (c: LineCheck)
    requires i < |lines|
    ensures c == Checks(lines, disk)[i]
  {
    match ParseLine(lines[i]) {
      case None =>
        return Skipped;
      case Some(e) =>
        if e.path !in disk {
          return NotFound;
        }
        var actual := disk[e.path];
        c := if actual == Some(e.hash) then Verified else Mismatch;
    }
  }

  /** The outcome of every line, in order. */
  function Checks(lines: seq<string>, disk: map<string, Option<string>>): (cs: seq<LineCheck>)
    ensures |cs| == |lines|
    ensures forall i :: 0 <= i < |lines| ==> cs[i] == Check(lines[i], disk)
  {
    seq(|lines|, i requires 0 <= i < |lines| => Check(lines[i], disk))
  }

  /** How many of the outcomes are `k`. */
  function Tally(cs: seq<LineCheck>, k: LineCheck): nat {
    if cs == [] then 0 else (if cs[0] == k then 1 else 0) + Tally(cs[1..], k)
  }

  lemma TallyStep(cs: seq<LineCheck>, i: nat, k: LineCheck)
    requires i < |cs|
    ensures Tally(cs[i..], k) == (if cs[i] == k then 1 else 0) + Tally(cs[i + 1..], k)
  {
    assert cs[i..][1..] == cs[i + 1..];
  }

  /** Counting outcomes line by line is counting the outcome sequence. */
  lemma {:induction false} TallyChecks(lines: seq<string>, disk: map<string, Option<string>>, k: LineCheck)
    ensures Tally(Checks(lines, disk), k) == CountOf(lines, disk, k)
  {
    if lines != [] {
      var cs := Checks(lines, disk);
      TallyChecks(lines[1..], disk, k);
      assert cs[1..] == Checks(lines[1..], disk);
    }
  }

  /** The verdict is True exactly when the checksum file exists and no
      listed file that exists has a different hash; missing files only
      warn. */
  lemma VerdictMeansNoMismatch(content: string, disk: map<string, Option<string>>)
    ensures Verification(Some(content), disk).ok <==>
      (forall i :: 0 <= i < |Lines(content)| ==> Check(Lines(content)[i], disk) != Mismatch)
  {
    CountZero(Lines(content), disk, Mismatch);
  }

  lemma CountZero(lines: seq<string>, disk: map<string, Option<string>>, k: LineCheck)
    ensures CountOf(lines, disk, k) == 0 <==> forall i :: 0 <= i < |lines| ==> Check(lines[i], disk) != k
  {
    var cs := Checks(lines, disk);
    TallyChecks(lines, disk, k);
    TallyZero(cs, k);
    assert (forall i :: 0 <= i < |lines| ==> Check(lines[i], disk) != k)
      <==> (forall i :: 0 <= i < |cs| ==> cs[i] != k);
  }

  /** No outcome is `k` exactly when none is counted. */
  lemma {:induction false} TallyZero(cs: seq<LineCheck>, k: LineCheck)
    ensures Tally(cs, k) == 0 <==> forall i :: 0 <= i < |cs| ==> cs[i] != k
  {
    if cs != [] {
      TallyZero(cs[1..], k);
      assert forall i :: 1 <= i < |cs| ==> cs[i] == cs[1..][i - 1];
    }
  }

  /** Counting a line whose outcome is known. */
  lemma CountHead(lines: seq<string>, disk: map<string, Option<string>>, c: LineCheck)
    requires lines != [] && Check(lines[0], disk) == c
    ensures CountOf(lines, disk, Verified) == (if c == Verified then 1 else 0) + CountOf(lines[1..], disk, Verified)
    ensures CountOf(lines, disk, Mismatch) == (if c == Mismatch then 1 else 0) + CountOf(lines[1..], disk, Mismatch)
  {
  }

  // ---------------------------------------------------------------------
  // The round trip

  lemma SplitOnLine(x: string, y: string)
    requires '\n' !in x
    ensures SplitOn(x + "\n" + y, '\n') == [x] + SplitOn(y, '\n')
  {
    var s := x + "\n" + y;
    assert s[|x|] == '\n';
    assert forall j :: 0 <= j < |x| ==> s[j] == x[j];
    assert IndexOf(s, '\n') == |x| by {
      IndexOfFirst(s, '\n', |x|);
    }
    assert s[..|x|] == x && s[|x| + 1..] == y;
  }

  lemma IndexOfFirst(s: string, c: char, k: nat)
    requires k < |s| && s[k] == c && forall j :: 0 <= j < k ==> s[j] != c
    ensures IndexOf(s, c) == k
  {
  }

  /** How many entries name a file that exists under `dist`. */
  function Present(es: seq<Entry>, disk: map<string, Option<string>>): nat {
    if es == [] then 0 else (if es[0].path in disk then 1 else 0) + Present(es[1..], disk)
  }

  /** The line of a well-formed entry checks as verified, or as not found
      when its file is absent; never as an error. */
  lemma CheckWritten(line: string, e: Entry, disk: map<string, Option<string>>)
    requires IsWord(e.hash) && SingleSpaced(e.path) && line == e.hash + "  " + e.path
    requires e.path in disk ==> disk[e.path] == Some(e.hash)
    ensures Check(line, disk) == if e.path in disk then Verified else NotFound
  {
    ParseWrittenLine(e);
  }

  lemma RenderStep(es: seq<Entry>)
    requires es != [] && IsWord(es[0].hash) && SingleSpaced(es[0].path)
    ensures Lines(Render(es)) == [es[0].hash + "  " + es[0].path] + Lines(Render(es[1..]))
    ensures Lines(Render(es))[0] == es[0].hash + "  " + es[0].path
    ensures Lines(Render(es))[1..] == Lines(Render(es[1..]))
  {
    var e := es[0];
    var body := e.hash + "  " + e.path;
    NoNewline(e);
    assert Render(es) == body + "\n" + Render(es[1..]);
    SplitOnLine(body, Render(es[1..]));
  }

  /** Reading back a rendered file, every entry whose file is present with
      the recorded hash is verified... */
  lemma {:induction false} RenderedVerifiedCount(es: seq<Entry>, disk: map<string, Option<string>>)
    requires forall i :: 0 <= i < |es| ==> IsWord(es[i].hash) && SingleSpaced(es[i].path)
    requires forall i :: 0 <= i < |es| ==> es[i].path in disk ==> disk[es[i].path] == Some(es[i].hash)
    ensures CountOf(Lines(Render(es)), disk, Verified) == Present(es, disk)
  {
    if es == [] {
      EmptyFile(disk);
    } else {
      var e, rest := es[0], es[1..];
      assert forall i :: 0 <= i < |rest| ==> rest[i] == es[i + 1];
      RenderedVerifiedCount(rest, disk);
      var ls := Lines(Render(es));
      RenderStep(es);
      CheckWritten(ls[0], e, disk);
      var head := if e.path in disk then 1 else 0;
      CountHead(ls, disk, if e.path in disk then Verified else NotFound);
      assert CountOf(ls, disk, Verified) == head + CountOf(Lines(Render(rest)), disk, Verified);
      assert Present(es, disk) == head + Present(rest, disk);
    }
  }

  /** ...and none is an error. */
  lemma {:induction false} RenderedNoMismatch(es: seq<Entry>, disk: map<string, Option<string>>)
    requires forall i :: 0 <= i < |es| ==> IsWord(es[i].hash) && SingleSpaced(es[i].path)
    requires forall i :: 0 <= i < |es| ==> es[i].path in disk ==> disk[es[i].path] == Some(es[i].hash)
    ensures CountOf(Lines(Render(es)), disk, Mismatch) == 0
  {
    if es == [] {
      EmptyFile(disk);
    } else {
      var e, rest := es[0], es[1..];
      assert forall i :: 0 <= i < |rest| ==> rest[i] == es[i + 1];
      RenderedNoMismatch(rest, disk);
      var ls := Lines(Render(es));
      RenderStep(es);
      CheckWritten(ls[0], e, disk);
      CountHead(ls, disk, if e.path in disk then Verified else NotFound);
    }
  }

  /** A rendered file has one line per entry, plus the empty remainder
      after the last newline. */
  lemma {:induction false} RenderedLineCount(es: seq<Entry>)
    requires forall i :: 0 <= i < |es| ==> IsWord(es[i].hash) && SingleSpaced(es[i].path)
    ensures |Lines(Render(es))| == |es| + 1
  {
    if es == [] {
      assert Lines("") == [""];
    } else {
      assert forall i :: 0 <= i < |es| - 1 ==> es[1..][i] == es[i + 1];
      RenderedLineCount(es[1..]);
      RenderStep(es);
    }
  }

  /** An empty checksum file is one blank line, which is skipped. */
  lemma EmptyFile(disk: map<string, Option<string>>)
    ensures Lines(Render([])) == [""]
    ensures CountOf([""], disk, Verified) == 0 && CountOf([""], disk, Mismatch) == 0
  {
    assert Split(Strip("")) == [];
  }

  lemma NoNewline(e: Entry)
    requires IsWord(e.hash) && SingleSpaced(e.path)
    ensures '\n' !in e.hash + "  " + e.path
  {
    var ws := Split(e.path);
    forall i | 0 <= i < |e.path|
      ensures e.path[i] != '\n'
    {
      JoinNoNewline(ws);
    }
  }

  /** The file `generate_checksums` writes passes `verify_checksums` against
      the tree it was generated from: when every hash is one token, every
      path is single-spaced, and every listed file found under `dist` still
      has its recorded hash, the verdict is True, every listed file present
      is verified, and the file has one line per processed file. */
  lemma GeneratedFileVerifies(dist: seq<DistEntry>, configs: map<string, Option<string>>,
                              disk: map<string, Option<string>>)
    requires forall e :: e in Written(dist, configs) ==> IsWord(e.hash) && SingleSpaced(e.path)
    requires forall e :: e in Written(dist, configs) && e.path in disk ==> disk[e.path] == Some(e.hash)
    ensures Verification(Some(Render(Written(dist, configs))), disk)
      == Report(true, Present(Written(dist, configs), disk), 0)
    ensures |Lines(Render(Written(dist, configs)))| == |Written(dist, configs)| + 1
  {
    var es := Written(dist, configs);
    assert forall i :: 0 <= i < |es| ==> es[i] in es;
    RenderedVerifiedCount(es, disk);
    RenderedNoMismatch(es, disk);
    RenderedLineCount(es);
  }
}
