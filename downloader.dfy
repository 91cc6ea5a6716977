/** The installer's model downloader: the catalogue of models it offers,
    `download_model` (validation, then an `ollama pull` whose output is
    forwarded or filtered line by line), the parser of `ollama list` in
    `get_downloaded_models`, and the choice validation of `main`.
    Whether ollama is installed, and what each subprocess prints and
    returns, are parameters. */
module Downloader {
  import opened Wrappers
  import opened Text

  /** One catalogue entry; sizes are in tenths of a gigabyte. */
  datatype ModelInfo = ModelInfo(name: string, sizeTenthsGb: nat, description: string, recommended: bool)

  /** `available_models`. */
  const AvailableModels: map<string, ModelInfo> := map[
    "phi3.5:latest" := ModelInfo("Phi 3.5 Mini", 22, "Modelo rápido y eficiente - Recomendado", true),
    "mistral:7b" := ModelInfo("Mistral 7B", 41, "Modelo equilibrado - Buena calidad", true),
    "phi:2.7b" := ModelInfo("Phi-2 2.7B", 17, "Modelo pequeño y rápido", false)
  ]

  /** The catalogue offers exactly three models, two of them recommended,
      and the fast default of the application is among the recommended. */
  lemma CatalogueShape()
    ensures |AvailableModels| == 3
    ensures AvailableModels.Keys == {"phi3.5:latest", "mistral:7b", "phi:2.7b"}
    ensures forall m :: m in AvailableModels && AvailableModels[m].recommended ==> m != "phi:2.7b"
    ensures AvailableModels["phi3.5:latest"].recommended && AvailableModels["mistral:7b"].recommended
  {
    assert AvailableModels.Keys == {"phi3.5:latest", "mistral:7b", "phi:2.7b"};
  }

  // ---------------------------------------------------------------------
  // The progress filter of `download_model`

  /** The words that make a pull line worth printing when no callback is
      given. */
  const ProgressKeywords: seq<string> := ["pulling", "downloading", "verifying", "writing", "success"]

  /** `any(keyword in s for keyword in keywords)`. */
  predicate AnyKeyword(s: string, keywords: seq<string>) {
    keywords != [] && (Contains(s, keywords[0]) || AnyKeyword(s, keywords[1..]))
  }

  lemma {:induction false} AnyKeywordMeans(s: string, keywords: seq<string>)
    ensures AnyKeyword(s, keywords) <==> exists k :: 0 <= k < |keywords| && Contains(s, keywords[k])
  {
    if keywords != [] {
      AnyKeywordMeans(s, keywords[1..]);
      if !Contains(s, keywords[0]) && exists k :: 0 <= k < |keywords| && Contains(s, keywords[k]) {
        var k :| 0 <= k < |keywords| && Contains(s, keywords[k]);
        assert keywords[1..][k - 1] == keywords[k];
      }
    }
  }

  /** A cleaned line is printed when its lower-cased text contains one of
      the progress keywords. */
  predicate MentionsProgress(line: string) {
    AnyKeyword(Lower(line), ProgressKeywords)
  }

  lemma LowerIdempotent(s: string)
    ensures Lower(Lower(s)) == Lower(s)
  {
  }

  /** The filter ignores case: a line and its lower-cased form are printed
      alike. */
  lemma MentionsProgressIgnoresCase(line: string)
    ensures MentionsProgress(line) <==> MentionsProgress(Lower(line))
  {
    LowerIdempotent(line);
  }

  /** The non-empty stripped lines of the pull's output, in order. */
  function Cleaned(output: seq<string>): seq<string> {
    if output == [] then []
    else
      var c := Strip(output[|output| - 1]);
      Cleaned(output[..|output| - 1]) + (if c != [] then [c] else [])
  }

  /** The lines printed without a callback: each progress line, indented. */
  function Shown(cleaned: seq<string>): seq<string> {
    if cleaned == [] then []
    else
      var c := cleaned[|cleaned| - 1];
      Shown(cleaned[..|cleaned| - 1]) + (if MentionsProgress(c) then ["   " + c] else [])
  }

  /** Every non-blank output line reaches the callback, stripped, and
      nothing else does. */
  lemma CleanedExactly(output: seq<string>, c: string)
    ensures c in Cleaned(output) <==> c != [] && exists i :: 0 <= i < |output| && Strip(output[i]) == c
  {
    if c in Cleaned(output) {
      CleanedSound(output, c);
    }
    if c != [] && exists i :: 0 <= i < |output| && Strip(output[i]) == c {
      var i :| 0 <= i < |output| && Strip(output[i]) == c;
      CleanedComplete(output, i);
    }
  }

  lemma {:induction false} CleanedSound(output: seq<string>, c: string)
    requires c in Cleaned(output)
    ensures c != [] && exists i :: 0 <= i < |output| && Strip(output[i]) == c
  {
    var init := output[..|output| - 1];
    var last := Strip(output[|output| - 1]);
    if c in Cleaned(init) {
      CleanedSound(init, c);
      var i :| 0 <= i < |init| && Strip(init[i]) == c;
      assert output[i] == init[i];
    } else {
      assert c == last && last != [];
    }
  }

  lemma {:induction false} CleanedComplete(output: seq<string>, i: nat)
    requires i < |output| && Strip(output[i]) != []
    ensures Strip(output[i]) in Cleaned(output)
    decreases |output|
  {
    var c, n := Strip(output[i]), |output| - 1;
    var init := output[..n];
    var last := Strip(output[n]);
    assert Cleaned(output) == Cleaned(init) + (if last != [] then [last] else []);
    if i < n {
      assert init[i] == output[i];
      CleanedComplete(init, i);
      assert c in Cleaned(init);
    } else {
      assert i == n;
    }
  }

  /** Exactly the progress lines are printed, each behind three spaces. */
  lemma {:induction false} ShownExactly(cleaned: seq<string>, s: string)
    ensures s in Shown(cleaned) <==> exists c :: c in cleaned && MentionsProgress(c) && s == "   " + c
  {
    if cleaned != [] {
      var init, last := cleaned[..|cleaned| - 1], cleaned[|cleaned| - 1];
      ShownExactly(init, s);
      assert cleaned == init + [last];
    }
  }

  // ---------------------------------------------------------------------
  // `download_model`

  /** What the `ollama pull` subprocess does: the lines `readline` returns
      before end of output, and the exit code `poll` reports; or starting
      it raises. */
  datatype PullProcess = PullRan(output: seq<string>, exitCode: int) | PullRaised

  /** `download_model(model_name, progress_callback)`: whether the pull was
      started, its verdict, and the lines sent to the callback or printed. */
  method DownloadModel(installed: bool, modelName: string, hasCallback: bool, process: PullProcess)
    returns (ok: bool, pulled: bool, forwarded: seq<string>, shown: seq<string>)
    ensures pulled <==> installed && modelName in AvailableModels
    ensures ok <==> pulled && process.PullRan? && process.exitCode == 0
    ensures forwarded == if pulled && hasCallback && process.PullRan? then Cleaned(process.output) else []
    ensures shown == if pulled && !hasCallback && process.PullRan? then Shown(Cleaned(process.output)) else []
  {
    forwarded, shown := [], [];
    if !installed {
      return false, false, forwarded, shown;
    }
    if modelName !in AvailableModels {
      return false, false, forwarded, shown;
    }
    pulled := true;
    if process.PullRaised? {
      return false, pulled, forwarded, shown;
    }
    forwarded, shown := ReadPullOutput(process.output, hasCallback);
    ok := process.exitCode == 0;
  }

  lemma CleanedStep(output: seq<string>, i: nat)
    requires i < |output|
    ensures Cleaned(output[..i + 1])
      == Cleaned(output[..i]) + (if Strip(output[i]) != [] then [Strip(output[i])] else [])
  {
    assert output[..i + 1][..i] == output[..i];
  }

  lemma ShownStep(cleaned: seq<string>, c: string)
    ensures Shown(cleaned + [c]) == Shown(cleaned) + (if MentionsProgress(c) then ["   " + c] else [])
  {
    assert (cleaned + [c])[..|cleaned|] == cleaned;
  }

  /** The `readline` loop of `download_model`: each non-blank line,
      stripped, goes to the callback; without one, the progress lines are
      printed. */
  method ReadPullOutput(output: seq<string>, hasCallback: bool) returns (forwarded: seq<string>, shown: seq<string>)
    ensures forwarded == if hasCallback then Cleaned(output) else []
    ensures shown == if hasCallback then [] else Shown(Cleaned(output))
  {
    forwarded, shown := [], [];
    ghost var cleaned: seq<string> := [];
    for i := 0 to |output|
      invariant cleaned == Cleaned(output[..i])
      invariant forwarded == if hasCallback then cleaned else []
      invariant shown == if hasCallback then [] else Shown(cleaned)
    {
      CleanedStep(output, i);
      var cleanedLine := Strip(output[i]);
      if cleanedLine != [] {
        ShownStep(cleaned, cleanedLine);
        cleaned := cleaned + [cleanedLine];
        if hasCallback {
          forwarded := forwarded + [cleanedLine];
        } else if MentionsProgress(cleanedLine) {
          shown := shown + ["   " + cleanedLine];
        }
      }
    }
    assert output[..|output|] == output;
  }

  // ---------------------------------------------------------------------
  // `get_downloaded_models`

  /** What `ollama list` does: it exits with a code and prints a table, or
      it times out, or it raises. */
  datatype ListProcess = ListRan(code: int, stdout: string) | ListTimedOut | ListRaised

  /** The first token of each listed line that has any, in order. */
  function FirstTokens(lines: seq<string>): (names: seq<string>)
    ensures |names| <= |lines|
    ensures AllWords(names)
  {
    if lines == [] then []
    else
      var parts := Split(lines[|lines| - 1]);
      FirstTokens(lines[..|lines| - 1]) + (if parts != [] then [parts[0]] else [])
  }

  /** The line's first token is `n`. */
  predicate LeadsWith(line: string, n: string) {
    Split(line) != [] && Split(line)[0] == n
  }

  /** A name is collected exactly when it is the first token of some line. */
  lemma {:induction false} FirstTokensExactly(lines: seq<string>, n: string)
    ensures n in FirstTokens(lines) <==> exists i :: 0 <= i < |lines| && LeadsWith(lines[i], n)
  {
    if lines != [] {
      var k := |lines| - 1;
      var init := lines[..k];
      FirstTokensExactly(init, n);
      var tail := if Split(lines[k]) != [] then [Split(lines[k])[0]] else [];
      assert FirstTokens(lines) == FirstTokens(init) + tail;
      assert n in tail <==> LeadsWith(lines[k], n);
      LeadsWithSnoc(lines, n);
    }
  }

  /** Some line leads with `n` iff some line before the last does, or the
      last one does. */
  lemma LeadsWithSnoc(lines: seq<string>, n: string)
    requires lines != []
    ensures var k := |lines| - 1;
      (exists i :: 0 <= i < |lines| && LeadsWith(lines[i], n))
        <==> (exists i :: 0 <= i < k && LeadsWith(lines[..k][i], n)) || LeadsWith(lines[k], n)
  {
    var k := |lines| - 1;
    if exists i :: 0 <= i < |lines| && LeadsWith(lines[i], n) {
      var i :| 0 <= i < |lines| && LeadsWith(lines[i], n);
      if i < k {
        assert lines[..k][i] == lines[i];
      }
    }
    if exists i :: 0 <= i < k && LeadsWith(lines[..k][i], n) {
      var i :| 0 <= i < k && LeadsWith(lines[..k][i], n);
      assert lines[..k][i] == lines[i];
    }
  }

  /** The lines of the listing, after stripping the whole output. */
  function ListLines(stdout: string): seq<string> {
    SplitOn(Strip(stdout), '\n')
  }

  /** The names on the lines of a listing: the first token of each line
      after the header, none for a header alone. */
  function NamesOf(lines: seq<string>): seq<string> {
    if |lines| > 1 then FirstTokens(lines[1..]) else []
  }

  /** The names listed in a successful `ollama list` output. */
  function ListedNames(stdout: string): seq<string> {
    NamesOf(ListLines(stdout))
  }

  /** The names `get_downloaded_models` returns: none unless the command
      ran and exited with 0. */
  function DownloadedModels(process: ListProcess): seq<string> {
    if process.ListRan? && process.code == 0 then ListedNames(process.stdout) else []
  }

  lemma FirstTokensStep(rows: seq<string>, i: nat)
    requires i < |rows|
    ensures var parts := Split(rows[i]);
      FirstTokens(rows[..i + 1]) == FirstTokens(rows[..i]) + (if parts != [] then [parts[0]] else [])
  {
    assert rows[..i + 1][..i] == rows[..i];
  }

  /** `get_downloaded_models()`, with its append loop. */
  method GetDownloadedModels(process: ListProcess) returns (models: seq<string>)
    ensures models == DownloadedModels(process)
  {
    models := [];
    if process.ListRan? && process.code == 0 {
      models := ParseListing(ListLines(process.stdout));
    }
  }

  /** The parse of a successful listing, once the stripped output is split
      into lines: skip the header. */
  method ParseListing(lines: seq<string>) returns (models: seq<string>)
    ensures models == NamesOf(lines)
  {
    models := [];
    if |lines| > 1 {
      models := CollectNames(lines[1..]);
    }
  }

  /** The append loop of `get_downloaded_models` over the lines after the
      header. */
  method CollectNames(rows: seq<string>) returns (models: seq<string>)
    ensures models == FirstTokens(rows)
  {
    models := [];
    var i := 0;
    while i < |rows|
      invariant 0 <= i <= |rows|
      invariant models == FirstTokens(rows[..i])
    {
      FirstTokensStep(rows, i);
      var parts := Split(rows[i]);
      if parts != [] {
        models := models + [parts[0]];
      }
      i := i + 1;
    }
    assert rows[..i] == rows;
  }

  /** One row of the table `ollama list` prints: the model name, then its
      other columns. */
  datatype Row = Row(name: string, columns: seq<string>)

  function RowLine(r: Row): string {
    Join([r.name] + r.columns)
  }

  function RowLines(rows: seq<Row>): (lines: seq<string>)
    ensures |lines| == |rows|
  {
    seq(|rows|, i requires 0 <= i < |rows| => RowLine(rows[i]))
  }

  /** The printed table: header line, one line per row, final newline. */
  function Table(header: seq<string>, rows: seq<Row>): string {
    JoinOn([Join(header)] + RowLines(rows), '\n') + "\n"
  }

  predicate WellFormedRow(r: Row) {
    IsWord(r.name) && AllWords(r.columns)
  }

  /** Non-empty, with no whitespace at either end. */
  predicate Unpadded(l: string) {
    l != [] && !IsSpace(l[0]) && !IsSpace(l[|l| - 1])
  }

  /** Each line of a well-formed table is unpadded and free of newlines. */
  lemma RowLineUnpadded(r: Row)
    requires WellFormedRow(r)
    ensures '\n' !in RowLine(r) && Unpadded(RowLine(r))
  {
    var cells := [r.name] + r.columns;
    JoinNoNewline(cells);
    JoinNonEmpty(cells);
  }

  /** The tokens of a row's line are the row's cells. */
  lemma RowLineTokens(r: Row)
    requires WellFormedRow(r)
    ensures Split(RowLine(r)) == [r.name] + r.columns
  {
    SplitJoin([r.name] + r.columns);
  }

  /** Stripping the table and splitting it at newlines gives back the
      header line and the row lines. */
  lemma TableLines(header: seq<string>, rows: seq<Row>)
    requires header != [] && AllWords(header)
    requires forall i :: 0 <= i < |rows| ==> WellFormedRow(rows[i])
    ensures ListLines(Table(header, rows)) == [Join(header)] + RowLines(rows)
  {
    var lines := RowLines(rows);
    var all := [Join(header)] + lines;
    JoinNonEmpty(header);
    JoinNoNewline(header);
    forall i | 0 <= i < |rows|
      ensures '\n' !in lines[i] && Unpadded(lines[i])
    {
      RowLineUnpadded(rows[i]);
    }
    forall i | 0 <= i < |all|
      ensures '\n' !in all[i] && Unpadded(all[i])
    {
      if i > 0 {
        assert all[i] == lines[i - 1];
      }
    }
    JoinOnEnds(all);
    StripNewline(JoinOn(all, '\n'));
    SplitOnJoin(all, '\n');
  }

  /** The parser recovers exactly the model names of a well-formed table,
      in order, whatever the header says. */
  lemma ListingRoundTrip(header: seq<string>, rows: seq<Row>)
    requires header != [] && AllWords(header)
    requires forall i :: 0 <= i < |rows| ==> WellFormedRow(rows[i])
    ensures DownloadedModels(ListRan(0, Table(header, rows)))
      == seq(|rows|, i requires 0 <= i < |rows| => rows[i].name)
  {
    TableLines(header, rows);
    var lines := RowLines(rows);
    forall i | 0 <= i < |rows|
      ensures Split(lines[i]) == [rows[i].name] + rows[i].columns
    {
      RowLineTokens(rows[i]);
    }
    ConsTail(Join(header), lines);
    FirstTokensOfRows(rows, lines);
  }

  /** The first and last characters of a `'\n'`-join of unpadded lines. */
  lemma {:induction false} JoinOnEnds(parts: seq<string>)
    requires parts != []
    requires forall i :: 0 <= i < |parts| ==> Unpadded(parts[i])
    ensures Unpadded(JoinOn(parts, '\n'))
  {
    if |parts| > 1 {
      var rest := parts[1..];
      JoinOnEnds(rest);
      var r := JoinOn(rest, '\n');
      var s := parts[0] + ['\n'] + r;
      assert s[0] == parts[0][0];
      assert s[|s| - 1] == r[|r| - 1];
    }
  }

  lemma {:induction false} FirstTokensOfRows(rows: seq<Row>, lines: seq<string>)
    requires |lines| == |rows|
    requires forall i :: 0 <= i < |rows| ==> Split(lines[i]) == [rows[i].name] + rows[i].columns
    ensures FirstTokens(lines) == seq(|rows|, i requires 0 <= i < |rows| => rows[i].name)
  {
    if rows != [] {
      var n := |rows| - 1;
      FirstTokensOfRows(rows[..n], lines[..n]);
      assert lines[..n] == lines[..|lines| - 1];
    }
  }

  // ---------------------------------------------------------------------
  // `main`

  /** The answer to `main`'s `GET /api/tags`: a status, or an exception. */
  datatype ServerProbe = ProbeAnswered(status: int) | ProbeRaised

  /** What `main` does about the server: whether it ran `ollama serve` with
      its 10-second limit, whether it spawned `ollama serve`, and whether
      the script goes on. */
  datatype ServerStart = ServerStart(ran: bool, spawned: bool, continues: bool)

  /** The server block of `main`. A non-200 answer runs `ollama serve` with a
      10-second limit (`runRaises`: that run raises, as its timeout does
      when the server keeps running); an exception in the request or in
      that run falls back to spawning `ollama serve` (`spawnRaises`: the
      spawn raises), and a spawn that raises ends the script. */
  function StartServer(probe: ServerProbe, runRaises: bool, spawnRaises: bool): (r: ServerStart)
    ensures probe == ProbeAnswered(200) ==> r == ServerStart(false, false, true)
    ensures r.ran <==> probe.ProbeAnswered? && probe.status != 200
    ensures r.spawned <==> probe.ProbeRaised? || (r.ran && runRaises)
    ensures !r.continues <==> r.spawned && spawnRaises
  {
    match probe
    case ProbeAnswered(status) =>
      if status == 200 then ServerStart(false, false, true)
      else if !runRaises then ServerStart(true, false, true)
      else ServerStart(true, true, !spawnRaises)
    case ProbeRaised => ServerStart(false, true, !spawnRaises)
  }

  /** Where `main` goes after its checks: it exits with status 1 before
      downloading, or it downloads the chosen model. */
  datatype Choice = NotInstalled | ServerUnavailable | NoChoice | InvalidChoice(input: string) | Download(model: string)

  /** The checks of `main`, in order: ollama must be installed, the server
      block must not end the script, and the stripped answer must be
      non-empty and a catalogue key. */
  function Choose(installed: bool, server: ServerStart, answer: string): (c: Choice)
    ensures c.Download? <==> installed && server.continues && Strip(answer) in AvailableModels
    ensures c.Download? ==> c.model == Strip(answer) && c.model != []
    ensures c == ServerUnavailable <==> installed && !server.continues
    ensures c == NoChoice <==> installed && server.continues && Strip(answer) == []
    ensures c == NotInstalled <==> !installed
    ensures c.InvalidChoice? <==> installed && server.continues && Strip(answer) != [] && Strip(answer) !in AvailableModels
    ensures c.InvalidChoice? ==> c.input == Strip(answer)
  {
    ChooseStripped(installed, server.continues, Strip(answer))
  }

  function ChooseStripped(installed: bool, serverUp: bool, choice: string): (c: Choice)
    ensures c.Download? <==> installed && serverUp && choice in AvailableModels
    ensures c.Download? ==> c.model == choice && c.model != []
    ensures c == ServerUnavailable <==> installed && !serverUp
    ensures c == NoChoice <==> installed && serverUp && choice == []
    ensures c == NotInstalled <==> !installed
    ensures c.InvalidChoice? <==> installed && serverUp && choice != [] && choice !in AvailableModels
    ensures c.InvalidChoice? ==> c.input == choice
  {
    if !installed then NotInstalled
    else if !serverUp then ServerUnavailable
    else if choice == [] then NoChoice
    else if choice !in AvailableModels then InvalidChoice(choice)
    else Download(choice)
  }
}
