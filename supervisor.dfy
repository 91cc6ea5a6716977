/** The server supervisor of `OllamaManager` (src/ollama_manager.py): health
    probes, the two start strategies with their bounded polling, the
    process-scan fallback, model selection, the preload latch, the
    diagnostic checks, shutdown and the request path of
    `generate_response`. Every call into the outside world (HTTP, process
    spawning, the process table, `ollama pull`) is answered by an `Env`
    oracle fixed when the manager is built. Health probes, process scans
    and tag listings each consume the next answer of their own series, so
    the server may come up, and an ollama process may appear or a model be
    listed, at any point between two calls. */
module Supervisor {
  import opened Wrappers
  import opened Text
  import opened RequestPipeline

  /** One row of the process table: its name and executable path, either of
      which the OS may withhold. */
  datatype ProcInfo = ProcInfo(name: Option<string>, exe: Option<string>)

  /** The `name` field of one entry of the tag listing: a string, a JSON
      `null`, or no such key. */
  datatype NameField = Named(s: string) | NullName | NoName

  /** `entry.get("name", default)`. */
  function GetName(f: NameField, default: Option<string>): Option<string> {
    match f
    case Named(s) => Some(s)
    case NullName => None
    case NoName => default
  }

  /** The answer to `GET /api/tags`: status 200 with the `name` field of each
      listed model, another status, or an exception. */
  datatype TagsReply = TagsOk(names: seq<NameField>) | TagsRejected(status: int) | TagsFailed(detail: string)

  /** How `ollama pull` ended. */
  datatype PullOutcome = PullExited(code: int) | PullTimedOut | PullFailed

  /** The answer to the preload request. */
  datatype PreloadReply = PreloadAnswered(status: int, response: string) | PreloadFailed

  /** What the generate request carries. */
  datatype Request = Request(model: string, prompt: Prompt, options: InferenceOptions)

  datatype Env = Env(
    health: seq<bool>,            // answer of the k-th health probe; none beyond the end
    installed: bool,              // `is_ollama_installed()`
    windows: bool,                // `sys.platform == "win32"`
    installerOk: bool,            // `install_ollama_windows()`
    terminalSpawns: bool,         // the terminal strategy's Popen does not raise
    backgroundSpawns: bool,       // the background strategy's Popen does not raise
    exitsOnTerminate: bool,       // the spawned server exits within 10 s of terminate()
    processes: nat -> Option<seq<ProcInfo>>, // the table the k-th scan sees; None when psutil fails
    tags: nat -> TagsReply,       // answer of the k-th tag listing request
    pull: string -> PullOutcome,
    preload: PreloadReply,
    generate: Request -> GenerateOutcome)

  /** The k-th health probe gets status 200. */
  predicate Healthy(env: Env, k: nat) {
    k < |env.health| && env.health[k]
  }

  // ---------------------------------------------------------------------
  // Process scan (`_check_existing_ollama_process`)

  predicate OllamaProcess(p: ProcInfo) {
    Contains(Lower(p.name.GetOr("")), "ollama") || Contains(Lower(p.exe.GetOr("")), "ollama")
  }

  predicate ScanFinds(scan: Option<seq<ProcInfo>>) {
    scan.Some? && exists i :: 0 <= i < |scan.value| && OllamaProcess(scan.value[i])
  }

  // ---------------------------------------------------------------------
  // Specification of the start sequence

  /** Result of a polling run: success, and the number of probes spent. */
  datatype Poll = Poll(ok: bool, used: nat)

  /** Offset of the first healthy probe among the `n` starting with probe
      `from`, or `n` when none is. */
  function FirstHealthy(env: Env, from: nat, n: nat): (k: nat)
    ensures k <= n
    decreases n
  {
    if n == 0 || Healthy(env, from) then 0 else 1 + FirstHealthy(env, from + 1, n - 1)
  }

  /** Up to `n` probes starting with probe `from`, stopping at the first
      healthy one. */
  function PollSpec(env: Env, from: nat, n: nat): (r: Poll)
    ensures r.used <= n
    ensures r.ok ==> 1 <= r.used
    ensures !r.ok ==> r.used == n
  {
    var k := FirstHealthy(env, from, n);
    if k < n then Poll(true, k + 1) else Poll(false, n)
  }

  /** An unhealthy probe costs one and leaves the rest of the poll to the
      next probe. */
  lemma PollSkips(env: Env, from: nat, n: nat)
    requires n > 0 && !Healthy(env, from)
    ensures PollSpec(env, from, n)
      == Poll(PollSpec(env, from + 1, n - 1).ok, PollSpec(env, from + 1, n - 1).used + 1)
  {
  }

  /** Polling succeeds exactly when one of its `n` probes is healthy; it
      stops at the first healthy probe. */
  lemma {:induction false} PollFindsFirstHealthy(env: Env, from: nat, n: nat)
    ensures var r := PollSpec(env, from, n);
      && (r.ok <==> exists j :: from <= j < from + n && Healthy(env, j))
      && (r.ok ==> Healthy(env, from + r.used - 1))
      && (forall j :: from <= j < from + r.used - 1 ==> !Healthy(env, j))
    decreases n
  {
    if n > 0 && !Healthy(env, from) {
      PollFindsFirstHealthy(env, from + 1, n - 1);
      PollSkips(env, from, n);
    }
  }

  const TerminalPolls := 30
  const BackgroundPolls := 25

  /** Result of one start strategy: success, the probes spent and the
      process scans made. */
  datatype Attempt = Attempt(ok: bool, used: nat, scans: nat)

  /** `_start_ollama_terminal` from probe `p` and scan `s`: no probe when the
      spawn raises; otherwise 30 polls, then the process scan, then one last
      probe. */
  function TerminalSpec(env: Env, p: nat, s: nat): (r: Attempt)
    ensures r.used <= TerminalPolls + 1 && r.scans <= 1
    ensures r.ok ==> 1 <= r.used
    ensures !env.terminalSpawns ==> r == Attempt(false, 0, 0)
    ensures r.scans == 1 <==> env.terminalSpawns && !PollSpec(env, p, TerminalPolls).ok
    ensures env.terminalSpawns && ScanFinds(env.processes(s)) ==> r.ok
  {
    if !env.terminalSpawns then Attempt(false, 0, 0)
    else
      var poll := PollSpec(env, p, TerminalPolls);
      if poll.ok then Attempt(true, poll.used, 0)
      else if ScanFinds(env.processes(s)) then Attempt(true, TerminalPolls, 1)
      else Attempt(Healthy(env, p + TerminalPolls), TerminalPolls + 1, 1)
  }

  /** `_start_ollama_background` from probe `p`: at most 25 polls. */
  function BackgroundSpec(env: Env, p: nat): (r: Poll)
    ensures r.used <= BackgroundPolls
    ensures r.ok ==> 1 <= r.used
    ensures !env.backgroundSpawns ==> r == Poll(false, 0)
  {
    if !env.backgroundSpawns then Poll(false, 0) else PollSpec(env, p, BackgroundPolls)
  }

  /** The terminal strategy succeeds exactly when its spawn works and either
      one of its 31 probes is healthy or its process scan finds ollama. */
  lemma TerminalSucceedsWhen(env: Env, p: nat, s: nat)
    ensures TerminalSpec(env, p, s).ok <==> (env.terminalSpawns &&
      (ScanFinds(env.processes(s)) || exists j :: p <= j <= p + TerminalPolls && Healthy(env, j)))
  {
    PollFindsFirstHealthy(env, p, TerminalPolls);
  }

  /** The background strategy succeeds exactly when its spawn works and one
      of its 25 probes is healthy. */
  lemma BackgroundSucceedsWhen(env: Env, p: nat)
    ensures BackgroundSpec(env, p).ok <==>
      env.backgroundSpawns && exists j :: p <= j < p + BackgroundPolls && Healthy(env, j)
  {
    PollFindsFirstHealthy(env, p, BackgroundPolls);
  }

  datatype Strategy = TerminalStrategy | BackgroundStrategy

  /** Result of `start_ollama_server` or a part of it: success, probes
      spent, process scans made, and the strategies tried, in order. */
  datatype StartRun = StartRun(ok: bool, used: nat, scans: nat, tried: seq<Strategy>)

  /** An installation is there, or can be made (Windows only). */
  predicate CanInstall(env: Env) {
    env.installed || (env.windows && env.installerOk)
  }

  /** The rest of `start_ollama_server` once the terminal strategy has
      failed, from probe `q` and scan `s`: the background strategy, then,
      when it fails, the process scan, and after a scan that finds ollama
      one more probe, which decides. */
  function FallbackSpec(env: Env, q: nat, s: nat): (r: StartRun)
    ensures r.used <= BackgroundPolls + 1
    ensures r.tried == [BackgroundStrategy]
    ensures var b := BackgroundSpec(env, q);
      && (r.ok <==> b.ok || (ScanFinds(env.processes(s)) && Healthy(env, q + b.used)))
      && r.used == b.used + (if !b.ok && ScanFinds(env.processes(s)) then 1 else 0)
      && r.scans == (if b.ok then 0 else 1)
  {
    var b := BackgroundSpec(env, q);
    if b.ok then StartRun(true, b.used, 0, [BackgroundStrategy])
    else if ScanFinds(env.processes(s)) then
      StartRun(Healthy(env, q + b.used), 1 + b.used, 1, [BackgroundStrategy])
    else StartRun(false, b.used, 1, [BackgroundStrategy])
  }

  /** The fallback succeeds exactly when the background spawn works and one
      of its 25 probes is healthy, or when the later scan finds ollama and
      the probe right after the background strategy's is healthy. */
  lemma FallbackSucceedsWhen(env: Env, q: nat, s: nat)
    ensures FallbackSpec(env, q, s).ok <==>
      (env.backgroundSpawns && exists j :: q <= j < q + BackgroundPolls && Healthy(env, j))
      || (ScanFinds(env.processes(s)) && Healthy(env, q + (if env.backgroundSpawns then BackgroundPolls else 0)))
  {
    BackgroundSucceedsWhen(env, q);
  }

  lemma TriedBoth(a: seq<Strategy>)
    ensures a + [TerminalStrategy] + [BackgroundStrategy] == a + [TerminalStrategy, BackgroundStrategy]
  {
    assert [TerminalStrategy] + [BackgroundStrategy] == [TerminalStrategy, BackgroundStrategy];
    AppendAssoc(a, [TerminalStrategy], [BackgroundStrategy]);
  }

  /** The spawning part of `start_ollama_server`, from probe `q` and scan
      `s`: the terminal strategy, and the fallback only when it fails. */
  function SpawnSpec(env: Env, q: nat, s: nat): StartRun {
    var t := TerminalSpec(env, q, s);
    if t.ok then StartRun(true, t.used, t.scans, [TerminalStrategy])
    else
      var f := FallbackSpec(env, q + t.used, s + t.scans);
      StartRun(f.ok, t.used + f.used, t.scans + f.scans, [TerminalStrategy, BackgroundStrategy])
  }

  /** The spawning part spends at most 31 + 1 + 25 + 1 probes and two scans,
      tries the terminal strategy first and the background one only after
      the terminal one failed, and succeeds whenever it stops after the
      first. */
  lemma SpawnShape(env: Env, q: nat, s: nat)
    ensures var r := SpawnSpec(env, q, s);
      && r.used <= (TerminalPolls + 1) + BackgroundPolls + 1
      && r.scans <= 2
      && (r.tried == [TerminalStrategy] || r.tried == [TerminalStrategy, BackgroundStrategy])
      && (r.tried == [TerminalStrategy] <==> TerminalSpec(env, q, s).ok)
      && (r.tried == [TerminalStrategy] ==> r.ok)
      && (BackgroundStrategy in r.tried <==> !TerminalSpec(env, q, s).ok)
  {
    assert [TerminalStrategy] != [TerminalStrategy, BackgroundStrategy];
  }

  lemma SpawnFirstStrategy(env: Env, q: nat, s: nat)
    requires TerminalSpec(env, q, s).ok
    ensures var t := TerminalSpec(env, q, s);
      SpawnSpec(env, q, s) == StartRun(true, t.used, t.scans, [TerminalStrategy])
  {
  }

  /** After a failed terminal strategy that left the counters at `q1` and
      `s1`, the spawning part is the fallback from there. */
  lemma SpawnFallsBack(env: Env, q: nat, s: nat, q1: nat, s1: nat)
    requires !TerminalSpec(env, q, s).ok
    requires q1 == q + TerminalSpec(env, q, s).used && s1 == s + TerminalSpec(env, q, s).scans
    ensures var f := FallbackSpec(env, q1, s1);
      SpawnSpec(env, q, s)
        == StartRun(f.ok, q1 - q + f.used, s1 - s + f.scans, [TerminalStrategy, BackgroundStrategy])
  {
  }

  /** `start_ollama_server` from probe `p` and scan `s`. */
  function StartSpec(env: Env, p: nat, s: nat): (r: StartRun)
    ensures 1 <= r.used <= 1 + (TerminalPolls + 1) + BackgroundPolls + 1
    ensures r.scans <= 2
    ensures Healthy(env, p) ==> r == StartRun(true, 1, 0, [])
    ensures !Healthy(env, p) && !CanInstall(env) ==> r == StartRun(false, 1, 0, [])
    ensures r.tried in {[], [TerminalStrategy], [TerminalStrategy, BackgroundStrategy]}
    ensures r.tried == [] ==> r.ok == Healthy(env, p) && r.scans == 0
    ensures r.tried == [TerminalStrategy] ==> r.ok && TerminalSpec(env, p + 1, s).ok
    ensures |r.tried| == 2 ==> !TerminalSpec(env, p + 1, s).ok
  {
    if Healthy(env, p) then StartRun(true, 1, 0, [])
    else if !CanInstall(env) then StartRun(false, 1, 0, [])
    else
      var sp := SpawnSpec(env, p + 1, s);
      SpawnShape(env, p + 1, s);
      StartRun(sp.ok, 1 + sp.used, sp.scans, sp.tried)
  }

  /** After an unhealthy first probe, with an installation at hand, the
      start is the spawning part from the next probe `q1`. */
  lemma StartSpawns(env: Env, p: nat, s: nat, q1: nat)
    requires !Healthy(env, p) && CanInstall(env) && q1 == p + 1
    ensures var sp := SpawnSpec(env, q1, s);
      StartSpec(env, p, s) == StartRun(sp.ok, 1 + sp.used, sp.scans, sp.tried)
  {
  }

  // ---------------------------------------------------------------------
  // Specification of model selection

  const DefaultModel := "phi3.5:latest"
  const FastModels: seq<string> := ["phi3.5:latest", "phi:2.7b", "mistral:7b"]

  /** The tag listing names `m`, compared as `model.get("name", "")`: an
      entry without the key reads as "", one whose name is `null` matches
      nothing. */
  predicate Listed(names: seq<NameField>, m: string) {
    exists i :: 0 <= i < |names| && GetName(names[i], Some("")) == Some(m)
  }

  datatype EnsureRun = EnsureRun(ok: bool, pulled: bool)

  /** `ensure_model_downloaded(m)` answered by listing `l`: a listed model
      needs no pull; an unlisted one, or any non-200 listing, leads to a
      pull that succeeds exactly on exit code 0; a failed listing request
      gives up. */
  function EnsureSpec(env: Env, m: string, l: nat): (r: EnsureRun)
    ensures var t := env.tags(l);
      && (t.TagsOk? && Listed(t.names, m) ==> r == EnsureRun(true, false))
      && (r.pulled <==> !t.TagsFailed? && !(t.TagsOk? && Listed(t.names, m)))
      && (r.ok <==> (t.TagsOk? && Listed(t.names, m)) || (r.pulled && env.pull(m) == PullExited(0)))
  {
    match env.tags(l)
    case TagsOk(names) =>
      if Listed(names, m) then EnsureRun(true, false) else EnsureRun(env.pull(m) == PullExited(0), true)
    case TagsRejected(_) => EnsureRun(env.pull(m) == PullExited(0), true)
    case TagsFailed(_) => EnsureRun(false, false)
  }

  /** The candidate at `j` is accepted when tried on listing `l + j`. */
  predicate ReadyAt(env: Env, cands: seq<string>, l: nat, j: nat)
    requires j < |cands|
  {
    EnsureSpec(env, cands[j], l + j).ok
  }

  /** Index of the first candidate `ensure_model_downloaded` accepts, the
      `j`-th candidate being answered by listing `l + j`, or `|cands|` when
      none is. */
  function FirstReady(env: Env, cands: seq<string>, l: nat): (k: nat)
    ensures k <= |cands|
    ensures forall j :: 0 <= j < k ==> !ReadyAt(env, cands, l, j)
    ensures k < |cands| ==> ReadyAt(env, cands, l, k)
  {
    if cands == [] then 0
    else if EnsureSpec(env, cands[0], l).ok then 0
    else
      assert forall j :: 0 < j < |cands| ==> ReadyAt(env, cands, l, j) == ReadyAt(env, cands[1..], l + 1, j - 1);
      1 + FirstReady(env, cands[1..], l + 1)
  }

  /** Scanning in order, the candidate at `i` is the first ready one exactly
      when it is ready. */
  lemma FirstReadyAt(env: Env, cands: seq<string>, l: nat, i: nat)
    requires i < |cands| && i <= FirstReady(env, cands, l)
    ensures EnsureSpec(env, cands[i], l + i).ok <==> FirstReady(env, cands, l) == i
  {
    assert ReadyAt(env, cands, l, i) == EnsureSpec(env, cands[i], l + i).ok;
  }

  /** The pulls made while trying `cands` in order from listing `l`, all of
      them tried. */
  function PullsOf(env: Env, cands: seq<string>, l: nat): (ps: seq<string>)
    ensures |ps| <= |cands|
  {
    if cands == [] then []
    else (if EnsureSpec(env, cands[0], l).pulled then [cands[0]] else []) + PullsOf(env, cands[1..], l + 1)
  }

  /** Only candidates that their own listing did not name get pulled. */
  lemma {:induction false} PullsOnlyUnlisted(env: Env, cands: seq<string>, l: nat)
    ensures forall m :: m in PullsOf(env, cands, l) ==>
      exists j :: 0 <= j < |cands| && cands[j] == m && EnsureSpec(env, m, l + j).pulled
  {
    if cands != [] {
      PullsOnlyUnlisted(env, cands[1..], l + 1);
      forall m | m in PullsOf(env, cands, l)
        ensures exists j :: 0 <= j < |cands| && cands[j] == m && EnsureSpec(env, m, l + j).pulled
      {
        if m in PullsOf(env, cands[1..], l + 1) {
          var j :| 0 <= j < |cands[1..]| && cands[1..][j] == m && EnsureSpec(env, m, l + 1 + j).pulled;
          assert cands[j + 1] == m;
        } else {
          assert cands[0] == m;
        }
      }
    }
  }

  lemma {:induction false} PullsOfAppend(env: Env, cands: seq<string>, m: string, l: nat)
    ensures PullsOf(env, cands + [m], l) == PullsOf(env, cands, l) + PullsOf(env, [m], l + |cands|)
    decreases cands
  {
    if cands == [] {
      assert cands + [m] == [m];
    } else {
      var c, h := cands + [m], if EnsureSpec(env, cands[0], l).pulled then [cands[0]] else [];
      PullsOfAppend(env, cands[1..], m, l + 1);
      assert c[0] == cands[0] && c[1..] == cands[1..] + [m];
      assert PullsOf(env, c, l) == h + PullsOf(env, cands[1..] + [m], l + 1);
      assert PullsOf(env, cands, l) == h + PullsOf(env, cands[1..], l + 1);
    }
  }

  /** Trying one more candidate adds that candidate's pull, if any. */
  lemma PullsStep(env: Env, cands: seq<string>, l: nat, i: nat)
    requires i < |cands|
    ensures PullsOf(env, cands[..i + 1], l)
         == PullsOf(env, cands[..i], l) + (if EnsureSpec(env, cands[i], l + i).pulled then [cands[i]] else [])
  {
    var m := cands[i];
    PullsOfAppend(env, cands[..i], m, l);
    assert cands[..i] + [m] == cands[..i + 1];
    assert [m][1..] == [];
  }

  // ---------------------------------------------------------------------
  // Specification of the diagnostic checks

  /** The outcome of `diagnostic_check`; the message text is not modelled. */
  datatype Diagnosis =
    | ServerDown
    | ListingRejected(status: int)
    | NoModels
    | ModelMissing(model: string, available: seq<NameField>)
    | AllGood
    | DiagnosisFailed(detail: string)

  /** `diagnostic_check` given the answer of its health probe and, when the
      server is up, of its tag listing: the checks run in order and the
      first failing one decides. Unlike model selection, which reads
      `get("name", "")`, an entry without a name never matches here. */
  function Diagnose(up: bool, tags: TagsReply, current: string): (d: Diagnosis)
    ensures !up ==> d == ServerDown
    ensures up && tags.TagsRejected? ==> d == ListingRejected(tags.status)
    ensures up && tags.TagsFailed? ==> d == DiagnosisFailed(tags.detail)
    ensures d.NoModels? <==> up && tags.TagsOk? && tags.names == []
    ensures d.ModelMissing? <==> up && tags.TagsOk? && tags.names != [] && Named(current) !in tags.names
    ensures d.ModelMissing? ==> d == ModelMissing(current, tags.names)
    ensures d == AllGood <==> up && tags.TagsOk? && tags.names != [] && Named(current) in tags.names
  {
    if !up then ServerDown
    else match tags
      case TagsRejected(status) => ListingRejected(status)
      case TagsFailed(detail) => DiagnosisFailed(detail)
      case TagsOk(names) =>
        if names == [] then NoModels
        else if Named(current) !in names then ModelMissing(current, names)
        else AllGood
  }

  /** For a non-empty model name, the diagnosis is "all good" on a listing
      exactly when model selection would accept that model from the same
      listing without a pull. */
  lemma DiagnosisAgreesWithSelection(tags: TagsReply, m: string)
    requires m != ""
    ensures Diagnose(true, tags, m) == AllGood <==> tags.TagsOk? && Listed(tags.names, m)
  {
    if tags.TagsOk? && Listed(tags.names, m) {
      var i :| 0 <= i < |tags.names| && GetName(tags.names[i], Some("")) == Some(m);
      assert tags.names[i] == Named(m);
    }
  }

  /** The name "" shows where the two readings differ: an entry without a
      name lists it for model selection but not for the diagnosis. */
  lemma NamelessEntryDiffers()
    ensures Listed([NoName], "")
    ensures Diagnose(true, TagsOk([NoName]), "") == ModelMissing("", [NoName])
  {
    assert GetName([NoName][0], Some("")) == Some("");
  }

  // ---------------------------------------------------------------------
  // The manager

  /** A spawned background server, and whether it exits within the
      10-second wait after `terminate()`. */
  datatype ServerProcess = ServerProcess(exitsOnTerminate: bool)

  datatype Signal = Terminate | Kill

  class OllamaManager {
    const env: Env
    const systemCores: int
    const systemRam: int
    var isRunning: bool
    var currentModel: string
    var modelLoaded: bool
    var process: Option<ServerProcess>
    /** Number of health probes made so far: the next one reads `env.health[probes]`. */
    var probes: nat
    /** Number of process scans made so far: the next one sees `env.processes(scans)`. */
    var scans: nat
    /** Number of tag listing requests made so far: the next one is answered by `env.tags(listings)`. */
    var listings: nat
    ghost var tried: seq<Strategy>
    ghost var pulls: seq<string>
    ghost var preloads: nat
    ghost var signals: seq<Signal>
    ghost var requests: seq<Request>

    constructor(env: Env, physicalCores: Option<int>, totalRamBytes: Option<int>)
      ensures this.env == env
      ensures systemCores == DetectCpuCores(physicalCores) && systemRam == DetectRamGb(totalRamBytes)
      ensures !isRunning && currentModel == DefaultModel && !modelLoaded && process == None
      ensures probes == 0 && scans == 0 && listings == 0 && tried == [] && pulls == [] && preloads == 0 && signals == [] && requests == []
    {
      this.env := env;
      systemCores := DetectCpuCores(physicalCores);
      systemRam := DetectRamGb(totalRamBytes);
      isRunning := false;
      currentModel := DefaultModel;
      modelLoaded := false;
      process := None;
      probes := 0;
      scans := 0;
      listings := 0;
      tried := [];
      pulls := [];
      preloads := 0;
      signals := [];
      requests := [];
    }

    /** `is_running` holds the answer of the latest probe. */
    ghost predicate TracksLastProbe()
      reads this`probes, this`isRunning
    {
      probes > 0 && isRunning == Healthy(env, probes - 1)
    }

    /** `is_ollama_running`: one probe, whose answer is also recorded. */
    method IsOllamaRunning() returns (up: bool)
      modifies this`isRunning, this`probes
      ensures up == Healthy(env, old(probes)) && isRunning == up
      ensures probes == old(probes) + 1
    {
      up := probes < |env.health| && env.health[probes];
      isRunning := up;
      probes := probes + 1;
    }

    /** `_check_existing_ollama_process`: the first process whose lowercased
        name or executable contains "ollama" ends the scan. */
    method CheckExistingProcess() returns (found: bool)
      modifies this`scans
      ensures found == ScanFinds(env.processes(old(scans)))
      ensures scans == old(scans) + 1
    {
      var scan := env.processes(scans);
      scans := scans + 1;
      if scan.None? {
        return false;
      }
      var table := scan.value;
      for i := 0 to |table|
        invariant forall j :: 0 <= j < i ==> !OllamaProcess(table[j])
      {
        var name := Lower(table[i].name.GetOr(""));
        var exe := Lower(table[i].exe.GetOr(""));
        if Contains(name, "ollama") || Contains(exe, "ollama") {
          return true;
        }
      }
      return false;
    }

    /** The polling loop shared by both strategies: up to `n` probes,
        stopping at the first healthy one. */
    method PollHealth(n: nat) returns (ok: bool)
      modifies this`isRunning, this`probes
      ensures ok == PollSpec(env, old(probes), n).ok
      ensures probes == old(probes) + PollSpec(env, old(probes), n).used
      ensures probes > old(probes) ==> isRunning == Healthy(env, probes - 1)
      ensures probes == old(probes) ==> isRunning == old(isRunning)
    {
      var i := 0;
      while i < n
        invariant 0 <= i <= n
        invariant probes == old(probes) + i
        invariant PollSpec(env, old(probes), n)
          == Poll(PollSpec(env, probes, n - i).ok, PollSpec(env, probes, n - i).used + i)
        invariant i > 0 ==> isRunning == Healthy(env, probes - 1)
        invariant i == 0 ==> isRunning == old(isRunning)
      {
        var up := IsOllamaRunning();
        if up {
          return true;
        }
        PollSkips(env, probes - 1, n - i);
        i := i + 1;
      }
      return false;
    }

    /** `_start_ollama_terminal`. */
    method StartTerminal() returns (ok: bool)
      requires TracksLastProbe()
      modifies this`isRunning, this`probes, this`scans
      ensures var t := TerminalSpec(env, old(probes), old(scans));
        ok == t.ok && probes == old(probes) + t.used && scans == old(scans) + t.scans
      ensures TracksLastProbe()
    {
      if !env.terminalSpawns {
        return false;
      }
      ok := PollHealth(TerminalPolls);
      if ok {
        return;
      }
      var found := CheckExistingProcess();
      if found {
        return true;
      }
      ok := IsOllamaRunning();
    }

    /** `_start_ollama_background`: a successful spawn replaces the stored
        server handle. */
    method StartBackground() returns (ok: bool)
      requires TracksLastProbe()
      modifies this`isRunning, this`probes, this`process
      ensures ok == BackgroundSpec(env, old(probes)).ok
      ensures probes == old(probes) + BackgroundSpec(env, old(probes)).used
      ensures process == if env.backgroundSpawns then Some(ServerProcess(env.exitsOnTerminate)) else old(process)
      ensures TracksLastProbe()
    {
      if !env.backgroundSpawns {
        return false;
      }
      process := Some(ServerProcess(env.exitsOnTerminate));
      ok := PollHealth(BackgroundPolls);
    }

    /** `start_ollama_server`. */
    method StartServer() returns (ok: bool)
      modifies this`isRunning, this`probes, this`scans, this`process, this`tried
      ensures var run := StartSpec(env, old(probes), old(scans));
        && ok == run.ok
        && probes == old(probes) + run.used
        && scans == old(scans) + run.scans
        && tried == old(tried) + run.tried
        && process == (if BackgroundStrategy in run.tried && env.backgroundSpawns
                       then Some(ServerProcess(env.exitsOnTerminate)) else old(process))
      ensures TracksLastProbe()
    {
      ghost var p, s := probes, scans;
      var up := IsOllamaRunning();
      if up {
        return true;
      }
      if !env.installed {
        if !env.windows || !env.installerOk {
          return false;
        }
      }
      SpawnShape(env, probes, s);
      StartSpawns(env, p, s, probes);
      ok := StartSpawning();
    }

    /** The terminal strategy, then the fallback when it fails. */
    method StartSpawning() returns (ok: bool)
      requires TracksLastProbe()
      modifies this`isRunning, this`probes, this`scans, this`process, this`tried
      ensures var run := SpawnSpec(env, old(probes), old(scans));
        && ok == run.ok
        && probes == old(probes) + run.used
        && scans == old(scans) + run.scans
        && tried == old(tried) + run.tried
      ensures process == (if !TerminalSpec(env, old(probes), old(scans)).ok && env.backgroundSpawns
                          then Some(ServerProcess(env.exitsOnTerminate)) else old(process))
      ensures TracksLastProbe()
    {
      ghost var p0, s0, tried0 := probes, scans, tried;
      tried := tried + [TerminalStrategy];
      ok := StartTerminal();
      if ok {
        SpawnFirstStrategy(env, p0, s0);
        return;
      }
      SpawnFallsBack(env, p0, s0, probes, scans);
      ok := StartFallback();
      TriedBoth(tried0);
    }

    /** The background strategy, then the final process scan and probe. */
    method StartFallback() returns (ok: bool)
      requires TracksLastProbe()
      modifies this`isRunning, this`probes, this`scans, this`process, this`tried
      ensures var run := FallbackSpec(env, old(probes), old(scans));
        && ok == run.ok
        && probes == old(probes) + run.used
        && scans == old(scans) + run.scans
        && tried == old(tried) + run.tried
        && process == (if env.backgroundSpawns then Some(ServerProcess(env.exitsOnTerminate)) else old(process))
      ensures TracksLastProbe()
    {
      tried := tried + [BackgroundStrategy];
      ok := StartBackground();
      if ok {
        return;
      }
      var found := CheckExistingProcess();
      if found {
        ok := IsOllamaRunning();
      }
    }

    /** `ensure_model_downloaded`, None standing for the current model. */
    method EnsureModelDownloaded(modelName: Option<string>) returns (ok: bool)
      modifies this`currentModel, this`pulls, this`listings
      ensures var m := modelName.GetOr(old(currentModel));
        && ok == EnsureSpec(env, m, old(listings)).ok
        && currentModel == (if ok then m else old(currentModel))
        && pulls == old(pulls) + (if EnsureSpec(env, m, old(listings)).pulled then [m] else [])
        && listings == old(listings) + 1
    {
      var m := modelName.GetOr(currentModel);
      var reply := env.tags(listings);
      listings := listings + 1;
      match reply {
        case TagsFailed(_) =>
          return false;
        case TagsRejected(_) =>
        case TagsOk(names) =>
          for i := 0 to |names|
            invariant forall j :: 0 <= j < i ==> GetName(names[j], Some("")) != Some(m)
          {
            if Some(m) == GetName(names[i], Some("")) {
              currentModel := m;
              return true;
            }
          }
      }
      pulls := pulls + [m];
      if env.pull(m) == PullExited(0) {
        currentModel := m;
        return true;
      }
      return false;
    }

    /** The candidate loop of `setup_environment`: `ensure_model_downloaded`
        on each candidate in order, stopping at the first that succeeds. */
    method SelectModel(cands: seq<string>) returns (ok: bool)
      modifies this`currentModel, this`pulls, this`listings
      ensures var l := old(listings);
        var k := FirstReady(env, cands, l);
        && ok == (k < |cands|)
        && currentModel == (if ok then cands[k] else old(currentModel))
        && pulls == old(pulls) + (if ok then PullsOf(env, cands[..k + 1], l) else PullsOf(env, cands, l))
        && listings == l + (if ok then k + 1 else |cands|)
    {
      ghost var l := listings;
      ghost var k := FirstReady(env, cands, l);
      var i := 0;
      while i < |cands|
        invariant 0 <= i <= |cands| && i <= k
        invariant listings == l + i
        invariant pulls == old(pulls) + PullsOf(env, cands[..i], l)
        invariant currentModel == old(currentModel)
      {
        PullsStep(env, cands, l, i);
        FirstReadyAt(env, cands, l, i);
        ghost var step := if EnsureSpec(env, cands[i], l + i).pulled then [cands[i]] else [];
        AppendAssoc(old(pulls), PullsOf(env, cands[..i], l), step);
        var ready := EnsureModelDownloaded(Some(cands[i]));
        if ready {
          return true;
        }
        i := i + 1;
      }
      assert cands[..|cands|] == cands;
      return false;
    }

    /** `setup_environment`: start the server, then try the fast models in
        order until one is available. The warm-up has no effect on the
        outcome and is not modelled. */
    method SetupEnvironment() returns (ok: bool)
      modifies this`isRunning, this`probes, this`scans, this`process, this`tried
      modifies this`currentModel, this`pulls, this`listings
      ensures var start := StartSpec(env, old(probes), old(scans));
        var l := old(listings);
        var k := FirstReady(env, FastModels, l);
        && probes == old(probes) + start.used
        && scans == old(scans) + start.scans
        && tried == old(tried) + start.tried
        && process == (if BackgroundStrategy in start.tried && env.backgroundSpawns
                       then Some(ServerProcess(env.exitsOnTerminate)) else old(process))
        && ok == (start.ok && k < |FastModels|)
        && currentModel == (if ok then FastModels[k] else old(currentModel))
        && pulls == old(pulls) + (if !start.ok then []
                                  else if k < |FastModels| then PullsOf(env, FastModels[..k + 1], l)
                                  else PullsOf(env, FastModels, l))
        && listings == l + (if !start.ok then 0 else if k < |FastModels| then k + 1 else |FastModels|)
      ensures TracksLastProbe()
    {
      var started := StartServer();
      if !started {
        return false;
      }
      ok := SelectModel(FastModels);
    }

    /** `_preload_model`: once a preload has been confirmed, no further
        request is made. */
    method PreloadModel() returns (ok: bool)
      modifies this`modelLoaded, this`preloads
      ensures ok == (old(modelLoaded) || PreloadConfirms(env.preload))
      ensures modelLoaded == ok
      ensures preloads == old(preloads) + (if old(modelLoaded) then 0 else 1)
    {
      if modelLoaded {
        return true;
      }
      preloads := preloads + 1;
      match env.preload {
        case PreloadAnswered(status, response) =>
          if status == 200 && Contains(response, "LISTO") {
            modelLoaded := true;
            return true;
          }
        case PreloadFailed =>
      }
      return false;
    }

    /** `diagnostic_check`. */
    method DiagnosticCheck() returns (d: Diagnosis)
      modifies this`isRunning, this`probes, this`listings
      ensures var up := Healthy(env, old(probes));
        && probes == old(probes) + 1 && isRunning == up
        && listings == old(listings) + (if up then 1 else 0)
        && d == Diagnose(up, env.tags(old(listings)), currentModel)
    {
      var up := IsOllamaRunning();
      if !up {
        return ServerDown;
      }
      var reply := env.tags(listings);
      listings := listings + 1;
      d := Diagnose(up, reply, currentModel);
    }

    /** `stop_server`: terminate, kill when the wait times out, then forget
        the handle. */
    method StopServer()
      modifies this`process, this`signals
      ensures process == None
      ensures signals == old(signals) + match old(process)
        case None => []
        case Some(p) => if p.exitsOnTerminate then [Terminate] else [Terminate, Kill]
    {
      if process.Some? {
        signals := signals + [Terminate];
        if !process.value.exitsOnTerminate {
          signals := signals + [Kill];
        }
        process := None;
      }
    }

    /** `generate_response`: the only restart attempt is the pre-check; after
        the request is sent, every failure just maps to its reply. */
    method GenerateResponse(question: string, model: Option<string>, context: Option<string>)
      returns (reply: string)
      modifies this`isRunning, this`probes, this`scans, this`process, this`tried, this`requests
      ensures reply != []
      ensures TracksLastProbe()
      ensures var req := Request(model.GetOr(currentModel), BuildPrompt(question, context),
                                 OptimizedParameters(systemCores));
        if Healthy(env, old(probes)) then
          && probes == old(probes) + 1 && scans == old(scans) && tried == old(tried)
          && process == old(process)
          && requests == old(requests) + [req] && reply == ReplyFor(env.generate(req))
        else
          var start := StartSpec(env, old(probes) + 1, old(scans));
          && probes == old(probes) + 1 + start.used && scans == old(scans) + start.scans
          && tried == old(tried) + start.tried
          && process == (if BackgroundStrategy in start.tried && env.backgroundSpawns
                         then Some(ServerProcess(env.exitsOnTerminate)) else old(process))
          && (start.ok ==> requests == old(requests) + [req] && reply == ReplyFor(env.generate(req)))
          && (!start.ok ==> requests == old(requests) && reply == UnavailableReply)
    {
      var m := model.GetOr(currentModel);
      var up := IsOllamaRunning();
      if !up {
        assert StartSpec(env, probes, scans) == StartSpec(env, old(probes) + 1, old(scans));
        var started := StartServer();
        if !started {
          return UnavailableReply;
        }
      }
      var req := Request(m, BuildPrompt(question, context), OptimizedParameters(systemCores));
      requests := requests + [req];
      reply := ReplyFor(env.generate(req));
    }
  }

  predicate PreloadConfirms(r: PreloadReply) {
    r.PreloadAnswered? && r.status == 200 && Contains(r.response, "LISTO")
  }
}
