/** The update decision logic of `DiceSenseiUpdater` (src/updater.py):
    the installed version, version comparison, platform asset selection,
    the checksum lookup and the order of the download checks. The HTTP
    requests, the zip test and SHA-256 are oracles. */
module Updater {
  import opened Wrappers
  import opened Text
  import opened Settings

  // ---------------------------------------------------------------------
  // `get_current_version`

  const FallbackVersion := "1.0.0"

  /** The version file's `version` entry; "1.0.0" when the file is missing,
      unreadable, not an object, or has no such entry. */
  function CurrentVersion(versionFile: StoredFile): (v: Json)
    ensures FileObject(versionFile).None? ==> v == JStr(FallbackVersion)
    ensures FileObject(versionFile).Some? ==>
      v == if "version" in FileObject(versionFile).value then FileObject(versionFile).value["version"]
           else JStr(FallbackVersion)
  {
    match FileObject(versionFile)
    case None => JStr(FallbackVersion)
    case Some(m) => if "version" in m then m["version"] else JStr(FallbackVersion)
  }

  // ---------------------------------------------------------------------
  // Python's `int()` on a string (ASCII digits)

  predicate IsDigit(c: char) { '0' <= c <= '9' }

  /** Digits with single underscores between them, as `int()` accepts. */
  predicate DigitRun(s: string) {
    && s != [] && IsDigit(s[0]) && IsDigit(s[|s| - 1])
    && forall i :: 0 <= i < |s| ==>
         IsDigit(s[i]) || (s[i] == '_' && 0 < i < |s| - 1 && IsDigit(s[i - 1]) && IsDigit(s[i + 1]))
  }

  /** The value of a digit run, underscores ignored. */
  function RunValue(s: string): nat
    decreases |s|
  {
    if s == [] then 0
    else if IsDigit(s[|s| - 1]) then 10 * RunValue(s[..|s| - 1]) + (s[|s| - 1] as int - '0' as int)
    else RunValue(s[..|s| - 1])
  }

  /** A sign followed by a digit run. */
  predicate Signed(t: string) {
    t != [] && (t[0] == '+' || t[0] == '-') && DigitRun(t[1..])
  }

  /** The value of a signed digit run. */
  function SignedValue(t: string): int
    requires Signed(t)
  {
    (if t[0] == '-' then -1 else 1) * RunValue(t[1..])
  }

  /** `int(s)`: surrounding whitespace, an optional sign, then a digit run;
      None for the ValueError. */
  function ParseInt(s: string): (r: Option<int>)
    ensures r.Some? <==> DigitRun(Strip(s)) || Signed(Strip(s))
    ensures DigitRun(Strip(s)) ==> r == Some(RunValue(Strip(s)))
    ensures Signed(Strip(s)) ==> r == Some(SignedValue(Strip(s)))
  {
    var t := Strip(s);
    if t != [] && (t[0] == '+' || t[0] == '-') then
      var body := t[1..];
      var n: int := RunValue(body);
      if DigitRun(body) then Some(if t[0] == '-' then -n else n) else None
    else if DigitRun(t) then Some(RunValue(t))
    else None
  }

  /** The decimal numeral of `n`. */
  function Decimal(n: nat): (s: string)
    ensures s != [] && forall i :: 0 <= i < |s| ==> IsDigit(s[i])
  {
    if n < 10 then [('0' as int + n) as char]
    else Decimal(n / 10) + [('0' as int + n % 10) as char]
  }

  lemma DigitsAreRun(s: string)
    requires s != [] && forall i :: 0 <= i < |s| ==> IsDigit(s[i])
    ensures DigitRun(s)
  {
  }

  lemma {:induction false} DecimalValue(n: nat)
    ensures RunValue(Decimal(n)) == n
    decreases n
  {
    if n >= 10 {
      DecimalValue(n / 10);
      var s := Decimal(n);
      assert s[..|s| - 1] == Decimal(n / 10);
    }
  }

  /** `int()` reads back the numeral `Decimal(n)`. */
  lemma ParseDecimal(n: nat)
    ensures DigitRun(Decimal(n))
    ensures ParseInt(Decimal(n)) == Some(n)
  {
    DigitsAreRun(Decimal(n));
    DecimalUnpadded(n);
    DecimalValue(n);
  }

  lemma DecimalUnpadded(n: nat)
    ensures Strip(Decimal(n)) == Decimal(n)
  {
    var s := Decimal(n);
    assert !IsSpace(s[0]) && !IsSpace(s[|s| - 1]);
    StripUnpadded(s);
  }

  // ---------------------------------------------------------------------
  // `is_newer_version`

  /** Every character is a `v`. */
  predicate AllV(p: string) {
    forall i :: 0 <= i < |p| ==> p[i] == 'v'
  }

  /** `ver.lstrip('v')`: the longest suffix not starting with `v`, every
      character before it being a `v`. */
  function LStripV(s: string): (r: string)
    ensures r == [] || r[0] != 'v'
    ensures |r| <= |s| && r == s[|s| - |r|..]
    ensures AllV(s[..|s| - |r|])
  {
    if s != [] && s[0] == 'v' then LStripV(s[1..]) else s
  }

  /** `f` applied to every element, None as soon as one application is
      None. */
  function MapAll<T, U>(xs: seq<T>, f: T -> Option<U>): (r: Option<seq<U>>)
    ensures r.None? <==> exists i :: 0 <= i < |xs| && f(xs[i]).None?
    ensures r.Some? ==> (|r.value| == |xs| && forall i :: 0 <= i < |xs| ==> f(xs[i]) == Some(r.value[i]))
  {
    if xs == [] then Some([])
    else
      var head, tail := f(xs[0]), MapAll(xs[1..], f);
      assert forall i :: 1 <= i < |xs| ==> xs[i] == xs[1..][i - 1];
      if head.Some? && tail.Some? then Some([head.value] + tail.value) else None
  }

  /** `list(map(int, parts))`; None when some part fails to parse. */
  function ParseAll(parts: seq<string>): (r: Option<seq<int>>)
    ensures r.None? <==> exists i :: 0 <= i < |parts| && ParseInt(parts[i]).None?
    ensures r.Some? ==> (|r.value| == |parts|
      && forall i :: 0 <= i < |parts| ==> ParseInt(parts[i]) == Some(r.value[i]))
  {
    MapAll(parts, ParseInt)
  }

  /** `list(map(int, ver.lstrip('v').split('.')))`; None for the ValueError. */
  function ParseVersion(ver: string): Option<seq<int>> {
    ParseAll(SplitOn(LStripV(ver), '.'))
  }

  /** Python's `<` on lists of ints: the first differing position decides,
      and a proper prefix is smaller. */
  predicate LexLess(a: seq<int>, b: seq<int>) {
    if a == [] then b != []
    else b != [] && (a[0] < b[0] || (a[0] == b[0] && LexLess(a[1..], b[1..])))
  }

  lemma LexLessIrreflexive(a: seq<int>)
    ensures !LexLess(a, a)
  {
  }

  lemma {:induction false} LexLessTransitive(a: seq<int>, b: seq<int>, c: seq<int>)
    requires LexLess(a, b) && LexLess(b, c)
    ensures LexLess(a, c)
    decreases |a|
  {
    if a != [] && a[0] == b[0] && b[0] == c[0] {
      LexLessTransitive(a[1..], b[1..], c[1..]);
    }
  }

  /** Any two different lists are ordered one way, and never both. */
  lemma {:induction false} LexLessTotal(a: seq<int>, b: seq<int>)
    ensures a != b ==> LexLess(a, b) || LexLess(b, a)
    ensures !(LexLess(a, b) && LexLess(b, a))
    decreases |a|
  {
    if a != [] && b != [] && a[0] == b[0] {
      LexLessTotal(a[1..], b[1..]);
      if a[1..] == b[1..] {
        assert a == [a[0]] + a[1..] && b == [b[0]] + b[1..];
      }
    }
  }

  /** A proper prefix is older: "1.0" is not newer than "1.0.0". */
  lemma {:induction false} ProperPrefixIsLess(a: seq<int>, rest: seq<int>)
    requires rest != []
    ensures LexLess(a, a + rest) && !LexLess(a + rest, a)
    decreases |a|
  {
    if a != [] {
      assert (a + rest)[1..] == a[1..] + rest;
      ProperPrefixIsLess(a[1..], rest);
    }
  }

  /** `is_newer_version(latest, current)`: both parse and `latest` is the
      greater list; False when either fails to parse. */
  predicate IsNewerVersion(latest: string, current: string) {
    match (ParseVersion(latest), ParseVersion(current))
    case (Some(l), Some(c)) => LexLess(c, l)
    case _ => false
  }

  /** No version is newer than itself, and two versions are never each
      newer than the other. */
  lemma NewerIsStrictOrder(x: string, y: string)
    ensures !IsNewerVersion(x, x)
    ensures !(IsNewerVersion(x, y) && IsNewerVersion(y, x))
  {
    if ParseVersion(x).Some? {
      LexLessIrreflexive(ParseVersion(x).value);
      if ParseVersion(y).Some? {
        LexLessTotal(ParseVersion(x).value, ParseVersion(y).value);
      }
    }
  }

  /** The numerals of a list of numbers. */
  function Numerals(v: seq<nat>): (parts: seq<string>)
    ensures |parts| == |v|
    ensures forall i :: 0 <= i < |v| ==> parts[i] == Decimal(v[i])
  {
    if v == [] then [] else [Decimal(v[0])] + Numerals(v[1..])
  }

  /** The dotted numeral of a version, as release tags write it. */
  function FormatVersion(v: seq<nat>): string {
    JoinOn(Numerals(v), '.')
  }

  /** A dotted numeral, with or without leading `v`s, parses back to its
      numbers. */
  lemma ParseFormatted(v: seq<nat>, vs: nat)
    requires v != []
    ensures ParseVersion(Repeat('v', vs) + FormatVersion(v)) == Some(v)
  {
    SplitFormatted(v, vs);
    ParseNumerals(v);
  }

  /** Stripping the `v`s and splitting at the dots gives back the numerals. */
  lemma SplitFormatted(v: seq<nat>, vs: nat)
    requires v != []
    ensures SplitOn(LStripV(Repeat('v', vs) + FormatVersion(v)), '.') == Numerals(v)
  {
    var parts := Numerals(v);
    forall i | 0 <= i < |parts|
      ensures '.' !in parts[i]
    {
      ParseDecimal(v[i]);
    }
    SplitOnJoin(parts, '.');
    JoinOnHead(parts, '.');
    assert IsDigit(parts[0][0]);
    LStripRepeat(vs, FormatVersion(v));
  }

  /** `int()` reads each numeral back. */
  lemma {:induction false} ParseNumerals(v: seq<nat>)
    ensures ParseAll(Numerals(v)) == Some(v)
  {
    if v != [] {
      var parts, t := Numerals(v), v[1..];
      ParseNumerals(t);
      ParseDecimal(v[0]);
      assert parts == [Decimal(v[0])] + Numerals(t);
      ConsTail(Decimal(v[0]), Numerals(t));
      ParseAllCons(parts, v[0], t);
      HeadTail(v);
    }
  }

  lemma ParseAllCons(parts: seq<string>, h: int, t: seq<int>)
    requires parts != [] && ParseInt(parts[0]) == Some(h)
    requires ParseAll(parts[1..]) == Some(t)
    ensures ParseAll(parts) == Some([h] + t)
  {
  }

  function Repeat(c: char, n: nat): (s: string)
    ensures |s| == n && forall i :: 0 <= i < n ==> s[i] == c
  {
    if n == 0 then [] else [c] + Repeat(c, n - 1)
  }

  lemma {:induction false} LStripRepeat(n: nat, f: string)
    requires f == [] || f[0] != 'v'
    ensures LStripV(Repeat('v', n) + f) == f
    decreases n
  {
    if n > 0 {
      var r := Repeat('v', n - 1);
      assert Repeat('v', n) == ['v'] + r;
      AppendAssoc(['v'], r, f);
      LStripCons(r + f);
      LStripRepeat(n - 1, f);
    } else {
      assert Repeat('v', 0) + f == f;
    }
  }

  lemma LStripCons(t: string)
    ensures LStripV(['v'] + t) == LStripV(t)
  {
    ConsTail('v', t);
  }

  lemma JoinOnHead(parts: seq<string>, sep: char)
    requires parts != [] && parts[0] != []
    ensures JoinOn(parts, sep) != [] && JoinOn(parts, sep)[0] == parts[0][0]
  {
  }

  /** For versions written as dotted numerals (any number of leading `v`s),
      `is_newer_version` is exactly the list order of their numbers. */
  lemma NewerIsListOrder(latest: seq<nat>, current: seq<nat>, lv: nat, cv: nat)
    requires latest != [] && current != []
    ensures IsNewerVersion(Repeat('v', lv) + FormatVersion(latest), Repeat('v', cv) + FormatVersion(current))
        <==> LexLess(current, latest)
  {
    ParseFormatted(latest, lv);
    ParseFormatted(current, cv);
  }

  lemma FormatPair(x: nat, y: nat)
    ensures FormatVersion([x, y]) == Decimal(x) + "." + Decimal(y)
  {
    var parts := Numerals([x, y]);
    assert parts == [Decimal(x), Decimal(y)];
    assert JoinOn(parts, '.') == Decimal(x) + "." + JoinOn([Decimal(y)], '.');
  }

  lemma FormatTriple(x: nat, y: nat, z: nat)
    ensures FormatVersion([x, y, z]) == Decimal(x) + "." + Decimal(y) + "." + Decimal(z)
  {
    var parts := Numerals([x, y, z]);
    var tail := [Decimal(y), Decimal(z)];
    assert parts == [Decimal(x)] + tail;
    assert parts[1..] == tail;
    assert JoinOn(tail, '.') == Decimal(y) + "." + Decimal(z) by {
      assert tail[1..] == [Decimal(z)];
    }
    assert JoinOn(parts, '.') == Decimal(x) + "." + JoinOn(tail, '.');
  }

  /** A higher patch number is newer: "1.0.1" over "1.0.0". */
  lemma PatchSample()
    ensures IsNewerVersion("1.0.1", "1.0.0")
  {
    assert Repeat('v', 0) + FormatVersion([1, 0, 1]) == "1.0.1"
        && Repeat('v', 0) + FormatVersion([1, 0, 0]) == "1.0.0" by {
      assert Decimal(0) == "0" && Decimal(1) == "1";
      FormatTriple(1, 0, 1);
      FormatTriple(1, 0, 0);
      assert Repeat('v', 0) == [];
    }
    NewerIsListOrder([1, 0, 1], [1, 0, 0], 0, 0);
    PatchOrder();
  }

  lemma PatchOrder()
    ensures LexLess([1, 0, 0], [1, 0, 1])
  {
    var l, c := [1, 0, 1], [1, 0, 0];
    assert c[1..] == [0, 0] && l[1..] == [0, 1];
    assert c[1..][1..] == [0] && l[1..][1..] == [1];
  }

  /** A leading `v` is ignored and a higher major number wins: "v2.0.0"
      over "1.9.0". */
  lemma MajorSample()
    ensures IsNewerVersion("v2.0.0", "1.9.0")
  {
    assert Repeat('v', 1) + FormatVersion([2, 0, 0]) == "v2.0.0"
        && Repeat('v', 0) + FormatVersion([1, 9, 0]) == "1.9.0" by {
      assert Decimal(0) == "0" && Decimal(1) == "1" && Decimal(2) == "2" && Decimal(9) == "9";
      FormatTriple(2, 0, 0);
      FormatTriple(1, 9, 0);
      assert Repeat('v', 1) == "v" && Repeat('v', 0) == [];
    }
    var l, c := [2, 0, 0], [1, 9, 0];
    NewerIsListOrder(l, c, 1, 0);
    assert LexLess(c, l);
  }

  /** Fewer numbers with equal leading numbers is older: "1.0" is not newer
      than "1.0.0", while "1.0.0" is newer than "1.0". */
  lemma ShortTagSample()
    ensures !IsNewerVersion("1.0", "1.0.0") && IsNewerVersion("1.0.0", "1.0")
  {
    ParsedShortTags();
    ShorterIsOlder();
  }

  lemma ParsedShortTags()
    ensures ParseVersion("1.0") == Some([1, 0]) && ParseVersion("1.0.0") == Some([1, 0, 0])
  {
    assert Repeat('v', 0) + FormatVersion([1, 0]) == "1.0"
        && Repeat('v', 0) + FormatVersion([1, 0, 0]) == "1.0.0" by {
      assert Decimal(0) == "0" && Decimal(1) == "1";
      FormatPair(1, 0);
      FormatTriple(1, 0, 0);
      assert Repeat('v', 0) == [];
    }
    ParseFormatted([1, 0], 0);
    ParseFormatted([1, 0, 0], 0);
  }

  lemma ShorterIsOlder()
    ensures LexLess([1, 0], [1, 0, 0]) && !LexLess([1, 0, 0], [1, 0])
  {
    ProperPrefixIsLess([1, 0], [0]);
    assert [1, 0] + [0] == [1, 0, 0];
  }

  /** Tags that do not parse ("invalid", the empty tag) are never newer
      and nothing is newer than them. */
  lemma InvalidVersionSamples(other: string)
    ensures !IsNewerVersion("invalid", other) && !IsNewerVersion(other, "invalid")
    ensures !IsNewerVersion("", other) && !IsNewerVersion(other, "")
  {
    assert LStripV("invalid") == "invalid";
    BadStartUnparseable("invalid");
    BadStartUnparseable("");
  }

  /** A version with any component that `int()` rejects ("1.x", "1..0",
      "1.0-beta") is neither newer nor older than anything. */
  lemma UnparseableNeverNewer(bad: string, other: string)
    requires var parts := SplitOn(LStripV(bad), '.');
      exists i :: 0 <= i < |parts| && ParseInt(parts[i]).None?
    ensures ParseVersion(bad).None?
    ensures !IsNewerVersion(bad, other) && !IsNewerVersion(other, bad)
  {
  }

  /** The same stated on the components of a tag: a tag made by joining
      components with dots, the first not starting with `v`, is unparseable
      as soon as one of its components is. */
  lemma {:induction false} BadComponentNeverNewer(parts: seq<string>, i: nat, other: string)
    requires parts != [] && (parts[0] == [] || parts[0][0] != 'v')
    requires forall k :: 0 <= k < |parts| ==> '.' !in parts[k]
    requires i < |parts| && ParseInt(parts[i]).None?
    ensures !IsNewerVersion(JoinOn(parts, '.'), other) && !IsNewerVersion(other, JoinOn(parts, '.'))
  {
    var tag := JoinOn(parts, '.');
    SplitOnJoin(parts, '.');
    if parts[0] != [] {
      JoinOnHead(parts, '.');
    } else if |parts| > 1 {
      assert tag == parts[0] + ['.'] + JoinOn(parts[1..], '.');
      assert tag[0] == '.';
    }
    assert LStripV(tag) == tag;
    UnparseableNeverNewer(tag, other);
  }

  /** "1.x" is neither newer nor older than anything. */
  lemma LetterComponentSample(other: string)
    ensures !IsNewerVersion("1.x", other) && !IsNewerVersion(other, "1.x")
  {
    var parts := ["1", "x"];
    assert JoinOn(parts, '.') == "1.x";
    FirstPartUnparseable("x");
    assert SplitOn("x", '.')[0] == "x";
    BadComponentNeverNewer(parts, 1, other);
  }

  /** "1..0" (an empty component) is neither newer nor older than
      anything. */
  lemma EmptyComponentSample(other: string)
    ensures !IsNewerVersion("1..0", other) && !IsNewerVersion(other, "1..0")
  {
    var parts := ["1", "", "0"];
    assert JoinOn(parts, '.') == "1..0";
    assert Strip("") == "";
    BadComponentNeverNewer(parts, 1, other);
  }

  /** "1.0-beta" is neither newer nor older than anything. */
  lemma SuffixComponentSample(other: string)
    ensures !IsNewerVersion("1.0-beta", other) && !IsNewerVersion(other, "1.0-beta")
  {
    var parts := ["1", "0-beta"];
    assert JoinOn(parts, '.') == "1.0-beta";
    StripKeepsUnpaddedHead("0-beta");
    assert !IsSpace("0-beta"[|"0-beta"| - 1]);
    StripUnpadded("0-beta");
    assert !DigitRun("0-beta");
    BadComponentNeverNewer(parts, 1, other);
  }

  /** A version that is empty after its `v`s, or whose next character
      cannot start an integer, does not parse ("", "invalid"). */
  lemma BadStartUnparseable(bad: string)
    requires var s := LStripV(bad);
      s == [] || (!IsDigit(s[0]) && !IsSpace(s[0]) && s[0] != '+' && s[0] != '-')
    ensures ParseVersion(bad).None?
  {
    FirstPartUnparseable(LStripV(bad));
  }

  lemma FirstPartUnparseable(s: string)
    requires s == [] || (!IsDigit(s[0]) && !IsSpace(s[0]) && s[0] != '+' && s[0] != '-')
    ensures ParseInt(SplitOn(s, '.')[0]).None?
  {
    var p := SplitOn(s, '.')[0];
    assert p == s[..IndexOf(s, '.')];
    if p != [] {
      assert p[0] == s[0];
      StripKeepsUnpaddedHead(p);
      var t := Strip(p);
      assert !DigitRun(t) && t[0] != '+' && t[0] != '-';
    }
  }

  lemma StripKeepsUnpaddedHead(p: string)
    requires p != [] && !IsSpace(p[0])
    ensures Strip(p) != [] && Strip(p)[0] == p[0]
  {
    assert TrimStart(p) == p;
    TrimEndKeepsHead(p);
  }

  lemma {:induction false} TrimEndKeepsHead(s: string)
    requires s != [] && !IsSpace(s[0])
    ensures TrimEnd(s) != []
    decreases |s|
  {
    if IsSpace(s[|s| - 1]) {
      assert |s| > 1;
      TrimEndKeepsHead(s[..|s| - 1]);
    }
  }

  // ---------------------------------------------------------------------
  // `find_correct_asset`

  /** A release asset: its name, declared size and download URL. */
  datatype Asset = Asset(name: string, size: int, url: string)

  /** `system_map.get(sys.platform)`. */
  function SystemWord(platform: string): (w: Option<string>)
    ensures w.Some? <==> platform in {"win32", "darwin", "linux"}
  {
    if platform == "win32" then Some("windows")
    else if platform == "darwin" then Some("macos")
    else if platform == "linux" then Some("linux")
    else None
  }

  /** The asset's lowercased name contains the platform word and ends in
      `.zip`. */
  predicate AssetFits(a: Asset, word: string) {
    Contains(Lower(a.name), word) && EndsWith(Lower(a.name), ".zip")
  }

  /** `find_correct_asset`: the first fitting asset of the release; None on
      an unmapped platform or when no asset fits. */
  method FindCorrectAsset(platform: string, assets: seq<Asset>) returns (found: Option<Asset>)
    ensures SystemWord(platform).None? ==> found.None?
    ensures found.Some? ==> exists i :: (0 <= i < |assets| && found.value == assets[i]
      && AssetFits(assets[i], SystemWord(platform).value)
      && forall j :: 0 <= j < i ==> !AssetFits(assets[j], SystemWord(platform).value))
    ensures found.None? && SystemWord(platform).Some? ==>
      forall i :: 0 <= i < |assets| ==> !AssetFits(assets[i], SystemWord(platform).value)
  {
    var word := SystemWord(platform);
    if word.None? {
      return None;
    }
    for i := 0 to |assets|
      invariant forall j :: 0 <= j < i ==> !AssetFits(assets[j], word.value)
    {
      var assetName := Lower(assets[i].name);
      if Contains(assetName, word.value) && EndsWith(assetName, ".zip") {
        return Some(assets[i]);
      }
    }
    return None;
  }

  // ---------------------------------------------------------------------
  // `get_expected_hash`

  const ChecksumsAsset := "checksums.sha256"

  /** What the scan of one checksum file finds for a file name: nothing, a
      hash, or a matching line with no token (the IndexError that ends
      the whole lookup). */
  datatype LineHit = NoLine | Token(hash: string) | Raised

  /** The first line containing `filename` decides. */
  function LinesHit(lines: seq<string>, filename: string): (r: LineHit)
    ensures r.NoLine? <==> forall i :: 0 <= i < |lines| ==> !Contains(lines[i], filename)
  {
    if lines == [] then NoLine
    else if Contains(lines[0], filename) then HitOf(lines[0])
    else LinesHit(lines[1..], filename)
  }

  /** A line that names the file: its first token, or the error when it has
      none. */
  function HitOf(line: string): (r: LineHit)
    ensures !r.NoLine?
  {
    if Split(line) == [] then Raised else Token(Split(line)[0])
  }

  /** A hit is decided by the first line that contains the file name. */
  lemma {:induction false} LinesHitFirst(lines: seq<string>, filename: string)
    requires !LinesHit(lines, filename).NoLine?
    ensures exists i :: (0 <= i < |lines| && Contains(lines[i], filename)
      && (forall j :: 0 <= j < i ==> !Contains(lines[j], filename))
      && LinesHit(lines, filename) == HitOf(lines[i]))
  {
    if Contains(lines[0], filename) {
      assert LinesHit(lines, filename) == HitOf(lines[0]);
    } else {
      var rest := lines[1..];
      LinesHitFirst(rest, filename);
      var i :| 0 <= i < |rest| && Contains(rest[i], filename)
        && (forall j :: 0 <= j < i ==> !Contains(rest[j], filename))
        && LinesHit(rest, filename) == HitOf(rest[i]);
      assert lines[i + 1] == rest[i];
      assert forall j :: 1 <= j < i + 1 ==> lines[j] == rest[j - 1];
      assert LinesHit(lines, filename) == LinesHit(rest, filename);
    }
  }

  /** `get_expected_hash(filename, release)`: each `checksums.sha256` asset
      in turn is fetched (`fetch` answers None for a failed request, which
      ends the lookup with None) and scanned line by line. */
  function ExpectedHash(assets: seq<Asset>, filename: string, fetch: string -> Option<string>): (h: Option<string>)
    ensures (forall i :: 0 <= i < |assets| ==> assets[i].name != ChecksumsAsset) ==> h.None?
  {
    if assets == [] then None
    else if assets[0].name != ChecksumsAsset then ExpectedHash(assets[1..], filename, fetch)
    else match fetch(assets[0].url)
      case None => None
      case Some(content) =>
        match LinesHit(SplitOn(content, '\n'), filename)
        case Token(h) => Some(h)
        case Raised => None
        case NoLine => ExpectedHash(assets[1..], filename, fetch)
  }

  /** A checksum asset the lookup passes over: it is fetched and no line
      of it names the file. */
  predicate PassesOver(a: Asset, filename: string, fetch: string -> Option<string>) {
    fetch(a.url).Some? && LinesHit(SplitOn(fetch(a.url).value, '\n'), filename).NoLine?
  }

  /** Every checksum asset before `i` is passed over. */
  predicate PassedBefore(assets: seq<Asset>, i: nat, filename: string, fetch: string -> Option<string>)
    requires i <= |assets|
  {
    forall j :: 0 <= j < i && assets[j].name == ChecksumsAsset ==> PassesOver(assets[j], filename, fetch)
  }

  /** A hash found comes from the first checksum asset that is not passed
      over: it was fetched and its scan hit that hash. */
  lemma {:induction false} ExpectedHashSource(assets: seq<Asset>, filename: string, fetch: string -> Option<string>)
    requires ExpectedHash(assets, filename, fetch).Some?
    ensures exists i :: (0 <= i < |assets| && assets[i].name == ChecksumsAsset
      && fetch(assets[i].url).Some?
      && LinesHit(SplitOn(fetch(assets[i].url).value, '\n'), filename)
         == Token(ExpectedHash(assets, filename, fetch).value)
      && PassedBefore(assets, i, filename, fetch))
  {
    var h := ExpectedHash(assets, filename, fetch);
    if assets[0].name != ChecksumsAsset
      || LinesHit(SplitOn(fetch(assets[0].url).value, '\n'), filename).NoLine? {
      ExpectedHashSource(assets[1..], filename, fetch);
      var i :| 0 <= i < |assets[1..]| && assets[1..][i].name == ChecksumsAsset
        && fetch(assets[1..][i].url).Some?
        && LinesHit(SplitOn(fetch(assets[1..][i].url).value, '\n'), filename) == Token(h.value)
        && PassedBefore(assets[1..], i, filename, fetch);
      assert assets[i + 1] == assets[1..][i];
      PassedBeforeCons(assets, i, filename, fetch);
    } else {
      assert PassedBefore(assets, 0, filename, fetch);
    }
  }

  lemma PassedBeforeCons(assets: seq<Asset>, i: nat, filename: string, fetch: string -> Option<string>)
    requires i < |assets| && PassedBefore(assets[1..], i, filename, fetch)
    requires assets[0].name != ChecksumsAsset || PassesOver(assets[0], filename, fetch)
    ensures PassedBefore(assets, i + 1, filename, fetch)
  {
    forall j | 0 < j < i + 1 && assets[j].name == ChecksumsAsset
      ensures PassesOver(assets[j], filename, fetch)
    {
      assert assets[j] == assets[1..][j - 1];
    }
  }

  lemma PassedBeforeTail(assets: seq<Asset>, i: nat, filename: string, fetch: string -> Option<string>)
    requires 0 < i <= |assets| && PassedBefore(assets, i, filename, fetch)
    ensures PassedBefore(assets[1..], i - 1, filename, fetch)
  {
    forall j | 0 <= j < i - 1 && assets[1..][j].name == ChecksumsAsset
      ensures PassesOver(assets[1..][j], filename, fetch)
    {
      assert assets[1..][j] == assets[j + 1];
    }
  }

  /** Checksum assets that are passed over do not change the lookup. */
  lemma {:induction false} ExpectedHashSkips(assets: seq<Asset>, i: nat, filename: string, fetch: string -> Option<string>)
    requires i <= |assets| && PassedBefore(assets, i, filename, fetch)
    ensures ExpectedHash(assets, filename, fetch) == ExpectedHash(assets[i..], filename, fetch)
    decreases i
  {
    if i > 0 {
      var rest := assets[1..];
      PassedBeforeTail(assets, i, filename, fetch);
      ExpectedHashSkips(rest, i - 1, filename, fetch);
      assert rest[i - 1..] == assets[i..];
    }
  }

  /** The first checksum asset that is not passed over decides: when it is
      fetched and its first line naming the file has a first token, that
      token is the expected hash. */
  lemma ExpectedHashFinds(assets: seq<Asset>, i: nat, filename: string, fetch: string -> Option<string>, t: string)
    requires i < |assets| && assets[i].name == ChecksumsAsset && PassedBefore(assets, i, filename, fetch)
    requires fetch(assets[i].url).Some?
    requires LinesHit(SplitOn(fetch(assets[i].url).value, '\n'), filename) == Token(t)
    ensures ExpectedHash(assets, filename, fetch) == Some(t)
  {
    ExpectedHashSkips(assets, i, filename, fetch);
    assert assets[i..][0] == assets[i];
  }

  /** When every checksum asset is fetched and none has a line naming the
      file (in particular, when there is none), there is no expected
      hash. */
  lemma ExpectedHashNoMatch(assets: seq<Asset>, filename: string, fetch: string -> Option<string>)
    requires PassedBefore(assets, |assets|, filename, fetch)
    ensures ExpectedHash(assets, filename, fetch).None?
  {
    ExpectedHashSkips(assets, |assets|, filename, fetch);
    assert assets[|assets|..] == [];
  }

  /** A checksum asset whose request fails, or whose first line naming the
      file has no token, ends the lookup with None when it is the first one
      not passed over. */
  lemma ExpectedHashStops(assets: seq<Asset>, i: nat, filename: string, fetch: string -> Option<string>)
    requires i < |assets| && assets[i].name == ChecksumsAsset && PassedBefore(assets, i, filename, fetch)
    requires fetch(assets[i].url).None? || LinesHit(SplitOn(fetch(assets[i].url).value, '\n'), filename).Raised?
    ensures ExpectedHash(assets, filename, fetch).None?
  {
    ExpectedHashSkips(assets, i, filename, fetch);
    assert assets[i..][0] == assets[i];
  }

  /** The loops of `get_expected_hash`. */
  method GetExpectedHash(filename: string, assets: seq<Asset>, fetch: string -> Option<string>)
    returns (h: Option<string>)
    ensures h == ExpectedHash(assets, filename, fetch)
  {
    for i := 0 to |assets|
      invariant ExpectedHash(assets, filename, fetch) == ExpectedHash(assets[i..], filename, fetch)
    {
      assert assets[i..][1..] == assets[i + 1..];
      if assets[i].name == ChecksumsAsset {
        var content := fetch(assets[i].url);
        if content.None? {
          return None;
        }
        var lines := SplitOn(content.value, '\n');
        for k := 0 to |lines|
          invariant LinesHit(lines, filename) == LinesHit(lines[k..], filename)
        {
          assert lines[k..][1..] == lines[k + 1..];
          if Contains(lines[k], filename) {
            var tokens := Split(lines[k]);
            if tokens == [] {
              return None;
            }
            return Some(tokens[0]);
          }
        }
        assert lines[|lines|..] == [];
      }
    }
    assert assets[|assets|..] == [];
    return None;
  }

  // ---------------------------------------------------------------------
  // `verify_download`

  datatype Verification = SizeMismatch | ZipInvalid | HashMismatch | HashVerified | AcceptedWithoutHash

  predicate Accepted(v: Verification) {
    v.HashVerified? || v.AcceptedWithoutHash?
  }

  /** `verify_download`: size first, then the zip test, then the hash when
      the release publishes one (an empty hash counts as none).
      `actualSize`, `zipOk` and `actualHash` are what the filesystem, the
      zip test and SHA-256 report for the downloaded file. */
  function VerifyDownload(actualSize: int, zipOk: bool, actualHash: string, asset: Asset,
                          release: seq<Asset>, fetch: string -> Option<string>): (v: Verification)
    ensures actualSize != asset.size ==> v == SizeMismatch
    ensures actualSize == asset.size && !zipOk ==> v == ZipInvalid
    ensures var expected := ExpectedHash(release, asset.name, fetch);
      && (v == HashMismatch <==>
            actualSize == asset.size && zipOk && expected.Some? && expected.value != [] && actualHash != expected.value)
      && (Accepted(v) <==>
            actualSize == asset.size && zipOk && (expected.None? || expected.value == [] || actualHash == expected.value))
      && (v == AcceptedWithoutHash ==> expected.None? || expected.value == [])
  {
    if actualSize != asset.size then SizeMismatch
    else if !zipOk then ZipInvalid
    else
      var expected := ExpectedHash(release, asset.name, fetch);
      if expected.Some? && expected.value != [] then
        if actualHash == expected.value then HashVerified else HashMismatch
      else AcceptedWithoutHash
  }
}
