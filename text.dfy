/** The handful of Python string operations the modelled code relies on:
    `str.split()`, `str.split(sep)`, `' '.join`, `str.strip()`, `in`,
    `startswith`/`endswith`, ASCII `lower()` and `str.replace`. */
module Text {

  /** Python's `str.isspace()` for one code point: the characters
      `str.split()` and `str.strip()` treat as whitespace. */
  predicate IsSpace(c: char) {
    || c == ' '
    || ('\U{0009}' <= c <= '\U{000D}')
    || ('\U{001C}' <= c <= '\U{001F}')
    || c == '\U{0085}' || c == '\U{00A0}' || c == '\U{1680}'
    || ('\U{2000}' <= c <= '\U{200A}')
    || c == '\U{2028}' || c == '\U{2029}' || c == '\U{202F}'
    || c == '\U{205F}' || c == '\U{3000}'
  }

  /** A token of `str.split()`: non-empty and free of whitespace. */
  predicate IsWord(w: string) {
    w != [] && forall i :: 0 <= i < |w| ==> !IsSpace(w[i])
  }

  predicate AllWords(ws: seq<string>) {
    forall i :: 0 <= i < |ws| ==> IsWord(ws[i])
  }

  /** Length of the run of non-whitespace characters at the start of `s`. */
  function WordEnd(s: string): (n: nat)
    ensures n <= |s|
    ensures forall i :: 0 <= i < n ==> !IsSpace(s[i])
    ensures n < |s| ==> IsSpace(s[n])
  {
    if s == [] || IsSpace(s[0]) then 0 else 1 + WordEnd(s[1..])
  }

  /** Python's `s.split()`: the maximal whitespace-free runs of `s`, in order. */
  function Split(s: string): (ws: seq<string>)
    ensures AllWords(ws)
    ensures |ws| <= |s|
    decreases |s|
  {
    if s == [] then []
    else if IsSpace(s[0]) then Split(s[1..])
    else
      var n := WordEnd(s);
      [s[..n]] + Split(s[n..])
  }

  lemma AppendAssoc<T>(a: seq<T>, b: seq<T>, c: seq<T>)
    ensures (a + b) + c == a + (b + c)
  {
  }

  /** Python's `' '.join(ws)`. */
  function Join(ws: seq<string>): string {
    if ws == [] then ""
    else if |ws| == 1 then ws[0]
    else ws[0] + " " + Join(ws[1..])
  }

  lemma {:induction false} WordEndOfWord(w: string, rest: string)
    requires IsWord(w)
    requires rest == [] || IsSpace(rest[0])
    ensures WordEnd(w + rest) == |w|
  {
    var s := w + rest;
    assert s[0] == w[0];
    if |w| == 1 {
      assert s[1..] == rest;
    } else {
      assert s[1..] == w[1..] + rest;
      WordEndOfWord(w[1..], rest);
    }
  }

  /** Splitting words joined by single spaces gives the words back. */
  lemma {:induction false} SplitJoin(ws: seq<string>)
    requires AllWords(ws)
    ensures Split(Join(ws)) == ws
  {
    if ws == [] {
    } else if |ws| == 1 {
      var w := ws[0];
      WordEndOfWord(w, "");
      assert w + "" == w;
      assert w[..|w|] == w && w[|w|..] == "";
    } else {
      SplitCons(ws[0], Join(ws[1..]));
      SplitJoin(ws[1..]);
      HeadTail(ws);
    }
  }

  /** A word followed by one space splits off as the first token. */
  lemma SplitCons(w: string, j: string)
    requires IsWord(w)
    ensures Split(w + " " + j) == [w] + Split(j)
  {
    var s := w + " " + j;
    AppendAssoc(w, " ", j);
    WordEndOfWord(w, " " + j);
    assert s[..|w|] == w;
    assert s[|w|..] == " " + j;
    assert (" " + j)[1..] == j;
  }

  lemma HeadTail<T>(s: seq<T>)
    requires s != []
    ensures s == [s[0]] + s[1..]
  {
  }

  /** A word followed by two spaces and single-space-joined words splits into
      the word and then those words. */
  lemma SplitWordTwoSpacesJoin(w: string, ws: seq<string>)
    requires IsWord(w) && AllWords(ws)
    ensures Split(w + "  " + Join(ws)) == [w] + ws
  {
    var j := Join(ws);
    var s := w + "  " + j;
    assert s == w + ("  " + j);
    WordEndOfWord(w, "  " + j);
    assert s[..|w|] == w;
    assert s[|w|..] == "  " + j;
    assert ("  " + j)[1..] == " " + j;
    assert (" " + j)[1..] == j;
    assert Split("  " + j) == Split(" " + j) == Split(j);
    SplitJoin(ws);
  }

  lemma JoinAppend(ws: seq<string>, w: string)
    requires ws != []
    ensures Join(ws + [w]) == Join(ws) + " " + w
  {
    JoinConcat(ws, [w]);
  }

  lemma ConcatTail<T>(a: seq<T>, b: seq<T>)
    requires a != []
    ensures (a + b)[0] == a[0] && (a + b)[1..] == a[1..] + b
  {
  }

  /** Joining two non-empty lists puts one space between their joins. */
  lemma {:induction false} JoinConcat(a: seq<string>, b: seq<string>)
    requires a != [] && b != []
    ensures Join(a + b) == Join(a) + " " + Join(b)
    decreases |a|
  {
    ConcatTail(a, b);
    if |a| > 1 {
      var x, y := Join(a[1..]), Join(b);
      JoinConcat(a[1..], b);
      assert Join(a + b) == a[0] + " " + (x + " " + y);
      assert Join(a) == a[0] + " " + x;
      AppendAssoc(a[0] + " ", x + " ", y);
      AppendAssoc(a[0] + " ", x, " ");
    }
  }

  lemma JoinNonEmpty(ws: seq<string>)
    requires AllWords(ws) && ws != []
    ensures Join(ws) != [] && !IsSpace(Join(ws)[0]) && !IsSpace(Join(ws)[|Join(ws)| - 1])
  {
    if |ws| > 1 {
      JoinNonEmpty(ws[1..]);
      var j := Join(ws[1..]);
      assert Join(ws) == ws[0] + " " + j;
      assert Join(ws)[|Join(ws)| - 1] == j[|j| - 1];
    }
  }

  /** `str.lstrip()`/`str.rstrip()`/`str.strip()` without arguments. */
  function TrimStart(s: string): (r: string)
    ensures |r| <= |s| && r == s[|s| - |r|..]
    ensures r == [] || !IsSpace(r[0])
  {
    if s != [] && IsSpace(s[0]) then TrimStart(s[1..]) else s
  }

  function TrimEnd(s: string): (r: string)
    ensures |r| <= |s| && r == s[..|r|]
    ensures r == [] || !IsSpace(r[|r| - 1])
  {
    if s != [] && IsSpace(s[|s| - 1]) then TrimEnd(s[..|s| - 1]) else s
  }

  function Strip(s: string): (r: string)
    ensures r == [] || (!IsSpace(r[0]) && !IsSpace(r[|r| - 1]))
  {
    TrimEnd(TrimStart(s))
  }

  lemma StripUnpadded(s: string)
    requires s != [] && !IsSpace(s[0]) && !IsSpace(s[|s| - 1])
    ensures Strip(s) == s
  {
  }

  /** Stripping a line that is unpadded but for its newline removes just
      the newline. */
  lemma StripNewline(s: string)
    requires s != [] && !IsSpace(s[0]) && !IsSpace(s[|s| - 1])
    ensures Strip(s + "\n") == s
  {
    var t := s + "\n";
    assert TrimStart(t) == t by {
      assert t[0] == s[0];
    }
    assert TrimEnd(t) == TrimEnd(s) by {
      assert IsSpace(t[|t| - 1]) && t[..|t| - 1] == s;
    }
    assert TrimEnd(s) == s;
  }

  /** Words joined by spaces hold no newline. */
  lemma {:induction false} JoinNoNewline(ws: seq<string>)
    requires AllWords(ws)
    ensures '\n' !in Join(ws)
  {
    if |ws| > 1 {
      JoinNoNewline(ws[1..]);
    }
  }

  /** `s.startswith(p)`, `s.endswith(p)` and `p in s`. */
  predicate StartsWith(s: string, p: string) {
    |p| <= |s| && s[..|p|] == p
  }

  predicate EndsWith(s: string, p: string) {
    |p| <= |s| && s[|s| - |p|..] == p
  }

  predicate Contains(s: string, p: string)
    decreases |s|
  {
    StartsWith(s, p) || (s != [] && Contains(s[1..], p))
  }

  /** Position of the first `sep` in `s`, or `|s|` when there is none. */
  function IndexOf(s: string, sep: char): (i: nat)
    ensures i <= |s|
    ensures i < |s| ==> s[i] == sep
    ensures forall j :: 0 <= j < i ==> s[j] != sep
  {
    if s == [] then 0 else if s[0] == sep then 0 else 1 + IndexOf(s[1..], sep)
  }

  /** Python's `s.split(sep)` for a one-character separator. */
  function SplitOn(s: string, sep: char): (parts: seq<string>)
    ensures |parts| >= 1
    ensures forall i :: 0 <= i < |parts| ==> sep !in parts[i]
    decreases |s|
  {
    var i := IndexOf(s, sep);
    if i == |s| then [s] else [s[..i]] + SplitOn(s[i + 1..], sep)
  }

  /** `sep.join(parts)` for a one-character separator. */
  function JoinOn(parts: seq<string>, sep: char): string {
    if parts == [] then ""
    else if |parts| == 1 then parts[0]
    else parts[0] + [sep] + JoinOn(parts[1..], sep)
  }

  /** `s.split(sep)` loses nothing: joining the parts restores `s`. */
  lemma {:induction false} JoinSplitOn(s: string, sep: char)
    ensures JoinOn(SplitOn(s, sep), sep) == s
    decreases |s|
  {
    var i := IndexOf(s, sep);
    if i < |s| {
      var rest := SplitOn(s[i + 1..], sep);
      JoinSplitOn(s[i + 1..], sep);
      assert SplitOn(s, sep) == [s[..i]] + rest;
      JoinOnCons(s[..i], rest, sep);
      assert s == s[..i] + [sep] + s[i + 1..];
    }
  }

  lemma JoinOnCons(x: string, rest: seq<string>, sep: char)
    requires rest != []
    ensures JoinOn([x] + rest, sep) == x + [sep] + JoinOn(rest, sep)
  {
    ConsTail(x, rest);
  }

  lemma ConsTail<T>(x: T, r: seq<T>)
    ensures |[x] + r| == 1 + |r| && ([x] + r)[0] == x && ([x] + r)[1..] == r
  {
  }

  /** Splitting a text made of `sep`-free parts gives those parts back. */
  lemma {:induction false} SplitOnJoin(parts: seq<string>, sep: char)
    requires parts != []
    requires forall i :: 0 <= i < |parts| ==> sep !in parts[i]
    ensures SplitOn(JoinOn(parts, sep), sep) == parts
  {
    var p := parts[0];
    if |parts| == 1 {
      assert IndexOf(p, sep) == |p|;
    } else {
      var rest := JoinOn(parts[1..], sep);
      var s := p + [sep] + rest;
      assert forall k :: 0 <= k < |p| ==> s[k] == p[k] && s[k] != sep;
      assert s[|p|] == sep;
      assert IndexOf(s, sep) == |p|;
      assert s[..|p|] == p;
      assert s[|p| + 1..] == rest;
      SplitOnJoin(parts[1..], sep);
      assert parts == [p] + parts[1..];
    }
  }

  /** ASCII case folding: the part of Python's `str.lower()` the modelled
      comparisons depend on. */
  function LowerChar(c: char): char {
    if 'A' <= c <= 'Z' then (c as int + 32) as char else c
  }

  function Lower(s: string): (r: string)
    ensures |r| == |s|
    ensures forall i :: 0 <= i < |s| ==> r[i] == LowerChar(s[i])
  {
    seq(|s|, i requires 0 <= i < |s| => LowerChar(s[i]))
  }

  /** Python's `s.replace(pat, rep)`: every non-overlapping occurrence of
      `pat`, scanning left to right, replaced by `rep`. */
  function ReplaceAll(s: string, pat: string, rep: string): string
    requires pat != []
    decreases |s|
  {
    if s == [] then []
    else if StartsWith(s, pat) then rep + ReplaceAll(s[|pat|..], pat, rep)
    else [s[0]] + ReplaceAll(s[1..], pat, rep)
  }

  lemma {:induction false} ContainsSuffix(s: string, k: nat, q: string)
    requires k <= |s|
    requires Contains(s[k..], q)
    ensures Contains(s, q)
    decreases k
  {
    if k > 0 {
      assert s[1..][k - 1..] == s[k..];
      ContainsSuffix(s[1..], k - 1, q);
    }
  }

  /** An occurrence of `q` in `x + y` lies within `y` when `x` lacks `q`'s
      first character. */
  lemma {:induction false} ContainsAfterFreePrefix(x: string, y: string, q: string)
    requires q != [] && q[0] !in x
    requires !Contains(y, q)
    ensures !Contains(x + y, q)
    decreases |x|
  {
    if x != [] {
      assert (x + y)[1..] == x[1..] + y;
      ContainsAfterFreePrefix(x[1..], y, q);
    } else {
      assert x + y == y;
    }
  }

  lemma ReplaceHead(s: string, pat: string, rep: string)
    requires pat != [] && rep != [] && s != []
    ensures ReplaceAll(s, pat, rep) != []
    ensures StartsWith(s, pat) ==> ReplaceAll(s, pat, rep)[0] == rep[0]
    ensures !StartsWith(s, pat) ==> ReplaceAll(s, pat, rep)[0] == s[0]
  {
  }

  /** Replacing `pat` by `rep` never creates an occurrence of a one- or
      two-character `q` none of whose characters appear in `rep`, and leaves
      none behind when `q` is `pat` itself. */
  lemma {:induction false} ReplaceKeepsOut(s: string, pat: string, rep: string, q: string)
    requires pat != [] && rep != []
    requires 1 <= |q| <= 2
    requires forall i :: 0 <= i < |q| ==> q[i] !in rep
    requires pat == q || !Contains(s, q)
    ensures !Contains(ReplaceAll(s, pat, rep), q)
    decreases |s|
  {
    if s == [] {
    } else if StartsWith(s, pat) {
      if pat != q {
        if Contains(s[|pat|..], q) {
          ContainsSuffix(s, |pat|, q);
        }
      }
      ReplaceKeepsOut(s[|pat|..], pat, rep, q);
      ContainsAfterFreePrefix(rep, ReplaceAll(s[|pat|..], pat, rep), q);
    } else {
      ReplaceKeepsOut(s[1..], pat, rep, q);
      var y := ReplaceAll(s[1..], pat, rep);
      assert ([s[0]] + y)[1..] == y;
      if |s| > 1 {
        ReplaceHead(s[1..], pat, rep);
      }
      assert !StartsWith([s[0]] + y, q);
    }
  }
}
