/** The request pipeline of `OllamaManager` (src/ollama_manager.py): context
    compression, prompt-template choice, inference options, post-processing
    of the engine's answer, the mapping of failures to fixed replies, the
    emoji-to-tag rewriting of progress messages and the hardware defaults. */
module RequestPipeline {
  import opened Wrappers
  import opened Text

  // ---------------------------------------------------------------------
  // Context compression (`_compress_context`)

  const CompressThreshold := 2000
  const HeadLength := 1200
  const TailLength := 800
  const CompressMarker := "\n...[contenido intermedio]...\n"

  /** Context of at most 2000 characters (or none) passes through; longer
      context keeps its first 1200 and last 800 characters around a fixed
      30-character marker, whatever its length. */
  function CompressContext(context: Option<string>): (r: Option<string>)
    ensures context.None? || |context.value| <= CompressThreshold ==> r == context
    ensures context.Some? && |context.value| > CompressThreshold ==>
      && r.Some?
      && |r.value| == HeadLength + |CompressMarker| + TailLength == 2030
      && r.value[..HeadLength] == context.value[..HeadLength]
      && r.value[HeadLength..HeadLength + |CompressMarker|] == CompressMarker
      && r.value[HeadLength + |CompressMarker|..] == context.value[|context.value| - TailLength..]
  {
    match context
    case None => None
    case Some(c) =>
      if |c| <= CompressThreshold then context
      else Some(c[..HeadLength] + CompressMarker + c[|c| - TailLength..])
  }

  /** Compressed context is never longer than 2030 characters, and
      compressing it again changes nothing, because it is then longer than
      the threshold and its own head and tail are kept. */
  lemma CompressIdempotent(context: Option<string>)
    ensures CompressContext(context).Some? ==>
      |CompressContext(context).value| <= HeadLength + |CompressMarker| + TailLength
    ensures CompressContext(CompressContext(context)) == CompressContext(context)
  {
    if context.Some? && |context.value| > CompressThreshold {
      var c := CompressContext(context).value;
      var cc := CompressContext(Some(c)).value;
      assert cc[..HeadLength] == c[..HeadLength];
      assert cc[HeadLength..HeadLength + |CompressMarker|] == CompressMarker
          == c[HeadLength..HeadLength + |CompressMarker|];
      assert cc[HeadLength + |CompressMarker|..] == c[HeadLength + |CompressMarker|..];
      assert cc == cc[..HeadLength] + cc[HeadLength..HeadLength + |CompressMarker|]
                 + cc[HeadLength + |CompressMarker|..];
      assert c == c[..HeadLength] + c[HeadLength..HeadLength + |CompressMarker|]
                + c[HeadLength + |CompressMarker|..];
    }
  }

  // ---------------------------------------------------------------------
  // Prompt template choice (the two templates of `generate_response`)

  /** Which of the two templates is filled in; the template wording itself is
      not modelled. */
  datatype Prompt = DocumentPrompt(document: string, question: string) | QuestionPrompt(question: string)

  /** The document template is used exactly when the caller passed non-empty
      context, and it carries the compressed context. */
  function BuildPrompt(question: string, context: Option<string>): (p: Prompt)
    ensures p.question == question
    ensures p.DocumentPrompt? <==> context.Some? && context.value != []
    ensures p.DocumentPrompt? ==>
      Some(p.document) == CompressContext(context) && 0 < |p.document| <= 2030
  {
    if context.Some? && context.value != [] then
      var c := CompressContext(context);
      DocumentPrompt(c.value, question)
    else QuestionPrompt(question)
  }

  // ---------------------------------------------------------------------
  // Inference options and hardware defaults

  /** The options object sent with each generate request. The real-valued
      options are fixed constants (0.7, 0.9, 1.1). */
  datatype InferenceOptions = InferenceOptions(
    numCtx: int, numPredict: int, numThread: int,
    temperature: real, topP: real, topK: int, repeatPenalty: real,
    stop: seq<string>)

  /** Every option is a fixed constant except the thread count, which is the
      detected number of physical cores. */
  function OptimizedParameters(systemCores: int): (o: InferenceOptions)
    ensures o.numThread == systemCores
    ensures o.numCtx == 4096 && o.numPredict == 1500 && o.topK == 40
    ensures o.temperature == 0.7 && o.topP == 0.9 && o.repeatPenalty == 1.1
    ensures o.stop == ["###", "Fin del documento", "Respuesta completa"]
  {
    InferenceOptions(4096, 1500, systemCores, 0.7, 0.9, 40, 1.1,
                     ["###", "Fin del documento", "Respuesta completa"])
  }

  /** `_detect_cpu_cores`: the physical core count psutil reports (None when
      psutil fails or reports nothing), with 4 as the fallback. */
  function DetectCpuCores(physical: Option<int>): (cores: int)
    ensures cores >= 1
    ensures physical.Some? && physical.value >= 1 ==> cores == physical.value
    ensures !(physical.Some? && physical.value >= 1) ==> cores == 4
  {
    if physical.Some? && physical.value >= 1 then physical.value else 4
  }

  /** Python's `round(n / d)` for an exactly representable quotient: the
      nearest integer, ties going to the even neighbour. */
  function RoundHalfEven(n: int, d: int): (r: int)
    requires d > 0
    ensures -d <= 2 * (n - r * d) <= d
    ensures 2 * (n - r * d) == d || 2 * (n - r * d) == -d ==> r % 2 == 0
  {
    var q, m := n / d, n % d;
    assert n - q * d == m && n - (q + 1) * d == m - d;
    if 2 * m < d then q
    else if 2 * m > d then q + 1
    else if q % 2 == 0 then q else q + 1
  }

  const GiB := 1024 * 1024 * 1024

  /** `_detect_ram_gb`: total memory in bytes (None when psutil fails) rounded
      to whole GiB, ties to even; 8 when that fails or rounds below 1, which
      happens exactly up to half a GiB. */
  function DetectRamGb(totalBytes: Option<int>): (gb: int)
    ensures gb >= 1
    ensures totalBytes.None? ==> gb == 8
    ensures totalBytes.Some? && 2 * totalBytes.value <= GiB ==> gb == 8
    ensures totalBytes.Some? && 2 * totalBytes.value > GiB ==>
      var off := 2 * (totalBytes.value - gb * GiB);
      -GiB <= off <= GiB && (off == GiB || off == -GiB ==> gb % 2 == 0)
  {
    match totalBytes
    case None => 8
    case Some(t) => var r := RoundHalfEven(t, GiB); if r >= 1 then r else 8
  }

  // ---------------------------------------------------------------------
  // Response post-processing (`_ensure_complete_response`)

  const LookbackWords := 50
  /** The words of the note appended to a cut answer. */
  const NoteTail: seq<string> := ["[respuesta", "truncada", "por", "longitud]"]
  /** ` [respuesta truncada por longitud]`: a space, then the note's words. */
  const NoteWords := " " + Join(NoteTail)
  const TruncationNote := "..." + NoteWords

  /** A word the backward scan accepts as a cut point. */
  predicate EndsSentence(w: string) {
    |w| > 1 && (EndsWith(w, ".") || EndsWith(w, "?") || EndsWith(w, "!"))
  }

  /** `s.endswith(('.', '!', '?'))` */
  predicate EndsWithTerminal(s: string) {
    EndsWith(s, ".") || EndsWith(s, "!") || EndsWith(s, "?")
  }

  /** Python's `s[:n]`, negative `n` counting from the end. */
  function PrefixSlice<T>(s: seq<T>, n: int): (r: seq<T>)
    ensures |r| <= |s| && r == s[..|r|]
    ensures 0 <= n <= |s| ==> r == s[..n]
  {
    if n >= 0 then (if n <= |s| then s[..n] else s)
    else if |s| + n >= 0 then s[..|s| + n] else []
  }

  /** `max(0, len(truncated) - 50)`: the exclusive lower end of the scan. */
  function ScanFloor(len: int): int {
    if len - LookbackWords > 0 then len - LookbackWords else 0
  }

  /** The scan from index `i` down to just above ScanFloor. */
  function ScanDown(t: seq<string>, i: int): (r: int)
    requires -1 <= i < |t|
    ensures -1 <= r <= i
    ensures r >= 0 ==> ScanFloor(|t|) < r && EndsSentence(t[r])
    ensures r >= 0 ==> forall j :: r < j <= i ==> !EndsSentence(t[j])
    ensures r == -1 ==> forall j :: ScanFloor(|t|) < j <= i ==> !EndsSentence(t[j])
    decreases i + 1
  {
    if i <= ScanFloor(|t|) then -1
    else if EndsSentence(t[i]) then i
    else ScanDown(t, i - 1)
  }

  /** The cut point of the truncated words `t`: the last index above
      ScanFloor holding a sentence end, or -1. Index 0 is never a cut point. */
  function CutPoint(t: seq<string>): (i: int)
    ensures -1 <= i < |t| && i != 0
    ensures i >= 0 ==> ScanFloor(|t|) < i && EndsSentence(t[i])
    ensures i >= 0 ==> forall j :: i < j < |t| ==> !EndsSentence(t[j])
    ensures i == -1 ==> forall j :: ScanFloor(|t|) < j < |t| ==> !EndsSentence(t[j])
  {
    ScanDown(t, |t| - 1)
  }

  /** What `_ensure_complete_response(text, max_words)` returns. */
  function CompleteResponse(text: string, maxWords: int): string {
    var words := Split(text);
    if text == [] || |words| <= maxWords then text
    else
      var t := PrefixSlice(words, maxWords);
      var cut := CutPoint(t);
      if cut >= 0 then Join(t[..cut + 1])
      else if EndsWithTerminal(Join(t)) then Join(t)
      else Join(t) + TruncationNote
  }

  /** The post-processing step with its backward scan, as the source runs it. */
  method EnsureCompleteResponse(text: string, maxWords: int) returns (r: string)
    ensures r == CompleteResponse(text, maxWords)
  {
    if text == [] {
      return text;
    }
    var words := Split(text);
    if |words| <= maxWords {
      return text;
    }
    var truncated := PrefixSlice(words, maxWords);
    var lastSentenceEnd := -1;
    var floor := ScanFloor(|truncated|);
    var i := |truncated| - 1;
    while i > floor
      invariant -1 <= i < |truncated|
      invariant forall j :: i < j < |truncated| ==> !EndsSentence(truncated[j])
    {
      if EndsSentence(truncated[i]) {
        lastSentenceEnd := i;
        break;
      }
      i := i - 1;
    }
    assert lastSentenceEnd == CutPoint(truncated);
    if lastSentenceEnd != -1 {
      r := Join(truncated[..lastSentenceEnd + 1]);
    } else {
      r := Join(truncated);
      if !EndsWithTerminal(r) {
        r := r + TruncationNote;
      }
    }
  }

  lemma JoinEndsWithLast(ws: seq<string>)
    requires ws != []
    ensures EndsWith(Join(ws), ws[|ws| - 1])
  {
    if |ws| > 1 {
      JoinEndsWithLast(ws[1..]);
    }
  }

  lemma EndsWithTrans(s: string, w: string, p: string)
    requires EndsWith(s, w) && EndsWith(w, p)
    ensures EndsWith(s, p)
  {
    assert s[|s| - |p|..] == w[|w| - |p|..];
  }

  /** Text that is empty or within the word limit comes back unchanged. */
  lemma ResponseUnchangedWithinLimit(text: string, maxWords: int)
    requires text == [] || |Split(text)| <= maxWords
    ensures CompleteResponse(text, maxWords) == text
  {
  }

  /** Over the limit, with a cut point: the answer is the first words up to
      and including that sentence end, re-joined by single spaces, so it has
      at most `maxWords` words and ends in `.`, `?` or `!`. */
  lemma ResponseCutAtSentence(text: string, maxWords: int)
    requires text != [] && |Split(text)| > maxWords >= 0
    requires CutPoint(Split(text)[..maxWords]) >= 0
    ensures var cut := CutPoint(Split(text)[..maxWords]);
      && Split(CompleteResponse(text, maxWords)) == Split(text)[..cut + 1]
      && |Split(CompleteResponse(text, maxWords))| <= maxWords
      && EndsWithTerminal(CompleteResponse(text, maxWords))
  {
    var t := Split(text)[..maxWords];
    var cut := CutPoint(t);
    var kept := t[..cut + 1];
    assert PrefixSlice(Split(text), maxWords) == t;
    assert CompleteResponse(text, maxWords) == Join(kept);
    SplitJoin(kept);
    assert kept == Split(text)[..cut + 1];
    JoinEndsWithLast(kept);
    var w := kept[|kept| - 1];
    assert EndsSentence(w);
    if EndsWith(w, ".") {
      EndsWithTrans(Join(kept), w, ".");
    } else if EndsWith(w, "?") {
      EndsWithTrans(Join(kept), w, "?");
    } else {
      EndsWithTrans(Join(kept), w, "!");
    }
  }

  lemma {:induction false} JoinExtendLast(ws: seq<string>, x: string)
    requires ws != []
    ensures Join(ws[..|ws| - 1] + [ws[|ws| - 1] + x]) == Join(ws) + x
  {
    var n := |ws|;
    var init, last := ws[..n - 1], ws[n - 1];
    if n == 1 {
      assert init + [last + x] == [last + x];
      assert ws == [last];
    } else {
      JoinAppend(init, last + x);
      JoinAppend(init, last);
      assert init + [last] == ws;
    }
  }

  lemma NoteTailWords()
    ensures AllWords(NoteTail)
  {
    assert IsWord("[respuesta");
    assert IsWord("truncada");
    assert IsWord("por");
    assert IsWord("longitud]");
  }

  lemma JoinNoteTail(g: seq<string>)
    requires g != []
    ensures Join(g + NoteTail) == Join(g) + NoteWords
  {
    JoinConcat(g, NoteTail);
    AppendAssoc(Join(g), " ", Join(NoteTail));
  }

  lemma WordWithDots(w: string)
    requires IsWord(w)
    ensures IsWord(w + "...")
  {
    var d := w + "...";
    assert forall i :: 0 <= i < |w| ==> d[i] == w[i];
    assert forall i :: |w| <= i < |d| ==> d[i] == '.';
  }

  /** The note's first token glues onto the last kept word; the other four
      note tokens become words of their own. */
  lemma {:induction false} NoteAsWords(t: seq<string>)
    requires AllWords(t) && t != []
    ensures var g := t[..|t| - 1] + [t[|t| - 1] + "..."];
      && AllWords(g + NoteTail)
      && Join(g + NoteTail) == Join(t) + TruncationNote
  {
    var n := |t|;
    var g := t[..n - 1] + [t[n - 1] + "..."];
    JoinExtendLast(t, "...");
    JoinNoteTail(g);
    AppendAssoc(Join(t), "...", NoteWords);
    DottedWords(t);
  }

  lemma DottedWords(t: seq<string>)
    requires AllWords(t) && t != []
    ensures AllWords(t[..|t| - 1] + [t[|t| - 1] + "..."] + NoteTail)
  {
    var n := |t|;
    var last := t[n - 1] + "...";
    WordWithDots(t[n - 1]);
    NoteTailWords();
    AllWordsConcat(t[..n - 1], [last]);
    AllWordsConcat(t[..n - 1] + [last], NoteTail);
  }

  lemma AllWordsConcat(a: seq<string>, b: seq<string>)
    requires AllWords(a) && AllWords(b)
    ensures AllWords(a + b)
  {
    assert forall i :: 0 <= i < |a| ==> (a + b)[i] == a[i];
    assert forall i :: |a| <= i < |a + b| ==> (a + b)[i] == b[i - |a|];
  }

  /** Over the limit, without a cut point and without closing punctuation:
      the note is appended to the `maxWords` kept words, and the answer has
      exactly `maxWords + 4` words (the note's first token glues onto the
      last kept word). */
  lemma ResponseTruncationNote(text: string, maxWords: int)
    requires text != [] && |Split(text)| > maxWords >= 1
    requires CutPoint(Split(text)[..maxWords]) == -1
    requires !EndsWithTerminal(Join(Split(text)[..maxWords]))
    ensures CompleteResponse(text, maxWords) == Join(Split(text)[..maxWords]) + TruncationNote
    ensures EndsWith(CompleteResponse(text, maxWords), TruncationNote)
    ensures |Split(CompleteResponse(text, maxWords))| == maxWords + 4
  {
    var t := Split(text)[..maxWords];
    assert PrefixSlice(Split(text), maxWords) == t;
    assert AllWords(t);
    NoteAsWords(t);
    var g := t[..|t| - 1] + [t[|t| - 1] + "..."];
    SplitJoin(g + NoteTail);
  }

  /** Post-processing never turns non-empty text into the empty string. */
  lemma ResponseNonEmpty(text: string, maxWords: int)
    requires text != []
    ensures CompleteResponse(text, maxWords) != []
  {
    var words := Split(text);
    if |words| > maxWords {
      var t := PrefixSlice(words, maxWords);
      var cut := CutPoint(t);
      if cut >= 0 {
        JoinNonEmpty(t[..cut + 1]);
      }
    }
  }

  // ---------------------------------------------------------------------
  // Failure mapping of `generate_response`

  /** How the generate request ended, as the exception handlers see it:
      an answer, a timeout, a connection error, or any other failure
      (including an HTTP error status) with its message. */
  datatype GenerateOutcome = Answered(text: string) | TimedOut | ConnectionFailed | OtherFailure(detail: string)

  const ResponseWordLimit := 600
  const UnavailableReply := "Error: El servidor AI no está disponible. Por favor reinicia la aplicación."
  const EmptyReply := "No se pudo generar una respuesta útil. ¿Podrías reformular tu pregunta?"
  const TimeoutReply := "La respuesta está tomando más tiempo de lo esperado. Intenta con una pregunta más específica."
  const ConnectionReply := "Error de conexión con el servidor AI. Verifica que Ollama esté ejecutándose."
  const OtherFailurePrefix := "Error temporal: "

  /** The reply for a generate request that was sent: the post-processed
      answer, or one fixed message per failure kind. It is never empty. */
  function ReplyFor(outcome: GenerateOutcome): (r: string)
    ensures r != []
    ensures outcome.Answered? && Strip(outcome.text) == [] ==> r == EmptyReply
    ensures outcome.Answered? && Strip(outcome.text) != [] ==>
      r == CompleteResponse(Strip(outcome.text), ResponseWordLimit)
    ensures outcome.TimedOut? ==> r == TimeoutReply
    ensures outcome.ConnectionFailed? ==> r == ConnectionReply
    ensures outcome.OtherFailure? ==> r == OtherFailurePrefix + outcome.detail
  {
    match outcome
    case Answered(t) =>
      var s := Strip(t);
      if s == [] then EmptyReply
      else ResponseNonEmpty(s, ResponseWordLimit); CompleteResponse(s, ResponseWordLimit)
    case TimedOut => TimeoutReply
    case ConnectionFailed => ConnectionReply
    case OtherFailure(d) => OtherFailurePrefix + d
  }

  // ---------------------------------------------------------------------
  // Progress messages (`update_progress`)

  /** The replacement table, in the dictionary's insertion order. The warning
      sign is two code points (U+26A0 U+FE0F); the others are one. */
  const EmojiTags: seq<(string, string)> := [
    ("\U{1F527}", "[CONFIG]"), ("\U{1F680}", "[INICIANDO]"), ("\U{1F4E5}", "[DESCARGANDO]"),
    ("\U{2705}", "[OK]"), ("\U{274C}", "[ERROR]"), ("\U{26A0}\U{FE0F}", "[ADVERTENCIA]"),
    ("\U{1F50D}", "[VERIFICANDO]"), ("\U{1F3B2}", "[DICESENSEI]"), ("\U{1F916}", "[AI]")
  ]

  predicate ValidTable(table: seq<(string, string)>) {
    forall i :: 0 <= i < |table| ==> table[i].0 != []
  }

  /** The message after applying each replacement of `table` in order. */
  function RewriteEmojis(message: string, table: seq<(string, string)>): string
    requires ValidTable(table)
    decreases |table|
  {
    if table == [] then message
    else RewriteEmojis(ReplaceAll(message, table[0].0, table[0].1), table[1..])
  }

  /** With a callback, the message handed to it has every emoji of the table
      rewritten, in table order; without one, nothing is delivered. */
  method UpdateProgress(hasCallback: bool, message: string) returns (delivered: Option<string>)
    ensures !hasCallback ==> delivered == None
    ensures hasCallback ==> delivered == Some(RewriteEmojis(message, EmojiTags))
  {
    if !hasCallback {
      return None;
    }
    var clean := message;
    assert ValidTable(EmojiTags);
    for k := 0 to |EmojiTags|
      invariant RewriteEmojis(clean, EmojiTags[k..]) == RewriteEmojis(message, EmojiTags)
    {
      assert EmojiTags[k..][1..] == EmojiTags[k + 1..];
      clean := ReplaceAll(clean, EmojiTags[k].0, EmojiTags[k].1);
    }
    assert EmojiTags[|EmojiTags|..] == [];
    delivered := Some(clean);
  }

  predicate Ascii(s: string) {
    forall i :: 0 <= i < |s| ==> s[i] < '\U{0080}'
  }

  /** The shape of a replacement table the no-survivor property needs: keys
      of one or two non-ASCII code points, non-empty ASCII tags. */
  predicate TagTable(table: seq<(string, string)>) {
    forall k :: 0 <= k < |table| ==> TagEntry(table[k])
  }

  predicate TagEntry(e: (string, string)) {
    && 1 <= |e.0| <= 2
    && (forall i :: 0 <= i < |e.0| ==> e.0[i] >= '\U{0080}')
    && e.1 != [] && Ascii(e.1)
  }

  lemma EmojiTagsShape()
    ensures ValidTable(EmojiTags) && TagTable(EmojiTags)
  {
    EmojiTagsHead();
    EmojiTagsMiddle();
    EmojiTagsLast();
  }

  lemma EmojiTagsHead()
    ensures TagEntry(EmojiTags[0]) && TagEntry(EmojiTags[1]) && TagEntry(EmojiTags[2])
  {
    assert Ascii("[CONFIG]") && Ascii("[INICIANDO]") && Ascii("[DESCARGANDO]");
  }

  lemma EmojiTagsMiddle()
    ensures TagEntry(EmojiTags[3]) && TagEntry(EmojiTags[4]) && TagEntry(EmojiTags[5])
  {
    assert Ascii("[OK]") && Ascii("[ERROR]") && Ascii("[ADVERTENCIA]");
  }

  lemma EmojiTagsLast()
    ensures TagEntry(EmojiTags[6]) && TagEntry(EmojiTags[7]) && TagEntry(EmojiTags[8])
  {
    assert Ascii("[VERIFICANDO]") && Ascii("[DICESENSEI]") && Ascii("[AI]");
  }

  lemma {:induction false} RewriteKeepsOut(s: string, table: seq<(string, string)>, q: string)
    requires ValidTable(table) && TagTable(table)
    requires 1 <= |q| <= 2 && forall i :: 0 <= i < |q| ==> q[i] >= '\U{0080}'
    requires !Contains(s, q)
    ensures !Contains(RewriteEmojis(s, table), q)
    decreases |table|
  {
    if table != [] {
      ReplaceKeepsOut(s, table[0].0, table[0].1, q);
      RewriteKeepsOut(ReplaceAll(s, table[0].0, table[0].1), table[1..], q);
    }
  }

  lemma {:induction false} RewriteRemoves(s: string, table: seq<(string, string)>, k: nat)
    requires ValidTable(table) && TagTable(table)
    requires k < |table|
    ensures !Contains(RewriteEmojis(s, table), table[k].0)
    decreases k
  {
    var p, r := table[0].0, table[0].1;
    var s' := ReplaceAll(s, p, r);
    if k == 0 {
      ReplaceKeepsOut(s, p, r, p);
      RewriteKeepsOut(s', table[1..], p);
    } else {
      assert table[1..][k - 1] == table[k];
      RewriteRemoves(s', table[1..], k - 1);
    }
  }

  /** No emoji of the table survives in a delivered progress message. */
  lemma NoEmojiSurvives(message: string)
    ensures ValidTable(EmojiTags)
    ensures forall k :: 0 <= k < |EmojiTags| ==>
      !Contains(RewriteEmojis(message, EmojiTags), EmojiTags[k].0)
  {
    EmojiTagsShape();
    forall k | 0 <= k < |EmojiTags|
      ensures !Contains(RewriteEmojis(message, EmojiTags), EmojiTags[k].0)
    {
      RewriteRemoves(message, EmojiTags, k);
    }
  }
}
