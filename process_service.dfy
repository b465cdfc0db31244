/**
 * The PDF pipeline's decision logic (process.service.ts): text extraction
 * with its fallback and backoff, the AI call with bounded retry, the strict
 * score format, cleaning of the parser's output, the two workers and the
 * keyed upsert of a submission.
 *
 * Every external call is an oracle argument: `pdfParse(k)`, `pdftotext(k)`
 * and `ai(k)` are what the library, the subprocess and the AI service give
 * on their k-th call; `jsonParse` is what `JSON.parse` gives.
 */
module ProcessService {
  import opened Wrappers
  import opened Errors
  import opened Text
  import opened ExamModel

  // ================================================================ warnings and uploads

  /**
   * Whether the patched `console.warn` passes a diagnostic on: one whose
   * first argument mentions "FormatError" or "Indexing all PDF objects" is
   * swallowed.
   */
  predicate ForwardsWarning(firstArgument: string) {
    !Contains(firstArgument, "FormatError") && !Contains(firstArgument, "Indexing all PDF objects")
  }

  /** Whatever surrounds the two noisy markers, the diagnostic is swallowed. */
  lemma {:induction false} NoisyWarningsSwallowed(pre: string, post: string)
    ensures !ForwardsWarning(pre + "FormatError" + post)
    ensures !ForwardsWarning(pre + "Indexing all PDF objects" + post)
  {
    ContainsInfix(pre, "FormatError", post);
    ContainsInfix(pre, "Indexing all PDF objects", post);
  }

  datatype UploadedFile = UploadedFile(originalName: string, mimetype: string)

  /** An upload is accepted only when present and declared as a PDF. */
  function ValidateFile(file: Option<UploadedFile>): (r: Result<(), Failure>)
    ensures r.Ok? <==> file.Some? && file.value.mimetype == "application/pdf"
    ensures file.None? ==> r == Err(BadRequest("No file provided"))
    ensures file.Some? && r.Err? ==> r == Err(BadRequest("Invalid file type \U{2013} PDF only"))
  {
    if file.None? then Err(BadRequest("No file provided"))
    else if file.value.mimetype != "application/pdf" then Err(BadRequest("Invalid file type \U{2013} PDF only"))
    else Ok(())
  }

  // ================================================================ text extraction

  /** What one extraction attempt gives: some text, or an error that the loop logs and swallows. */
  datatype Attempt = Extracted(text: string) | AttemptFailed(message: string)

  /** An attempt ends the search when it yields text that is not blank. */
  predicate Usable(a: Attempt) {
    a.Extracted? && Trim(a.text) != []
  }

  /** The tools the extractor may use, as oracles. */
  datatype PdfTools = PdfTools(
    pdfParse: nat -> Attempt,   // the k-th call of the in-process library
    present: bool,              // `which pdftotext` succeeds at first
    presentAfterInstall: bool,  // it succeeds after the apt-get install
    pdftotext: nat -> Attempt)  // the k-th run of the subprocess

  /** The first attempt number in [k, 3] whose outcome is usable, or 4 when there is none. */
  function FirstUsable(source: nat -> Attempt, k: nat): (r: nat)
    requires 1 <= k <= 4
    ensures k <= r <= 4
    ensures r <= 3 ==> Usable(source(r))
    ensures forall j :: k <= j < r ==> !Usable(source(j))
    decreases 4 - k
  {
    if k == 4 then 4 else if Usable(source(k)) then k else FirstUsable(source, k + 1)
  }

  /** Linear backoff: the delays `unit * 1, …, unit * n`. */
  function Backoff(unit: nat, n: nat): (r: seq<nat>)
    ensures |r| == n && forall i :: 0 <= i < n ==> r[i] == unit * (i + 1)
  {
    if n == 0 then [] else Backoff(unit, n - 1) + [unit * n]
  }

  /** `ensurePdftotext`: the tool must be found, if need be after one install; otherwise a fatal error. */
  function EnsurePdftotext(tools: PdfTools): (r: Result<(), Failure>)
    ensures r.Ok? <==> tools.present || tools.presentAfterInstall
    ensures r.Err? ==> r.error == InternalServerError("pdftotext command not found. Install the \"poppler-utils\" package.")
  {
    if tools.present || tools.presentAfterInstall then Ok(())
    else Err(InternalServerError("pdftotext command not found. Install the \"poppler-utils\" package."))
  }

  /**
   * What `extractTextFromPdf` returns and the delays it sleeps: the first
   * non-blank library output among three tries, else the first non-blank
   * `pdftotext` output among three tries, else the empty string; a failed
   * try sleeps 300 ms times its number.
   */
  function Extraction(tools: PdfTools): (Result<string, Failure>, seq<nat>) {
    var a := FirstUsable(tools.pdfParse, 1);
    if a <= 3 then (Ok(tools.pdfParse(a).text), Backoff(300, a - 1))
    else if EnsurePdftotext(tools).Err? then (Err(EnsurePdftotext(tools).error), Backoff(300, 3))
    else
      var b := FirstUsable(tools.pdftotext, 1);
      if b <= 3 then (Ok(tools.pdftotext(b).text), Backoff(300, 3) + Backoff(300, b - 1))
      else (Ok(""), Backoff(300, 3) + Backoff(300, 3))
  }

  /** Extraction yields either text that is not blank or exactly the empty string, and the empty string only when all six tries failed. */
  lemma {:induction false} ExtractionNonBlankOrEmpty(tools: PdfTools)
    ensures Extraction(tools).0.Ok? ==>
      var t := Extraction(tools).0.value;
      (t == "" && forall k :: 1 <= k <= 3 ==> !Usable(tools.pdfParse(k)) && !Usable(tools.pdftotext(k)))
      || Trim(t) != []
    ensures Extraction(tools).0.Err? ==> forall k :: 1 <= k <= 3 ==> !Usable(tools.pdfParse(k))
    ensures |Extraction(tools).1| <= 6
  {
    var a := FirstUsable(tools.pdfParse, 1);
    var b := FirstUsable(tools.pdftotext, 1);
    if a <= 3 {
      assert Extraction(tools).0 == Ok(tools.pdfParse(a).text);
    } else if EnsurePdftotext(tools).Ok? {
      if b <= 3 {
        assert Extraction(tools).0 == Ok(tools.pdftotext(b).text);
      } else {
        assert Extraction(tools).0 == Ok("");
      }
    }
  }

  /** The library is preferred: when one of its three tries yields text, the subprocess is never consulted. */
  lemma {:induction false} LibraryPreferred(tools: PdfTools, k: nat)
    requires 1 <= k <= 3 && Usable(tools.pdfParse(k))
    ensures Extraction(tools).0.Ok?
    ensures Extraction(tools).0.value == tools.pdfParse(FirstUsable(tools.pdfParse, 1)).text
    ensures FirstUsable(tools.pdfParse, 1) <= k
  {
  }

  /**
   * One of the two counted loops of `extractTextFromPdf`: up to three tries,
   * returning the first non-blank text and sleeping 300 ms times the try's
   * number after each failed one.
   */
  method TryThree(source: nat -> Attempt) returns (text: Option<string>, sleeps: seq<nat>)
    ensures FirstUsable(source, 1) <= 3 ==>
      text == Some(source(FirstUsable(source, 1)).text) && sleeps == Backoff(300, FirstUsable(source, 1) - 1)
    ensures FirstUsable(source, 1) == 4 ==> text == None && sleeps == Backoff(300, 3)
  {
    sleeps := [];
    var attempt := 1;
    while attempt <= 3
      invariant 1 <= attempt <= 4
      invariant FirstUsable(source, 1) >= attempt
      invariant sleeps == Backoff(300, attempt - 1)
    {
      var outcome := source(attempt);
      if outcome.Extracted? && Trim(outcome.text) != [] {
        return Some(outcome.text), sleeps;
      }
      sleeps := sleeps + [300 * attempt];
      attempt := attempt + 1;
    }
    text := None;
  }

  /** `extractTextFromPdf`: the library's tries, then the tool's, then the empty string. */
  method ExtractTextFromPdf(tools: PdfTools) returns (result: Result<string, Failure>, sleeps: seq<nat>)
    ensures (result, sleeps) == Extraction(tools)
  {
    var text, librarySleeps := TryThree(tools.pdfParse);
    if text.Some? {
      return Ok(text.value), librarySleeps;
    }
    var ensured := EnsurePdftotext(tools);
    if ensured.Err? {
      return Err(ensured.error), librarySleeps;
    }
    var toolSleeps;
    text, toolSleeps := TryThree(tools.pdftotext);
    sleeps := librarySleeps + toolSleeps;
    result := if text.Some? then Ok(text.value) else Ok("");
  }

  // ================================================================ AI call with retry

  /** What one call of the AI service gives. */
  datatype CallOutcome = Returned(text: string) | Threw(error: Failure)

  /** The outcome of `aiGenerateWithRetry`, the number of calls it made and the delays it slept. */
  datatype AiRun = AiRun(result: Result<string, Failure>, calls: nat, delays: seq<nat>)

  /**
   * `aiGenerateWithRetry(msgs, attempt)`: the first reply among attempts
   * `attempt` to 3, sleeping 500 ms times the attempt number after each
   * failure but the last; the third failure is rethrown.
   */
  function AiGenerateWithRetry(ai: nat -> CallOutcome, attempt: nat): (run: AiRun)
    requires 1 <= attempt <= 3
    ensures 1 <= run.calls <= 4 - attempt
    ensures |run.delays| == run.calls - 1
    ensures forall i :: 0 <= i < |run.delays| ==> run.delays[i] == 500 * (attempt + i)
    ensures forall k :: attempt <= k < attempt + run.calls - 1 ==> ai(k).Threw?
    ensures run.result.Ok? ==> ai(attempt + run.calls - 1) == Returned(run.result.value)
    ensures run.result.Err? ==> attempt + run.calls - 1 == 3 && ai(3) == Threw(run.result.error)
    decreases 3 - attempt
  {
    match ai(attempt)
    case Returned(text) => AiRun(Ok(text), 1, [])
    case Threw(error) =>
      if attempt >= 3 then AiRun(Err(error), 1, [])
      else
        var rest := AiGenerateWithRetry(ai, attempt + 1);
        AiRun(rest.result, rest.calls + 1, [500 * attempt] + rest.delays)
  }

  /** The call succeeds exactly when one of the first three calls returns, and it returns the first reply. */
  lemma {:induction false} AiSucceedsIffSomeCallReturns(ai: nat -> CallOutcome)
    ensures AiGenerateWithRetry(ai, 1).result.Ok? <==> exists k :: 1 <= k <= 3 && ai(k).Returned?
    ensures AiGenerateWithRetry(ai, 1).result.Ok? ==>
      exists k :: 1 <= k <= 3 && ai(k) == Returned(AiGenerateWithRetry(ai, 1).result.value)
              && forall j :: 1 <= j < k ==> ai(j).Threw?
  {
    var run := AiGenerateWithRetry(ai, 1);
    if run.result.Ok? {
      assert ai(run.calls) == Returned(run.result.value);
    }
  }

  // ================================================================ score format

  /**
   * One `\s*\d+\s*` step of the score regex, read greedily: the digits found
   * after leading white space, and what is left once the white space after
   * them is skipped too.
   */
  function ReadNumeral(s: string): (string, string) {
    var a := TrimStart(s);
    var n := LeadingDigits(a);
    (n, TrimStart(a[|n|..]))
  }

  /**
   * `/^\s*\d+\s*\/\s*\d+\s*$/.test(t)`, read left to right: white space,
   * digits, white space, the slash, white space, digits, white space, end.
   * The three classes are disjoint, so greedy reading is the regex's answer.
   */
  predicate MatchesScoreFormat(t: string) {
    var (n, rest) := ReadNumeral(t);
    n != [] && rest != [] && rest[0] == '/' &&
    var (m, rest2) := ReadNumeral(rest[1..]);
    m != [] && rest2 == []
  }

  /** Digits with nothing but white space around them. */
  predicate IsPaddedNumeral(s: string) {
    Trim(s) != [] && AllDigits(Trim(s))
  }

  /** The same format stated by its parts: one slash, with a padded numeral on each side. */
  predicate ScoreShape(t: string) {
    var parts := Split(t, '/');
    |parts| == 2 && IsPaddedNumeral(parts[0]) && IsPaddedNumeral(parts[1])
  }

  /** Reading `lead + digits + trail + tail` greedily finds exactly `digits` and leaves `tail`. */
  lemma {:induction false} ReadPadded(lead: string, digits: string, trail: string, tail: string)
    requires AllSpace(lead) && AllSpace(trail) && digits != [] && AllDigits(digits)
    requires tail == [] || (!IsSpace(tail[0]) && !IsDigit(tail[0]))
    ensures ReadNumeral(lead + digits + trail + tail) == (digits, tail)
  {
    var w := trail + tail;
    var u := digits + w;
    ConcatFour(lead + digits + trail + tail, lead, u, digits, w, trail, tail);
    TrimStartPadded(lead, u);
    assert u[0] == digits[0];
    assert TrimStart(u) == u;
    if trail != [] {
      assert w[0] == trail[0] && IsSpace(trail[0]);
    } else {
      assert w == tail;
    }
    LeadingDigitsOf(digits, w);
    assert u[|digits|..] == w;
    TrimStartPadded(trail, tail);
  }

  /** A string is its leading white space followed by its trimmed start. */
  lemma {:induction false} TrimStartSplit(s: string) returns (lead: string)
    ensures s == lead + TrimStart(s) && AllSpace(lead)
    ensures TrimStart(s) == [] || !IsSpace(TrimStart(s)[0])
  {
    TrimStartFacts(s);
    lead := s[..|s| - |TrimStart(s)|];
  }

  /** A string is its leading digits followed by the rest. */
  lemma {:induction false} LeadingDigitsSplit(a: string)
    ensures a == LeadingDigits(a) + a[|LeadingDigits(a)|..] && AllDigits(LeadingDigits(a))
  {
    LeadingDigitsFacts(a);
  }

  /** What a greedy read consumed: white space, the digits, white space. */
  lemma {:induction false} ReadNumeralParts(s: string) returns (lead: string, trail: string)
    ensures s == lead + ReadNumeral(s).0 + trail + ReadNumeral(s).1
    ensures AllSpace(lead) && AllSpace(trail) && AllDigits(ReadNumeral(s).0)
    ensures ReadNumeral(s).1 == [] || !IsSpace(ReadNumeral(s).1[0])
  {
    var a := TrimStart(s);
    var n := LeadingDigits(a);
    var rest := a[|n|..];
    var b := TrimStart(rest);
    assert ReadNumeral(s) == (n, b);
    lead := TrimStartSplit(s);
    LeadingDigitsSplit(a);
    trail := TrimStartSplit(rest);
    ConcatFour(s, lead, a, n, rest, trail, b);
  }

  /** Three nested splittings of a string give one four-part splitting. */
  lemma {:induction false} ConcatFour(s: string, lead: string, a: string, n: string, rest: string, trail: string, b: string)
    requires s == lead + a && a == n + rest && rest == trail + b
    ensures s == lead + n + trail + b
  {
    assert lead + n + trail + b == lead + (n + (trail + b));
  }

  /** A padded numeral is white space, digits, white space. */
  lemma {:induction false} PaddedNumeralParts(s: string) returns (lead: string, digits: string, trail: string)
    requires IsPaddedNumeral(s)
    ensures s == lead + digits + trail && digits == Trim(s)
    ensures AllSpace(lead) && AllSpace(trail)
  {
    TrimParts(s);
    var k := |s| - |TrimStart(s)|;
    lead, digits, trail := s[..k], Trim(s), s[k + |Trim(s)|..];
  }

  /** The regex reading and the statement by parts agree on every string. */
  lemma {:induction false} ScoreFormatByParts(t: string)
    ensures MatchesScoreFormat(t) <==> ScoreShape(t)
  {
    if MatchesScoreFormat(t) {
      MatchedScoreParts(t);
    }
    if ScoreShape(t) {
      ShapedScoreMatches(t);
    }
  }

  /** A string of the score's parts reads as a match. */
  lemma {:induction false} PartsMatch(l1: string, n: string, r1: string, l2: string, m: string, r2: string)
    requires AllSpace(l1) && AllSpace(r1) && AllSpace(l2) && AllSpace(r2)
    requires n != [] && m != [] && AllDigits(n) && AllDigits(m)
    ensures MatchesScoreFormat(l1 + n + r1 + "/" + (l2 + m + r2))
    ensures ReadNumeral(l1 + n + r1 + "/" + (l2 + m + r2)).0 == n
  {
    var tail := "/" + (l2 + m + r2);
    var t := l1 + n + r1 + "/" + (l2 + m + r2);
    assert t == l1 + n + r1 + tail;
    ReadPadded(l1, n, r1, tail);
    assert tail[1..] == l2 + m + r2 + [];
    ReadPadded(l2, m, r2, []);
    assert ReadNumeral(t) == (n, tail);
  }

  /** By parts implies by the regex. */
  lemma {:induction false} ShapedScoreMatches(t: string)
    requires ScoreShape(t)
    ensures MatchesScoreFormat(t)
  {
    var parts := Split(t, '/');
    var l1, d1, r1 := PaddedNumeralParts(parts[0]);
    var l2, d2, r2 := PaddedNumeralParts(parts[1]);
    assert t == l1 + d1 + r1 + "/" + (l2 + d2 + r2) by { assert Join(parts, '/') == t; }
    PartsMatch(l1, d1, r1, l2, d2, r2);
  }

  /** No slash occurs in white space around digits. */
  lemma {:induction false} NoSlashInPadded(l: string, d: string, r: string)
    requires AllSpace(l) && AllDigits(d) && AllSpace(r)
    ensures '/' !in l + d + r
  {
    var s := l + d + r;
    forall i | 0 <= i < |s| ensures s[i] != '/' {
      if i < |l| { assert s[i] == l[i]; }
      else if i < |l| + |d| { assert s[i] == d[i - |l|]; }
      else { assert s[i] == r[i - |l| - |d|]; }
    }
  }

  /** The six parts of a string of that shape are its two split parts, trimmed to the numerals. */
  lemma {:induction false} PartsShape(l1: string, n: string, r1: string, l2: string, m: string, r2: string)
    requires AllSpace(l1) && AllSpace(r1) && AllSpace(l2) && AllSpace(r2)
    requires n != [] && m != [] && AllDigits(n) && AllDigits(m)
    ensures Split(l1 + n + r1 + "/" + (l2 + m + r2), '/') == [l1 + n + r1, l2 + m + r2]
    ensures ScoreShape(l1 + n + r1 + "/" + (l2 + m + r2))
    ensures Trim(l1 + n + r1) == n
  {
    var left, right := l1 + n + r1, l2 + m + r2;
    NoSlashInPadded(l1, n, r1);
    NoSlashInPadded(l2, m, r2);
    SplitOfJoin([left, right], '/');
    assert Join([left, right], '/') == left + "/" + right;
    TrimPadded(l1, n, r1);
    TrimPadded(l2, m, r2);
    assert IsDigit(n[0]) && IsDigit(n[|n| - 1]);
    assert IsDigit(m[0]) && IsDigit(m[|m| - 1]);
    TrimOfTrimmed(n);
    TrimOfTrimmed(m);
  }

  /** White space is white space when joined. */
  lemma {:induction false} AllSpaceJoin(a: string, b: string)
    requires AllSpace(a) && AllSpace(b)
    ensures AllSpace(a + b)
  {
    assert forall i :: 0 <= i < |a + b| ==> (a + b)[i] == if i < |a| then a[i] else b[i - |a|];
  }

  /** A matched string splits into white space, digits, white space, a slash, white space, digits, white space. */
  lemma {:induction false} MatchedScoreSplit(t: string)
    returns (l1: string, n: string, r1: string, l2: string, m: string, r2: string)
    requires MatchesScoreFormat(t)
    ensures t == l1 + n + r1 + "/" + (l2 + m + r2)
    ensures AllSpace(l1) && AllSpace(r1) && AllSpace(l2) && AllSpace(r2)
    ensures n != [] && m != [] && AllDigits(n) && AllDigits(m)
    ensures n == ReadNumeral(t).0
  {
    var rest := ReadNumeral(t).1;
    n := ReadNumeral(t).0;
    l1, r1 := ReadNumeralParts(t);
    m := ReadNumeral(rest[1..]).0;
    var tail;
    l2, tail := ReadNumeralParts(rest[1..]);
    r2 := tail;
    assert ReadNumeral(rest[1..]).1 == [];
    assert rest[1..] == l2 + m + r2;
    assert rest == "/" + rest[1..];
  }

  /** By the regex implies by parts, and the numeral before the slash is the one the regex read. */
  lemma {:induction false} MatchedScoreParts(t: string)
    requires MatchesScoreFormat(t)
    ensures ScoreShape(t)
    ensures Trim(Split(t, '/')[0]) == ReadNumeral(t).0
  {
    var l1, n, r1, l2, m, r2 := MatchedScoreSplit(t);
    PartsShape(l1, n, r1, l2, m, r2);
  }

  /** `parseInt(scoreText.split('/')[0], 10)`, the score a marked submission stores. */
  function ScoreValue(scoreText: string): Option<int> {
    ParseInt(Split(scoreText, '/')[0])
  }

  /** An accepted score text stores the value of the numeral before its slash, which is never negative. */
  lemma {:induction false} ScoreOfMatched(t: string)
    requires MatchesScoreFormat(t)
    ensures AllDigits(ReadNumeral(t).0) && ScoreValue(t) == Some(DigitsValue(ReadNumeral(t).0))
  {
    var l1, n, r1, l2, m, r2 := MatchedScoreSplit(t);
    PartsShape(l1, n, r1, l2, m, r2);
    if r1 != [] {
      assert !IsDigit(r1[0]) by { assert IsSpace(r1[0]); }
    }
    ParseIntOfNumeral(l1, n, r1);
  }

  /** A score written as `x/y` is accepted and stores `x`. */
  lemma {:induction false} ScoreRoundTrip(x: nat, y: nat)
    ensures MatchesScoreFormat(NatToString(x) + "/" + NatToString(y))
    ensures ScoreValue(NatToString(x) + "/" + NatToString(y)) == Some(x)
  {
    var t := NatToString(x) + "/" + NatToString(y);
    assert t == [] + NatToString(x) + [] + "/" + ([] + NatToString(y) + []);
    PartsMatch([], NatToString(x), [], [], NatToString(y), []);
    ScoreOfMatched(t);
  }

  /**
   * `generateScoreText`: the AI reply, trimmed, must match the score format;
   * any other reply fails with BadRequest, and an AI failure propagates.
   */
  function GenerateScoreText(ai: nat -> CallOutcome): (r: Result<string, Failure>)
    ensures r.Ok? <==> AiGenerateWithRetry(ai, 1).result.Ok? && MatchesScoreFormat(Trim(AiGenerateWithRetry(ai, 1).result.value))
  {
    var run := AiGenerateWithRetry(ai, 1);
    if run.result.Err? then Err(run.result.error)
    else
      var scoreText := Trim(run.result.value);
      if !MatchesScoreFormat(scoreText) then Err(BadRequest("Unexpected score format \"" + scoreText + "\""))
      else Ok(scoreText)
  }

  /**
   * An accepted score text is one slash between two padded numerals, is
   * already trimmed, and is the AI's reply up to surrounding white space; a
   * reply of any other shape is refused with the message quoting it.
   */
  lemma {:induction false} ScoreTextAccepted(ai: nat -> CallOutcome)
    ensures GenerateScoreText(ai).Ok? ==>
      ScoreShape(GenerateScoreText(ai).value) && Trim(GenerateScoreText(ai).value) == GenerateScoreText(ai).value
    ensures AiGenerateWithRetry(ai, 1).result.Ok? && !ScoreShape(Trim(AiGenerateWithRetry(ai, 1).result.value)) ==>
      GenerateScoreText(ai) == Err(BadRequest("Unexpected score format \"" + Trim(AiGenerateWithRetry(ai, 1).result.value) + "\""))
    ensures AiGenerateWithRetry(ai, 1).result.Err? ==> GenerateScoreText(ai) == Err(AiGenerateWithRetry(ai, 1).result.error)
  {
    var run := AiGenerateWithRetry(ai, 1);
    if run.result.Ok? {
      var t := Trim(run.result.value);
      ScoreFormatByParts(t);
      TrimIdempotent(run.result.value);
    }
  }

  // ================================================================ cleaning the parser's output

  /** The code fence the AI service wraps JSON in. */
  const Fence: string := "```"

  /** `t.replace(/```json/gi, '')`: every fence followed by `json` in any letter case is removed, scanning left to right. */
  function StripJsonFences(t: string): (r: string)
    ensures |r| <= |t|
    decreases |t|
  {
    if |t| >= 7 && Fence <= t && Lower(t[3..7]) == "json" then StripJsonFences(t[7..])
    else if t == [] then []
    else [t[0]] + StripJsonFences(t[1..])
  }

  /** `t.replace(/```/g, '')`: every fence is removed, scanning left to right. */
  function StripFences(t: string): (r: string)
    ensures |r| <= |t|
    decreases |t|
  {
    if Fence <= t then StripFences(t[3..])
    else if t == [] then []
    else [t[0]] + StripFences(t[1..])
  }

  /** `.filter(l => l.trim() !== ',')`: the lines that are more than a lone comma, in order. */
  function KeepLines(lines: seq<string>): (r: seq<string>)
    ensures forall l :: l in r <==> l in lines && Trim(l) != ","
  {
    if lines == [] then []
    else (if Trim(lines[0]) != "," then [lines[0]] else []) + KeepLines(lines[1..])
  }

  /** `.split('\n').filter(...).join('\n')` */
  function DropCommaLines(t: string): string {
    Join(KeepLines(Split(t, '\n')), '\n')
  }

  /** The cleaning chain applied to the parser's AI reply before `JSON.parse`. */
  function CleanAiOutput(reply: string): string {
    DropCommaLines(Trim(StripFences(StripJsonFences(reply))))
  }

  /** A string without two leading backticks keeps that property through fence stripping. */
  lemma {:induction false} StripFencesNoDoubleStart(t: string)
    requires !("``" <= t)
    ensures !("``" <= StripFences(t))
  {
    if t != [] && t[0] == '`' && |t| > 1 {
      assert t[1] != '`';
      assert !(Fence <= t[1..]);
      assert StripFences(t[1..]) == [t[1]] + StripFences(t[2..]);
    }
  }

  /** No fence survives fence stripping: removing one never joins two backtick runs into a new fence. */
  lemma {:induction false} StripFencesNoFence(t: string)
    ensures !Contains(StripFences(t), Fence)
    decreases |t|
  {
    if Fence <= t {
      StripFencesNoFence(t[3..]);
    } else if t != [] {
      var r := StripFences(t[1..]);
      StripFencesNoFence(t[1..]);
      assert StripFences(t) == [t[0]] + r;
      if t[0] == '`' {
        assert !("``" <= t[1..]);
        StripFencesNoDoubleStart(t[1..]);
      }
      assert ([t[0]] + r)[1..] == r;
    }
  }

  /** The cleaned output holds no code fence and no line that is only a comma. */
  lemma {:induction false} CleanOutputIsClean(reply: string)
    ensures !Contains(CleanAiOutput(reply), Fence)
    ensures forall l :: l in Split(CleanAiOutput(reply), '\n') ==> Trim(l) != ","
  {
    var stripped := StripFences(StripJsonFences(reply));
    var trimmed := Trim(stripped);
    var lines := Split(trimmed, '\n');
    var kept := KeepLines(lines);
    var out := Join(kept, '\n');
    if Contains(out, Fence) {
      var k := ContainsJoinPart(kept, '\n', Fence);
      assert kept[k] in lines;
      var j :| 0 <= j < |lines| && lines[j] == kept[k];
      ContainsPartOfJoin(lines, '\n', j, Fence);
      ContainsOfTrim(stripped, Fence);
      StripFencesNoFence(StripJsonFences(reply));
      assert false;
    }
    if kept == [] {
      assert Split(out, '\n') == [""];
      assert Trim("") == "";
    } else {
      assert forall i :: 0 <= i < |kept| ==> '\n' !in kept[i] by {
        forall i | 0 <= i < |kept| ensures '\n' !in kept[i] {
          assert kept[i] in lines;
        }
      }
      SplitOfJoin(kept, '\n');
    }
  }

  // ================================================================ the parse worker

  /** The part of a parse job the worker reads: the exam to fill, the attempts made and allowed. */
  datatype ParseJob = ParseJob(examKey: string, attemptsMade: nat, attempts: Option<int>)

  /** The `finally` clause: the temporary file goes once `attemptsMade >= (opts.attempts ?? 1) - 1`. */
  predicate DeletesTempFile(job: ParseJob) {
    job.attemptsMade >= job.attempts.GetOr(1) - 1
  }

  /**
   * The producer allows three attempts. Only the third deletes the file, so
   * a job that succeeds on its first or second attempt, and is therefore
   * never retried, leaves its temporary file behind.
   */
  lemma {:induction false} SuccessfulFirstAttemptKeepsTempFile(examKey: string)
    ensures !DeletesTempFile(ParseJob(examKey, 0, Some(3)))
    ensures !DeletesTempFile(ParseJob(examKey, 1, Some(3)))
    ensures DeletesTempFile(ParseJob(examKey, 2, Some(3)))
  {
  }

  /** `JSON.parse(raw)`, with the raw text itself when it is not JSON. */
  function ParsedOrRaw(raw: string, jsonParse: string -> Option<JsonValue>): (v: JsonValue)
    ensures jsonParse(raw).None? ==> v == JString(raw)
    ensures jsonParse(raw).Some? ==> v == jsonParse(raw).value
  {
    jsonParse(raw).GetOr(JString(raw))
  }

  /** `Array.isArray(parsed) ? parsed : [parsed]` */
  function QuestionList(v: JsonValue): seq<JsonValue> {
    if v.JArray? then v.items else [v]
  }

  /** Storing the wrapped list and wrapping it again changes nothing. */
  lemma {:induction false} QuestionListStable(v: JsonValue)
    ensures QuestionList(JArray(QuestionList(v))) == QuestionList(v)
    ensures !v.JArray? ==> |QuestionList(v)| == 1 && QuestionList(v)[0] == v
  {
  }

  /**
   * What `parsePdfWorker` returns or throws, given the extraction result:
   * no text fails with BadRequest, AI and extraction failures propagate,
   * and the cleaned reply is parsed, or returned raw when it is not JSON.
   */
  function ParseOutcome(extraction: Result<string, Failure>, ai: nat -> CallOutcome,
                        jsonParse: string -> Option<JsonValue>): Result<JsonValue, Failure>
  {
    if extraction.Err? then Err(extraction.error)
    else if Trim(extraction.value) == [] then Err(BadRequest("No text found in PDF"))
    else
      var run := AiGenerateWithRetry(ai, 1);
      if run.result.Err? then Err(run.result.error)
      else Ok(ParsedOrRaw(CleanAiOutput(run.result.value), jsonParse))
  }

  /** A reply that is not JSON is never an error: the worker returns the cleaned text itself. */
  lemma {:induction false} NonJsonReturnedRaw(extraction: Result<string, Failure>, ai: nat -> CallOutcome,
                                               jsonParse: string -> Option<JsonValue>)
    requires extraction.Ok? && Trim(extraction.value) != []
    requires AiGenerateWithRetry(ai, 1).result.Ok?
    ensures ParseOutcome(extraction, ai, jsonParse).Ok?
    ensures var raw := CleanAiOutput(AiGenerateWithRetry(ai, 1).result.value);
      jsonParse(raw).None? ==> ParseOutcome(extraction, ai, jsonParse) == Ok(JString(raw))
  {
  }

  /**
   * `parsePdfWorker(job)`. `exam` is what `findOne({ examKey })` finds. On
   * success with an exam key and an exam, its questions become the parsed
   * list; nothing else changes. The temporary file is deleted by the
   * attempts rule whatever the outcome.
   */
  method ParsePdfWorker(job: ParseJob, exam: Exam?, tools: PdfTools, ai: nat -> CallOutcome,
                        jsonParse: string -> Option<JsonValue>)
    returns (result: Result<JsonValue, Failure>, tempDeleted: bool)
    requires exam != null ==> exam.examKey == job.examKey
    modifies exam
    ensures result == ParseOutcome(Extraction(tools).0, ai, jsonParse)
    ensures tempDeleted == DeletesTempFile(job)
    ensures exam != null && result.Ok? && job.examKey != "" ==> exam.questions == QuestionList(result.value)
    ensures exam != null && (result.Err? || job.examKey == "") ==> exam.questions == old(exam.questions)
    ensures exam != null ==>
      (exam.submissions == old(exam.submissions) && exam.invites == old(exam.invites)
       && exam.access == old(exam.access) && exam.Details() == old(exam.Details()))
  {
    var extraction, _ := ExtractTextFromPdf(tools);
    result := ParseOutcome(extraction, ai, jsonParse);
    if result.Ok? && job.examKey != "" && exam != null {
      exam.questions := QuestionList(result.value);
    }
    tempDeleted := DeletesTempFile(job);
  }

  // ================================================================ the mark worker

  /** The part of a mark job the worker reads. */
  datatype MarkJob = MarkJob(examKey: string, email: string, studentAnswer: string, timeSpent: int)

  /**
   * What `performMark` computes before it writes, as the error it throws or
   * the score text it returns: a missing exam, an extraction failure, no
   * text, an AI failure, a refused score and a failed rendering each stop it.
   */
  function MarkOutcome(examFound: bool, extraction: Result<string, Failure>, ai: nat -> CallOutcome,
                       rendered: Result<(), Failure>): (r: Result<string, Failure>)
    ensures r.Ok? ==> MatchesScoreFormat(r.value)
  {
    if !examFound then Err(NotFound("Exam not found"))
    else if extraction.Err? then Err(extraction.error)
    else if Trim(extraction.value) == [] then Err(BadRequest("No text found in PDF"))
    else
      var score := GenerateScoreText(ai);
      if score.Err? then Err(score.error)
      else if rendered.Err? then Err(rendered.error)
      else Ok(score.value)
  }

  /** The message `markPdfWorker` throws: `performMark` prefixes it once and the worker a second time. */
  function MarkFailure(error: Failure): Failure {
    BadRequest("Error processing PDF: Error processing PDF: " + error.message)
  }

  /** The submission a successful mark stores. */
  function MarkedSubmission(job: MarkJob, scoreText: string, transcriptUrl: string, now: string): (s: Submission)
    requires MatchesScoreFormat(scoreText)
    ensures IsLowerCase(s.email) && s.email == Lower(job.email)
    ensures Some(s.score) == ScoreValue(scoreText) && s.score >= 0
    ensures s.transcript == Some(transcriptUrl) && s.timeSubmitted == now
    ensures s.studentAnswer == job.studentAnswer && s.timeSpent == job.timeSpent
  {
    ScoreOfMatched(scoreText);
    LowerIsLowerCase(job.email);
    Submission(Lower(job.email), job.studentAnswer, DigitsValue(ReadNumeral(scoreText).0),
               now, job.timeSpent, Some(transcriptUrl))
  }

  /**
   * `markPdfWorker(data)`. `exam` is what `findOne({ examKey })` finds,
   * `rendered` whether the transcript PDF was produced, `transcriptUrl` what
   * the upload gave (empty when it failed) and `now` the submission time.
   * Only a fully successful mark writes, and only then is the file deleted.
   */
  method MarkPdfWorker(job: MarkJob, exam: Exam?, tools: PdfTools, ai: nat -> CallOutcome,
                       rendered: Result<(), Failure>, transcriptUrl: string, now: string)
    returns (result: Result<string, Failure>, tempDeleted: bool)
    modifies exam
    ensures var outcome := MarkOutcome(exam != null, Extraction(tools).0, ai, rendered);
      && (outcome.Ok? ==>
            (result == outcome && tempDeleted && exam != null
             && exam.submissions == Upserted(old(exam.submissions), MarkedSubmission(job, outcome.value, transcriptUrl, now))))
      && (outcome.Err? ==>
            (result == Err(MarkFailure(outcome.error)) && !tempDeleted
             && (exam != null ==> exam.submissions == old(exam.submissions))))
    ensures exam != null ==>
      (exam.questions == old(exam.questions) && exam.invites == old(exam.invites)
       && exam.access == old(exam.access) && exam.Details() == old(exam.Details()))
  {
    tempDeleted := false;
    if exam == null {
      return Err(MarkFailure(NotFound("Exam not found"))), false;
    }
    var extraction, _ := ExtractTextFromPdf(tools);
    var outcome := MarkOutcome(true, extraction, ai, rendered);
    if outcome.Err? {
      return Err(MarkFailure(outcome.error)), false;
    }
    var submission := MarkedSubmission(job, outcome.value, transcriptUrl, now);
    UpsertSubmission(exam, submission);
    tempDeleted := true;
    result := outcome;
  }

  // ================================================================ keyed upsert

  /** `upsertSubmission`: replace the first entry with the same e-mail, or append. */
  function Upserted(subs: seq<Submission>, s: Submission): seq<Submission> {
    var i := IndexOfEmail(subs, s.email);
    if i >= 0 then subs[i := s] else subs + [s]
  }

  /** The upsert writes the first entry with the same e-mail in place, else appends; no other entry moves or changes. */
  lemma {:induction false} UpsertShape(subs: seq<Submission>, s: Submission)
    ensures (forall i :: 0 <= i < |subs| ==> subs[i].email != s.email) ==> Upserted(subs, s) == subs + [s]
    ensures forall i :: 0 <= i < |subs| && subs[i].email == s.email && (forall j :: 0 <= j < i ==> subs[j].email != s.email) ==>
      (|Upserted(subs, s)| == |subs| && Upserted(subs, s)[i] == s
       && forall j :: 0 <= j < |subs| && j != i ==> Upserted(subs, s)[j] == subs[j])
  {
  }

  /**
   * Upserting a submission with a lower-case e-mail keeps the submissions
   * keyed, and afterwards exactly one entry carries that e-mail.
   */
  lemma {:induction false} UpsertKeepsKeyed(subs: seq<Submission>, s: Submission)
    requires EmailsKeyed(Emails(subs)) && IsLowerCase(s.email)
    ensures EmailsKeyed(Emails(Upserted(subs, s)))
    ensures CountEmail(Upserted(subs, s), s.email) == 1
  {
    var r := Upserted(subs, s);
    var i := IndexOfEmail(subs, s.email);
    if i >= 0 {
      EmailsOfReplace(subs, i, s);
      assert Emails(r)[i] == s.email;
    } else {
      EmailsOfAppend(subs, s);
      assert s.email !in Emails(subs) by {
        assert forall a :: 0 <= a < |subs| ==> Emails(subs)[a] == subs[a].email;
      }
      KeyedAppend(Emails(subs), s.email);
      assert Emails(r)[|subs|] == s.email;
    }
    CountKeyed(r, s.email);
  }

  /** Upserting the same e-mail twice leaves what the second upsert alone leaves. */
  lemma {:induction false} UpsertTwice(subs: seq<Submission>, s: Submission, s2: Submission)
    requires s2.email == s.email
    ensures Upserted(Upserted(subs, s), s2) == Upserted(subs, s2)
  {
    var i := IndexOfEmail(subs, s.email);
    var r := Upserted(subs, s);
    var k := if i >= 0 then i else |subs|;
    assert r[k] == s;
    assert forall j :: 0 <= j < k ==> r[j] == subs[j];
    IndexOfEmailAt(r, s.email, k);
    if i < 0 {
      assert r[k := s2] == subs + [s2];
    }
  }

  /** The first index with `email` is `k` when `k` holds it and no earlier one does. */
  lemma {:induction false} IndexOfEmailAt(subs: seq<Submission>, email: string, k: nat)
    requires k < |subs| && subs[k].email == email
    requires forall j :: 0 <= j < k ==> subs[j].email != email
    ensures IndexOfEmail(subs, email) == k
  {
    if k > 0 {
      IndexOfEmailAt(subs[1..], email, k - 1);
    }
  }

  /** `upsertSubmission(exam, submission)`: the in-place write of the keyed upsert. */
  method UpsertSubmission(exam: Exam, submission: Submission)
    modifies exam
    ensures exam.submissions == Upserted(old(exam.submissions), submission)
    ensures exam.questions == old(exam.questions) && exam.invites == old(exam.invites)
      && exam.access == old(exam.access) && exam.examKey == old(exam.examKey)
      && exam.examName == old(exam.examName) && exam.lecturer == old(exam.lecturer) && exam.link == old(exam.link)
  {
    var idx := IndexOfEmail(exam.submissions, submission.email);
    if idx >= 0 {
      exam.submissions := exam.submissions[idx := submission];
    } else {
      exam.submissions := exam.submissions + [submission];
    }
  }
}
