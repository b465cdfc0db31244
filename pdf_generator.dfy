/**
 * Template rendering for transcripts (pdf-generator.ts): `{{ key }}`
 * substitution and the choice between inline HTML and a template file.
 *
 * The template file is read through an oracle `readFile(path)`; the data
 * record is a map from keys to the strings `String(value)` gives, a key
 * that is absent standing for an undefined value.
 */
module PdfGenerator {
  import opened Wrappers
  import opened Errors
  import opened Text

  // ================================================================ matching one placeholder

  /** Where the run of white space `\s*` starting at index i ends. */
  function SpacesFrom(s: string, i: nat): (j: nat)
    requires i <= |s|
    ensures i <= j <= |s|
    decreases |s| - i
  {
    if i == |s| || !IsSpace(s[i]) then i else SpacesFrom(s, i + 1)
  }

  /** Where the run of word characters `\w*` starting at index i ends. */
  function WordsFrom(s: string, i: nat): (j: nat)
    requires i <= |s|
    ensures i <= j <= |s|
    decreases |s| - i
  {
    if i == |s| || !IsWordChar(s[i]) then i else WordsFrom(s, i + 1)
  }

  /** The run is white space and stops at the end or before a character that is not. */
  lemma {:induction false} SpacesFromFacts(s: string, i: nat)
    requires i <= |s|
    ensures forall k :: i <= k < SpacesFrom(s, i) ==> IsSpace(s[k])
    ensures SpacesFrom(s, i) < |s| ==> !IsSpace(s[SpacesFrom(s, i)])
    decreases |s| - i
  {
    if i < |s| && IsSpace(s[i]) {
      SpacesFromFacts(s, i + 1);
    }
  }

  lemma {:induction false} WordsFromFacts(s: string, i: nat)
    requires i <= |s|
    ensures forall k :: i <= k < WordsFrom(s, i) ==> IsWordChar(s[k])
    ensures WordsFrom(s, i) < |s| ==> !IsWordChar(s[WordsFrom(s, i)])
    decreases |s| - i
  {
    if i < |s| && IsWordChar(s[i]) {
      WordsFromFacts(s, i + 1);
    }
  }

  /** A run of white space from i to j that stops there is the run SpacesFrom finds. */
  lemma {:induction false} SpacesFromIs(s: string, i: nat, j: nat)
    requires i <= j <= |s|
    requires forall k :: i <= k < j ==> IsSpace(s[k])
    requires j < |s| ==> !IsSpace(s[j])
    ensures SpacesFrom(s, i) == j
    decreases j - i
  {
    if i < j {
      SpacesFromIs(s, i + 1, j);
    }
  }

  lemma {:induction false} WordsFromIs(s: string, i: nat, j: nat)
    requires i <= j <= |s|
    requires forall k :: i <= k < j ==> IsWordChar(s[k])
    requires j < |s| ==> !IsWordChar(s[j])
    ensures WordsFrom(s, i) == j
    decreases j - i
  {
    if i < j {
      WordsFromIs(s, i + 1, j);
    }
  }

  /**
   * `/\{\{\s*(\w+)\s*\}\}/` tried at the start of `s`: the key and the
   * length of the match, or None. White space and word characters are
   * disjoint, so the greedy runs never need to give anything back.
   */
  function MatchAt(s: string): (r: Option<(string, nat)>)
    ensures r.Some? ==> 5 <= r.value.1 <= |s|
  {
    if |s| < 2 || s[0] != '{' || s[1] != '{' then None
    else
      var a := SpacesFrom(s, 2);
      var w := WordsFrom(s, a);
      var b := SpacesFrom(s, w);
      if w == a || b + 2 > |s| || s[b] != '}' || s[b + 1] != '}' then None
      else Some((s[a..w], b + 2))
  }

  /** A placeholder as written: braces, optional white space, a key, optional white space, braces. */
  function Placeholder(pre: string, key: string, post: string): string {
    "{{" + pre + key + post + "}}"
  }

  /** The key of a placeholder: one or more word characters. */
  predicate IsKey(key: string) {
    key != [] && forall i :: 0 <= i < |key| ==> IsWordChar(key[i])
  }

  /**
   * What a match looks like: two opening braces, then only white space,
   * word characters and the closing braces, so no further opening brace.
   */
  lemma {:induction false} MatchShape(s: string)
    requires MatchAt(s).Some?
    ensures s[0] == '{' && s[1] == '{'
    ensures forall i :: 2 <= i < MatchAt(s).value.1 ==> s[i] != '{'
  {
    var a := SpacesFrom(s, 2);
    var w := WordsFrom(s, a);
    SpacesFromFacts(s, 2);
    WordsFromFacts(s, a);
    SpacesFromFacts(s, w);
  }

  /** A match ends before any opening brace past its first two characters. */
  lemma {:induction false} MatchStopsBeforeBrace(s: string, k: nat)
    requires MatchAt(s).Some? && 2 <= k < |s| && s[k] == '{'
    ensures MatchAt(s).value.1 <= k
  {
    MatchShape(s);
  }

  /** A match depends only on the characters it covers. */
  lemma {:induction false} MatchOfPrefix(s: string, t: string)
    requires MatchAt(s).Some?
    requires MatchAt(s).value.1 <= |t| && s[..MatchAt(s).value.1] == t[..MatchAt(s).value.1]
    ensures MatchAt(t) == MatchAt(s)
  {
    var n := MatchAt(s).value.1;
    assert forall i :: 0 <= i < n ==> s[i] == t[i] by {
      forall i | 0 <= i < n ensures s[i] == t[i] {
        assert s[..n][i] == t[..n][i];
      }
    }
    var a := SpacesFrom(s, 2);
    var w := WordsFrom(s, a);
    var b := SpacesFrom(s, w);
    SpacesFromFacts(s, 2);
    SpacesFromIs(t, 2, a);
    WordsFromFacts(s, a);
    WordsFromIs(t, a, w);
    SpacesFromFacts(s, w);
    SpacesFromIs(t, w, b);
    assert s[a..w] == t[a..w];
  }

  /** A placeholder as written is matched whole, whatever follows it, and yields its key. */
  lemma {:induction false} MatchOfPlaceholder(pre: string, key: string, post: string, rest: string)
    requires AllSpace(pre) && IsKey(key) && AllSpace(post)
    ensures MatchAt(Placeholder(pre, key, post) + rest) == Some((key, |Placeholder(pre, key, post)|))
  {
    var s := Placeholder(pre, key, post) + rest;
    var a := 2 + |pre|;
    var w := a + |key|;
    var b := w + |post|;
    assert s == "{{" + pre + key + post + "}}" + rest;
    assert forall k :: 2 <= k < a ==> s[k] == pre[k - 2];
    assert forall k :: a <= k < w ==> s[k] == key[k - a];
    assert forall k :: w <= k < b ==> s[k] == post[k - w];
    assert s[a] == key[0] && s[b] == '}' && s[b + 1] == '}';
    SpacesFromIs(s, 2, a);
    WordsFromIs(s, a, w);
    SpacesFromIs(s, w, b);
    assert MatchAt(s) == Some((s[a..w], b + 2));
    SliceOf(s, key, a);
  }

  /** A stretch of `s` that agrees with `x` position by position is `x`. */
  lemma SliceOf(s: string, x: string, i: nat)
    requires i + |x| <= |s|
    requires forall k :: i <= k < i + |x| ==> s[k] == x[k - i]
    ensures s[i..i + |x|] == x
  {
  }

  // ================================================================ compileTemplate

  /** `data[key]` as substituted: its string, or empty when undefined. */
  function Value(data: map<string, string>, key: string): (v: string)
    ensures key in data ==> v == data[key]
    ensures key !in data ==> v == ""
  {
    if key in data then data[key] else ""
  }

  /**
   * `compileTemplate(template, data)`: one left-to-right pass of the global
   * replace. At each position a placeholder is replaced by its value and
   * the scan resumes after it; anything else is copied one character on.
   */
  function Compile(template: string, data: map<string, string>): string
    decreases |template|
  {
    if template == [] then []
    else
      var m := MatchAt(template);
      if m.Some? then Value(data, m.value.0) + Compile(template[m.value.1..], data)
      else [template[0]] + Compile(template[1..], data)
  }

  /** No placeholder starts anywhere in `s`. */
  predicate NoPlaceholder(s: string) {
    forall i :: 0 <= i < |s| ==> MatchAt(s[i..]).None?
  }

  /** Text with no placeholder comes back unchanged. */
  lemma {:induction false} CompileWithoutPlaceholders(template: string, data: map<string, string>)
    requires NoPlaceholder(template)
    ensures Compile(template, data) == template
    decreases |template|
  {
    if template != [] {
      NoPlaceholderTail(template);
      CompileWithoutPlaceholders(template[1..], data);
    }
  }

  /** Text without placeholders has none at its start and none in its tail. */
  lemma {:induction false} NoPlaceholderTail(s: string)
    requires s != [] && NoPlaceholder(s)
    ensures MatchAt(s).None? && NoPlaceholder(s[1..])
  {
    assert MatchAt(s[0..]).None?;
    assert s[0..] == s;
    forall i | 0 <= i < |s[1..]| ensures MatchAt(s[1..][i..]).None? {
      assert s[1..][i..] == s[i + 1..];
      assert MatchAt(s[i + 1..]).None?;
    }
  }

  /** A lone placeholder becomes its value, and that value is not scanned again. */
  lemma {:induction false} CompilePlaceholder(pre: string, key: string, post: string, rest: string,
                                              data: map<string, string>)
    requires AllSpace(pre) && IsKey(key) && AllSpace(post)
    ensures Compile(Placeholder(pre, key, post) + rest, data) == Value(data, key) + Compile(rest, data)
    ensures Compile(Placeholder(pre, key, post), data) == Value(data, key)
  {
    var p := Placeholder(pre, key, post);
    MatchOfPlaceholder(pre, key, post, rest);
    assert (p + rest)[|p|..] == rest;
    MatchOfPlaceholder(pre, key, post, []);
    assert p + [] == p;
    assert p[|p|..] == [];
  }

  /**
   * No match starts at a literal's first character, even reaching into the
   * opening braces of a placeholder after it: past its own first two
   * characters a match holds no opening brace.
   */
  lemma {:induction false} NoMatchBeforeBraces(lit: string, rest: string)
    requires lit != [] && NoPlaceholder(lit)
    requires rest == [] || (|rest| >= 2 && rest[0] == '{' && rest[1] == '{')
    ensures MatchAt(lit + rest).None?
  {
    var s := lit + rest;
    assert MatchAt(lit[0..]).None?;
    assert lit[0..] == lit;
    if MatchAt(s).Some? {
      if |lit| >= 2 {
        if rest != [] {
          MatchStopsBeforeBrace(s, |lit|);
        }
        var n := MatchAt(s).value.1;
        assert s[..n] == lit[..n];
        MatchOfPrefix(s, lit);
      } else {
        MatchStopsBeforeBrace(s, 2);
      }
    }
  }

  /**
   * A stretch of text without placeholders, followed by the end or by the
   * opening braces of a placeholder, is copied unchanged.
   */
  lemma {:induction false} CompileLiteral(lit: string, rest: string, data: map<string, string>)
    requires NoPlaceholder(lit)
    requires rest == [] || (|rest| >= 2 && rest[0] == '{' && rest[1] == '{')
    ensures Compile(lit + rest, data) == lit + Compile(rest, data)
    decreases |lit|
  {
    if lit == [] {
      assert lit + rest == rest;
    } else {
      var s := lit + rest;
      NoMatchBeforeBraces(lit, rest);
      NoPlaceholderTail(lit);
      assert s[0] == lit[0] && s[1..] == lit[1..] + rest;
      CompileCopies(s, data);
      CompileLiteral(lit[1..], rest, data);
      LiteralRejoin(lit, Compile(rest, data));
    }
  }

  /** Where no placeholder starts, `Compile` copies one character and goes on. */
  lemma CompileCopies(s: string, data: map<string, string>)
    requires s != [] && MatchAt(s).None?
    ensures Compile(s, data) == [s[0]] + Compile(s[1..], data)
  {
  }

  lemma LiteralRejoin(lit: string, tail: string)
    requires lit != []
    ensures [lit[0]] + (lit[1..] + tail) == lit + tail
  {
    assert lit == [lit[0]] + lit[1..];
  }

  // ================================================================ a template as pieces

  /** A template cut into literal text and placeholders. */
  datatype Piece = Literal(text: string) | Hole(pre: string, key: string, post: string)

  /** The template text the pieces spell. */
  function Spell(pieces: seq<Piece>): string {
    if pieces == [] then []
    else
      match pieces[0]
      case Literal(t) => t + Spell(pieces[1..])
      case Hole(pre, key, post) => Placeholder(pre, key, post) + Spell(pieces[1..])
  }

  /** The reference result: each literal kept, each placeholder's value inserted as it is. */
  function Fill(pieces: seq<Piece>, data: map<string, string>): string {
    if pieces == [] then []
    else
      match pieces[0]
      case Literal(t) => t + Fill(pieces[1..], data)
      case Hole(_, key, _) => Value(data, key) + Fill(pieces[1..], data)
  }

  /**
   * The pieces describe the template faithfully: placeholders are well
   * formed, literals hold no placeholder, and two literals never meet
   * (their junction could form one).
   */
  predicate Cut(pieces: seq<Piece>) {
    pieces == [] || (HeadCut(pieces) && Cut(pieces[1..]))
  }

  /** The first piece is a placeholder as written, or a literal without one that a placeholder or the end follows. */
  predicate HeadCut(pieces: seq<Piece>)
    requires pieces != []
  {
    match pieces[0]
    case Literal(t) => NoPlaceholder(t) && (|pieces| > 1 ==> pieces[1].Hole?)
    case Hole(pre, key, post) => AllSpace(pre) && IsKey(key) && AllSpace(post)
  }

  /**
   * Compiling a template fills in every placeholder with its value in a
   * single pass: inserted values are never scanned for placeholders.
   */
  lemma {:induction false} CompileFills(pieces: seq<Piece>, data: map<string, string>)
    requires Cut(pieces)
    ensures Compile(Spell(pieces), data) == Fill(pieces, data)
  {
    if pieces != [] {
      var rest := pieces[1..];
      CompileFills(rest, data);
      match pieces[0]
      case Literal(t) =>
        assert NoPlaceholder(t);
        if rest != [] {
          assert rest[0].Hole?;
          var h := rest[0];
          assert Spell(rest) == Placeholder(h.pre, h.key, h.post) + Spell(rest[1..]);
        }
        CompileLiteral(t, Spell(rest), data);
      case Hole(pre, key, post) =>
        CompilePlaceholder(pre, key, post, Spell(rest), data);
    }
  }

  // ================================================================ renderHtml

  /** The options of `renderHtml`; an absent field is undefined. */
  datatype TemplateOptions = TemplateOptions(html: Option<string>, templatePath: Option<string>,
                                             data: Option<map<string, string>>)

  /**
   * `renderHtml(options)`: non-empty inline HTML wins, compiled when data is
   * given; otherwise a non-empty template path is read and compiled the
   * same way; with neither it throws.
   */
  function RenderHtml(options: TemplateOptions, readFile: string -> Result<string, Failure>): (r: Result<string, Failure>)
    ensures options.html.Some? && options.html.value != [] ==>
      r == Ok(if options.data.Some? then Compile(options.html.value, options.data.value) else options.html.value)
    ensures (options.html.None? || options.html.value == []) && options.templatePath.Some? && options.templatePath.value != [] ==>
      var file := readFile(options.templatePath.value);
      (file.Err? ==> r == file)
      && (file.Ok? ==> r == Ok(if options.data.Some? then Compile(file.value, options.data.value) else file.value))
    ensures r.Err? <==>
      (options.html.None? || options.html.value == [])
      && (options.templatePath.None? || options.templatePath.value == [] || readFile(options.templatePath.value).Err?)
    ensures (options.html.None? || options.html.value == []) && (options.templatePath.None? || options.templatePath.value == []) ==>
      r == Err(PlainError("Either html or templatePath must be provided"))
  {
    if options.html.Some? && options.html.value != [] then
      Ok(if options.data.Some? then Compile(options.html.value, options.data.value) else options.html.value)
    else if options.templatePath.Some? && options.templatePath.value != [] then
      var file := readFile(options.templatePath.value);
      if file.Err? then file
      else Ok(if options.data.Some? then Compile(file.value, options.data.value) else file.value)
    else Err(PlainError("Either html or templatePath must be provided"))
  }

  /** Inline HTML without placeholders renders to itself, with or without data. */
  lemma {:induction false} PlainHtmlUnchanged(options: TemplateOptions, readFile: string -> Result<string, Failure>)
    requires options.html.Some? && options.html.value != [] && NoPlaceholder(options.html.value)
    ensures RenderHtml(options, readFile) == Ok(options.html.value)
  {
    if options.data.Some? {
      CompileWithoutPlaceholders(options.html.value, options.data.value);
    }
  }
}
