/**
 * The JavaScript string operations the services rely on, stated over
 * `seq<char>`: the `\s` class and `trim`, `split` on one character and
 * `join`, ASCII `toLowerCase`, `includes`, decimal numerals and the prefix
 * that `parseInt(…, 10)` reads.
 */
module Text {
  import opened Wrappers

  /** JavaScript's WhiteSpace and LineTerminator code points: what `\s` matches and what `trim` removes. */
  predicate IsSpace(c: char) {
    c == ' ' || ('\t' <= c <= '\r') || ('\U{00A0}' <= c && IsWideSpace(c))
  }

  /** The white-space code points beyond ASCII. */
  predicate IsWideSpace(c: char) {
    c == '\U{00A0}' || c == '\U{1680}' || ('\U{2000}' <= c <= '\U{200A}')
    || c == '\U{2028}' || c == '\U{2029}' || c == '\U{202F}' || c == '\U{205F}'
    || c == '\U{3000}' || c == '\U{FEFF}'
  }

  /** `\d` */
  predicate IsDigit(c: char) { '0' <= c <= '9' }

  /** `\w` */
  predicate IsWordChar(c: char) {
    ('a' <= c <= 'z') || ('A' <= c <= 'Z') || IsDigit(c) || c == '_'
  }

  predicate AllSpace(s: string) { forall i :: 0 <= i < |s| ==> IsSpace(s[i]) }

  predicate AllDigits(s: string) { forall i :: 0 <= i < |s| ==> IsDigit(s[i]) }

  // ---------------------------------------------------------------- trim

  /** `s` without its leading white space (its properties: TrimStartFacts). */
  function TrimStart(s: string): (r: string)
    ensures |r| <= |s|
  {
    if s == [] || !IsSpace(s[0]) then s else TrimStart(s[1..])
  }

  /** TrimStart cuts a white-space prefix and leaves a string that does not begin with white space. */
  lemma {:induction false} TrimStartFacts(s: string)
    ensures TrimStart(s) == s[|s| - |TrimStart(s)|..]
    ensures AllSpace(s[..|s| - |TrimStart(s)|])
    ensures TrimStart(s) == [] || !IsSpace(TrimStart(s)[0])
  {
    if s != [] && IsSpace(s[0]) {
      var t := s[1..];
      TrimStartFacts(t);
      var n := |s| - |TrimStart(t)|;
      assert TrimStart(s) == TrimStart(t);
      assert s[n..] == t[n - 1..];
      assert s[..n] == [s[0]] + t[..n - 1];
    }
  }

  /** `s` without its trailing white space (its properties: TrimEndFacts). */
  function TrimEnd(s: string): (r: string)
    ensures |r| <= |s|
  {
    if s == [] || !IsSpace(s[|s| - 1]) then s else TrimEnd(s[..|s| - 1])
  }

  /** TrimEnd cuts a white-space suffix and leaves a string that does not end with white space. */
  lemma {:induction false} TrimEndFacts(s: string)
    ensures TrimEnd(s) == s[..|TrimEnd(s)|]
    ensures AllSpace(s[|TrimEnd(s)|..])
    ensures TrimEnd(s) == [] || !IsSpace(TrimEnd(s)[|TrimEnd(s)| - 1])
  {
    if s != [] && IsSpace(s[|s| - 1]) {
      var p := s[..|s| - 1];
      TrimEndFacts(p);
      assert s[|TrimEnd(s)|..] == p[|TrimEnd(p)|..] + [s[|s| - 1]];
    }
  }

  /** `String.prototype.trim` (its properties: TrimParts). */
  function Trim(s: string): (r: string)
    ensures |r| <= |s|
  {
    TrimEnd(TrimStart(s))
  }

  /** The trim of `s` is the slice of `s` between a white-space prefix and a white-space suffix, and neither of its ends is white space. */
  lemma {:induction false} TrimParts(s: string)
    ensures var k, r := |s| - |TrimStart(s)|, Trim(s);
      k + |r| <= |s| && r == s[k..k + |r|] && AllSpace(s[..k]) && AllSpace(s[k + |r|..])
    ensures Trim(s) == [] || (!IsSpace(Trim(s)[0]) && !IsSpace(Trim(s)[|Trim(s)| - 1]))
  {
    var a := TrimStart(s);
    TrimStartFacts(s);
    TrimEndFacts(a);
    var r := TrimEnd(a);
    var k := |s| - |a|;
    assert s[k + |r|..] == a[|r|..];
    if r != [] {
      assert r[0] == a[0];
    }
  }

  /** A string whose ends are not white space is its own trim. */
  lemma {:induction false} TrimOfTrimmed(s: string)
    requires s == [] || (!IsSpace(s[0]) && !IsSpace(s[|s| - 1]))
    ensures Trim(s) == s
  {
  }

  /** Trimming twice is trimming once. */
  lemma {:induction false} TrimIdempotent(s: string)
    ensures Trim(Trim(s)) == Trim(s)
  {
    TrimParts(s);
    TrimOfTrimmed(Trim(s));
  }

  /** Leading white space does not survive TrimStart. */
  lemma {:induction false} TrimStartPadded(a: string, v: string)
    requires AllSpace(a)
    ensures TrimStart(a + v) == TrimStart(v)
  {
    if a != [] {
      assert (a + v)[1..] == a[1..] + v;
      TrimStartPadded(a[1..], v);
    } else {
      assert a + v == v;
    }
  }

  /** Trailing white space does not survive TrimEnd. */
  lemma {:induction false} TrimEndPadded(v: string, b: string)
    requires AllSpace(b)
    ensures TrimEnd(v + b) == TrimEnd(v)
  {
    if b != [] {
      assert (v + b)[..|v + b| - 1] == v + b[..|b| - 1];
      TrimEndPadded(v, b[..|b| - 1]);
    } else {
      assert v + b == v;
    }
  }

  /** Padding a string with white space on both sides does not change its trim. */
  lemma {:induction false} TrimPadded(a: string, u: string, b: string)
    requires AllSpace(a) && AllSpace(b)
    ensures Trim(a + u + b) == Trim(u)
  {
    assert a + u + b == a + (u + b);
    TrimStartPadded(a, u + b);
    TrimStartOfPadded(u, b);
    if TrimStart(u) != [] {
      TrimEndPadded(TrimStart(u), b);
    }
  }

  /** White space appended to `u` stays after its trimmed start, or vanishes with it when `u` is all white space. */
  lemma {:induction false} TrimStartOfPadded(u: string, b: string)
    requires AllSpace(b)
    ensures TrimStart(u + b) == if TrimStart(u) == [] then [] else TrimStart(u) + b
  {
    if u == [] {
      TrimStartPadded(b, []);
      assert b + [] == b && u + b == b;
    } else if IsSpace(u[0]) {
      assert (u + b)[1..] == u[1..] + b;
      TrimStartOfPadded(u[1..], b);
    }
  }

  // ---------------------------------------------------------------- lower case

  /** `toLowerCase` on one character, for the ASCII letters. */
  function LowerChar(c: char): char {
    if 'A' <= c <= 'Z' then (c as int + 32) as char else c
  }

  /** `toLowerCase`, for the ASCII letters. */
  function Lower(s: string): (r: string)
    ensures |r| == |s|
    ensures forall i :: 0 <= i < |s| ==> r[i] == LowerChar(s[i])
  {
    if s == [] then [] else [LowerChar(s[0])] + Lower(s[1..])
  }

  /** No ASCII capital letter occurs in `s`. */
  predicate IsLowerCase(s: string) {
    forall i :: 0 <= i < |s| ==> !('A' <= s[i] <= 'Z')
  }

  /** Lower-casing yields a lower-case string, and leaves lower-case strings as they are. */
  lemma LowerIsLowerCase(s: string)
    ensures IsLowerCase(Lower(s))
    ensures IsLowerCase(s) ==> Lower(s) == s
    ensures Lower(Lower(s)) == Lower(s)
  {
  }

  // ---------------------------------------------------------------- split and join

  /** The first position of `c` in `s`. */
  function IndexOf(s: string, c: char): (i: nat)
    requires c in s
    ensures i < |s| && s[i] == c && c !in s[..i]
  {
    if s[0] == c then 0 else 1 + IndexOf(s[1..], c)
  }

  /** The first position holding `c` is where IndexOf finds it. */
  lemma {:induction false} IndexOfFirst(s: string, c: char, k: nat)
    requires k < |s| && s[k] == c
    requires forall j :: 0 <= j < k ==> s[j] != c
    ensures IndexOf(s, c) == k
  {
    if k > 0 {
      IndexOfFirst(s[1..], c, k - 1);
    }
  }

  /** `parts.join(sep)`. */
  function Join(parts: seq<string>, sep: char): string {
    if |parts| == 0 then []
    else if |parts| == 1 then parts[0]
    else parts[0] + [sep] + Join(parts[1..], sep)
  }

  /** `s.split(sep)` for a one-character separator: at least one part, no part holding `sep`, and joining them gives `s` back. */
  function Split(s: string, sep: char): (parts: seq<string>)
    ensures |parts| >= 1
    ensures forall i :: 0 <= i < |parts| ==> sep !in parts[i]
    ensures Join(parts, sep) == s
    decreases |s|
  {
    if sep !in s then [s]
    else
      var i := IndexOf(s, sep);
      var rest := Split(s[i + 1..], sep);
      assert s == s[..i] + [sep] + s[i + 1..];
      [s[..i]] + rest
  }

  /** Splitting a join of parts that do not hold the separator gives the parts back. */
  lemma {:induction false} SplitOfJoin(parts: seq<string>, sep: char)
    requires |parts| >= 1
    requires forall i :: 0 <= i < |parts| ==> sep !in parts[i]
    ensures Split(Join(parts, sep), sep) == parts
  {
    if |parts| > 1 {
      var s, p0, rest := Join(parts, sep), parts[0], Join(parts[1..], sep);
      assert s == p0 + [sep] + rest;
      assert s[|p0|] == sep;
      assert forall j :: 0 <= j < |p0| ==> s[j] == p0[j] && p0[j] != sep;
      IndexOfFirst(s, sep, |p0|);
      assert s[..|p0|] == p0 && s[|p0| + 1..] == rest;
      SplitOfJoin(parts[1..], sep);
      assert Split(s, sep) == [p0] + Split(rest, sep);
      assert parts == [p0] + parts[1..];
    }
  }

  // ---------------------------------------------------------------- includes

  /** `s.includes(sub)` */
  predicate Contains(s: string, sub: string)
    decreases |s|
  {
    sub <= s || (s != [] && Contains(s[1..], sub))
  }

  /** A string holding `sub` in the middle holds it. */
  lemma {:induction false} ContainsInfix(pre: string, sub: string, post: string)
    ensures Contains(pre + sub + post, sub)
  {
    if pre == [] {
      assert pre + sub + post == sub + post;
    } else {
      assert (pre + sub + post)[1..] == pre[1..] + sub + post;
      ContainsInfix(pre[1..], sub, post);
    }
  }

  /** A string holding `sub` anywhere inside its middle part holds it. */
  lemma {:induction false} ContainsWithin(a: string, b: string, c: string, sub: string)
    requires Contains(b, sub)
    ensures Contains(a + b + c, sub)
    decreases |b|
  {
    if sub <= b {
      var post := b[|sub|..] + c;
      assert a + b + c == a + sub + post;
      ContainsInfix(a, sub, post);
    } else {
      assert a + b + c == (a + [b[0]]) + b[1..] + c;
      ContainsWithin(a + [b[0]], b[1..], c, sub);
    }
  }

  /** An occurrence of `sub` cannot straddle a character that `sub` does not hold. */
  lemma {:induction false} ContainsAround(a: string, c: char, b: string, sub: string)
    requires c !in sub && sub != []
    requires Contains(a + [c] + b, sub)
    ensures Contains(a, sub) || Contains(b, sub)
    decreases |a|
  {
    var s := a + [c] + b;
    if sub <= s {
      assert s[|a|] == c;
      assert |sub| <= |a|;
      assert sub == a[..|sub|];
    } else if a == [] {
      assert s[1..] == b;
    } else {
      assert s[1..] == a[1..] + [c] + b;
      ContainsAround(a[1..], c, b, sub);
      if Contains(a[1..], sub) {
        assert a == [a[0]] + a[1..] + [];
        ContainsWithin([a[0]], a[1..], [], sub);
      }
    }
  }

  /** A part of a join that holds `sub` makes the join hold it. */
  lemma {:induction false} ContainsPartOfJoin(parts: seq<string>, sep: char, k: nat, sub: string)
    requires k < |parts| && Contains(parts[k], sub)
    ensures Contains(Join(parts, sep), sub)
  {
    if |parts| == 1 {
    } else if k == 0 {
      ContainsWithin([], parts[0], [sep] + Join(parts[1..], sep), sub);
      assert [] + parts[0] + ([sep] + Join(parts[1..], sep)) == Join(parts, sep);
    } else {
      ContainsPartOfJoin(parts[1..], sep, k - 1, sub);
      ContainsWithin(parts[0] + [sep], Join(parts[1..], sep), [], sub);
      assert parts[0] + [sep] + Join(parts[1..], sep) + [] == Join(parts, sep);
    }
  }

  /** A join holds `sub`, which lacks the separator, only if some part does. */
  lemma {:induction false} ContainsJoinPart(parts: seq<string>, sep: char, sub: string) returns (k: nat)
    requires sep !in sub && sub != []
    requires Contains(Join(parts, sep), sub)
    ensures k < |parts| && Contains(parts[k], sub)
  {
    if |parts| == 0 {
      assert false;
    } else if |parts| == 1 {
      k := 0;
    } else {
      ContainsAround(parts[0], sep, Join(parts[1..], sep), sub);
      if Contains(parts[0], sub) {
        k := 0;
      } else {
        var j := ContainsJoinPart(parts[1..], sep, sub);
        k := j + 1;
      }
    }
  }

  /** A trimmed string holds only what the string held. */
  lemma {:induction false} ContainsOfTrim(s: string, sub: string)
    requires Contains(Trim(s), sub)
    ensures Contains(s, sub)
  {
    TrimParts(s);
    var k := |s| - |TrimStart(s)|;
    var r := Trim(s);
    assert s == s[..k] + r + s[k + |r|..];
    ContainsWithin(s[..k], r, s[k + |r|..], sub);
  }

  // ---------------------------------------------------------------- numerals

  /** The longest prefix of `s` made of decimal digits (its properties: LeadingDigitsFacts). */
  function LeadingDigits(s: string): (r: string)
    ensures |r| <= |s|
  {
    if s == [] || !IsDigit(s[0]) then [] else [s[0]] + LeadingDigits(s[1..])
  }

  /** LeadingDigits is a prefix of digits that stops before the first non-digit. */
  lemma {:induction false} LeadingDigitsFacts(s: string)
    ensures LeadingDigits(s) == s[..|LeadingDigits(s)|] && AllDigits(LeadingDigits(s))
    ensures |LeadingDigits(s)| < |s| ==> !IsDigit(s[|LeadingDigits(s)|])
  {
    if s != [] && IsDigit(s[0]) {
      LeadingDigitsFacts(s[1..]);
    }
  }

  /** The value of a string of decimal digits. */
  function DigitsValue(s: string): nat
    requires AllDigits(s)
  {
    if s == [] then 0 else DigitsValue(s[..|s| - 1]) * 10 + (s[|s| - 1] as int - '0' as int)
  }

  /** `String(n)` for a natural number: its decimal numeral. */
  function NatToString(n: nat): (r: string)
    ensures r != [] && AllDigits(r)
    ensures DigitsValue(r) == n
  {
    var d := ['0' + (n % 10) as char];
    if n < 10 then d
    else
      var p := NatToString(n / 10);
      assert (p + d)[..|p + d| - 1] == p;
      p + d
  }

  /** `parseInt(s, 10)`: leading white space is skipped, an optional sign is read, then the longest run of digits; no digits is `NaN`. */
  function ParseInt(s: string): (r: Option<int>)
    ensures r.Some? <==> LeadingDigits(SkipSign(TrimStart(s))) != []
  {
    var t := TrimStart(s);
    var digits := LeadingDigits(SkipSign(t));
    LeadingDigitsFacts(SkipSign(t));
    if digits == [] then None
    else if t[0] == '-' then Some(-(DigitsValue(digits) as int))
    else Some(DigitsValue(digits))
  }

  /** What follows an optional leading `+` or `-`. */
  function SkipSign(t: string): (r: string)
    ensures r == t || (t != [] && (t[0] == '+' || t[0] == '-') && r == t[1..])
  {
    if t != [] && (t[0] == '+' || t[0] == '-') then t[1..] else t
  }

  /** `parseInt` of digits after white space gives their value when what follows is not a digit. */
  lemma {:induction false} ParseIntOfNumeral(lead: string, digits: string, rest: string)
    requires AllSpace(lead) && digits != [] && AllDigits(digits)
    requires rest == [] || !IsDigit(rest[0])
    ensures ParseInt(lead + digits + rest) == Some(DigitsValue(digits))
  {
    var s := digits + rest;
    assert lead + digits + rest == lead + s;
    TrimStartPadded(lead, s);
    assert TrimStart(s) == s by { assert !IsSpace(s[0]); }
    assert SkipSign(s) == s;
    LeadingDigitsOf(digits, rest);
  }

  lemma {:induction false} LeadingDigitsOf(digits: string, rest: string)
    requires AllDigits(digits)
    requires rest == [] || !IsDigit(rest[0])
    ensures LeadingDigits(digits + rest) == digits
  {
    if digits != [] {
      assert (digits + rest)[1..] == digits[1..] + rest;
      LeadingDigitsOf(digits[1..], rest);
    } else {
      assert digits + rest == rest;
    }
  }
}
