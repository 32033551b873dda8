/** Namespace slugs over ASCII text: normalising arbitrary input, and the two validators. */
module Slug {
  import opened Wrappers
  import opened Text

  const MIN_LENGTH := 2
  const MAX_LENGTH := 64
  const HYPHENS: set<char> := {'-'}

  const RESERVED: set<string> := {
    "admin", "api", "dashboard", "search", "auth", "me", "global", "system", "static", "assets", "health"
  }

  // ----- ASCII character classes -----

  predicate IsUpper(c: char) {
    'A' <= c <= 'Z'
  }

  predicate IsLowerOrDigit(c: char) {
    'a' <= c <= 'z' || '0' <= c <= '9'
  }

  /** The ASCII letters and digits. */
  predicate IsAlnum(c: char) {
    IsUpper(c) || IsLowerOrDigit(c)
  }

  /** The ASCII characters of the Unicode symbol categories. */
  predicate IsSymbol(c: char) {
    c in {'$', '+', '<', '=', '>', '^', '`', '|', '~'}
  }

  // ----- Normalising -----

  /** Characters other than letters, digits and hyphens become hyphens. */
  function Hyphenate(s: string): (r: string)
    ensures |r| == |s|
    ensures forall i :: 0 <= i < |s| ==> r[i] == if IsAlnum(s[i]) then s[i] else '-'
  {
    seq(|s|, i requires 0 <= i < |s| => if IsAlnum(s[i]) then s[i] else '-')
  }

  /** Runs of hyphens become single ones. */
  function Collapse(s: string): (r: string)
    ensures |r| <= |s|
    ensures s != "" ==> r != "" && r[0] == s[0]
  {
    if s == "" then ""
    else if |s| > 1 && s[0] == '-' && s[1] == '-' then Collapse(s[1..])
    else [s[0]] + Collapse(s[1..])
  }

  /** The slug before its length is looked at. */
  function Normal(input: string): string {
    Trim(Collapse(Hyphenate(Trim(Fold(input), SPACES))), HYPHENS)
  }

  datatype SlugifyError = TooShortToSlugify

  function Slugify(input: string): Result<string, SlugifyError> {
    var s := Normal(input);
    if |s| < MIN_LENGTH then Err(TooShortToSlugify)
    else
      var s := if |s| > MAX_LENGTH then s[..MAX_LENGTH] else s;
      Ok(Trim(s, HYPHENS))
  }

  // ----- Validating -----

  predicate DoubleHyphen(s: string) {
    exists i :: 0 <= i < |s| - 1 && s[i] == '-' && s[i + 1] == '-'
  }

  predicate Edge(c: char) {
    IsAlnum(c) || IsSymbol(c)
  }

  /** The pattern: at least two characters, letters, digits, symbols or hyphens, with no hyphen at either end. */
  predicate MatchesPattern(s: string) {
    && |s| >= 2 && Edge(s[0]) && Edge(s[|s| - 1])
    && forall i :: 0 <= i < |s| ==> Edge(s[i]) || s[i] == '-'
  }

  datatype Code = TooShort | TooLong | Reserved | Uppercase | Underscore | LeadingHyphen | TrailingHyphen
    | DoubleHyphened
    | InvalidFormat

  /** `SlugValidator.Validate`. */
  function ValidateCode(s: string): Option<Code> {
    if |s| < MIN_LENGTH then Some(TooShort)
    else if |s| > MAX_LENGTH then Some(TooLong)
    else if s in RESERVED then Some(Reserved)
    else if exists i :: 0 <= i < |s| && IsUpper(s[i]) then Some(Uppercase)
    else if DoubleHyphen(s) then Some(DoubleHyphened)
    else if !MatchesPattern(s) then Some(InvalidFormat)
    else None
  }

  /** The package-level `Validate`. */
  function Validate(s: string): Option<Code> {
    if |s| < MIN_LENGTH then Some(TooShort)
    else if |s| > MAX_LENGTH then Some(TooLong)
    else if s in RESERVED then Some(Reserved)
    else if exists i :: 0 <= i < |s| && IsUpper(s[i]) then Some(Uppercase)
    else if '_' in s then Some(Underscore)
    else if s[0] == '-' then Some(LeadingHyphen)
    else if s[|s| - 1] == '-' then Some(TrailingHyphen)
    else if DoubleHyphen(s) then Some(DoubleHyphened)
    else if !MatchesPattern(s) then Some(InvalidFormat)
    else None
  }

  /** The two validators accept the same slugs. */
  lemma ValidatorsAgree(s: string)
    ensures ValidateCode(s).None? <==> Validate(s).None?
  {
    if |s| >= 2 && '_' in s {
      var i :| 0 <= i < |s| && s[i] == '_';
      assert !Edge(s[i]);
    }
  }

  /** The characters of a slug but for the hyphen. */
  predicate SlugChar(c: char) {
    || 'a' <= c <= 'z' || '0' <= c <= '9'
    || c == '$' || c == '+' || c == '<' || c == '=' || c == '>' || c == '^' || c == '`' || c == '|' || c == '~'
  }

  lemma ClassesAre(c: char)
    ensures SlugChar(c) <==> Edge(c) && !IsUpper(c)
    ensures IsAlnum(c) <==> 'a' <= c <= 'z' || 'A' <= c <= 'Z' || '0' <= c <= '9'
    ensures !SlugChar('_') && !SlugChar('-')
  {
  }

  lemma PatternIs(s: string)
    requires |s| >= 2
    ensures MatchesPattern(s) && (forall i :: 0 <= i < |s| ==> !IsUpper(s[i])) <==>
      && (forall i :: 0 <= i < |s| ==> SlugChar(s[i]) || s[i] == '-')
      && s[0] != '-' && s[|s| - 1] != '-'
  {
    forall i | 0 <= i < |s|
      ensures SlugChar(s[i]) <==> Edge(s[i]) && !IsUpper(s[i])
    {
      ClassesAre(s[i]);
    }
    ClassesAre('-');
    assert !IsUpper('-') && !Edge('-');
    hide IsUpper, Edge, SlugChar;
  }

  /** What either validator accepts. */
  lemma ValidIff(s: string)
    ensures Validate(s) == None <==>
      && 2 <= |s| <= 64
      && s !in {"admin", "api", "dashboard", "search", "auth", "me", "global", "system", "static", "assets", "health"}
      && (forall i :: 0 <= i < |s| ==> SlugChar(s[i]) || s[i] == '-')
      && s[0] != '-' && s[|s| - 1] != '-'
      && (forall i :: 0 <= i < |s| - 1 ==> !(s[i] == '-' && s[i + 1] == '-'))
  {
    if |s| >= 2 {
      PatternIs(s);
      ClassesAre('_');
      hide MatchesPattern, IsUpper, SlugChar;
    }
  }

  /** The defect that `Validate` reports: the first in this order. */
  lemma ValidateTells(s: string)
    ensures Validate(s) == Some(TooShort) <==> |s| < 2
    ensures Validate(s) == Some(TooLong) <==> |s| > 64
    ensures Validate(s) == Some(Reserved) <==>
      s in {"admin", "api", "dashboard", "search", "auth", "me", "global", "system", "static", "assets", "health"}
    ensures Validate(s) == Some(Uppercase) ==> exists i :: 0 <= i < |s| && 'A' <= s[i] <= 'Z'
    ensures Validate(s) == Some(Underscore) ==> '_' in s
    ensures Validate(s) == Some(LeadingHyphen) ==> s != "" && s[0] == '-'
    ensures Validate(s) == Some(TrailingHyphen) ==> s != "" && s[|s| - 1] == '-'
    ensures Validate(s) == Some(DoubleHyphened) ==> exists i :: 0 <= i < |s| - 1 && s[i] == '-' && s[i + 1] == '-'
    ensures Validate(s) == Some(InvalidFormat) ==>
      '_' !in s && s[0] != '-' && s[|s| - 1] != '-'
      && (forall i :: 0 <= i < |s| ==> !('A' <= s[i] <= 'Z'))
      && forall i :: 0 <= i < |s| - 1 ==> !(s[i] == '-' && s[i + 1] == '-')
  {
  }

  // ----- What normalising yields -----

  /** Lower-case letters, digits and single hyphens, none at the ends. */
  predicate Kebab(s: string) {
    && (forall i :: 0 <= i < |s| ==> IsLowerOrDigit(s[i]) || s[i] == '-')
    && Tight(s, HYPHENS)
    && !DoubleHyphen(s)
  }

  lemma {:induction false} CollapseSingles(s: string)
    requires forall i :: 0 <= i < |s| ==> IsLowerOrDigit(s[i]) || s[i] == '-'
    ensures !DoubleHyphen(Collapse(s))
    ensures forall i :: 0 <= i < |Collapse(s)| ==> IsLowerOrDigit(Collapse(s)[i]) || Collapse(s)[i] == '-'
    decreases |s|
  {
    if s != "" {
      CollapseSingles(s[1..]);
      var rest := Collapse(s[1..]);
      if Collapse(s) == [s[0]] + rest {
        forall i | 0 <= i < |rest|
          ensures !(Collapse(s)[i] == '-' && Collapse(s)[i + 1] == '-')
        {
          assert i > 0 ==> !(rest[i - 1] == '-' && rest[i] == '-');
        }
      }
    }
  }

  lemma SliceKeepsSingles(a: string, s: string, b: string)
    requires !DoubleHyphen(a + s + b)
    ensures !DoubleHyphen(s)
  {
    var t := a + s + b;
    forall i | 0 <= i < |s| - 1
      ensures !(s[i] == '-' && s[i + 1] == '-')
    {
      assert t[|a| + i] == s[i] && t[|a| + i + 1] == s[i + 1];
    }
  }

  lemma TrimKeepsSingles(s: string, cut: set<char>)
    requires !DoubleHyphen(s)
    ensures !DoubleHyphen(Trim(s, cut))
  {
    var a, b := TrimParts(s, cut);
    SliceKeepsSingles(a, Trim(s, cut), b);
  }

  /** Truncating single-hyphened text that starts with no hyphen costs at most one more character. */
  lemma TruncatedLength(s: string)
    requires s != "" && s[0] != '-' && !DoubleHyphen(s)
    ensures |Trim(s, HYPHENS)| >= |s| - 1
  {
    var n := |s| - 1;
    if s[n] == '-' {
      assert s[n - 1] != '-';
      assert s == "" + s[..n] + "-";
      TrimPadded("", s[..n], "-", HYPHENS);
    } else {
      TrimTight(s, HYPHENS);
    }
  }

  lemma NormalIsKebab(input: string)
    ensures Kebab(Normal(input))
  {
    var t := Trim(Fold(input), SPACES);
    assert forall i :: 0 <= i < |t| ==> !IsUpper(t[i]) by {
      forall i | 0 <= i < |t|
        ensures !IsUpper(t[i])
      {
        assert t[i] in Fold(input);
      }
    }
    CollapseSingles(Hyphenate(t));
    var c := Collapse(Hyphenate(t));
    TrimKeepsSingles(c, HYPHENS);
    var n := Trim(c, HYPHENS);
    forall i | 0 <= i < |n|
      ensures IsLowerOrDigit(n[i]) || n[i] == '-'
    {
      assert n[i] in c;
    }
  }

  /** Every slug made is 2 to 64 characters of lower-case letters, digits and single inner hyphens. */
  lemma SlugifyShape(input: string)
    requires Slugify(input).Ok?
    ensures Kebab(Slugify(input).value)
    ensures 2 <= |Slugify(input).value| <= 64
  {
    NormalIsKebab(input);
    var n := Normal(input);
    var s := if |n| > MAX_LENGTH then n[..MAX_LENGTH] else n;
    assert "" + s + n[|s|..] == n;
    SliceKeepsSingles("", s, n[|s|..]);
    TrimKeepsSingles(s, HYPHENS);
    TruncatedLength(s);
    TrimTight(n, HYPHENS);
    var r := Trim(s, HYPHENS);
    forall i | 0 <= i < |r|
      ensures IsLowerOrDigit(r[i]) || r[i] == '-'
    {
      assert r[i] in s && r[i] in n;
    }
  }

  lemma {:induction false} CollapseNothing(s: string)
    requires !DoubleHyphen(s)
    ensures Collapse(s) == s
    decreases |s|
  {
    if s != "" {
      assert [s[0]] + s[1..] + "" == s;
      SliceKeepsSingles([s[0]], s[1..], "");
      CollapseNothing(s[1..]);
    }
  }

  lemma NormalFixed(s: string)
    requires Kebab(s)
    ensures Normal(s) == s
  {
    assert Fold(s) == s;
    TrimTight(s, SPACES);
    assert Hyphenate(s) == s;
    CollapseNothing(s);
    TrimTight(s, HYPHENS);
  }

  /** The fixed points of `Slugify` are exactly the texts of the shape it makes. */
  lemma SlugifyFixedIff(s: string)
    ensures Slugify(s) == Ok(s) <==> Kebab(s) && 2 <= |s| <= 64
  {
    if Slugify(s) == Ok(s) {
      SlugifyShape(s);
    }
    if Kebab(s) && MIN_LENGTH <= |s| <= MAX_LENGTH {
      NormalFixed(s);
      TrimTight(s, HYPHENS);
    }
  }

  lemma SlugifyIdempotent(input: string)
    requires Slugify(input).Ok?
    ensures Slugify(Slugify(input).value) == Slugify(input)
  {
    SlugifyShape(input);
    SlugifyFixedIff(Slugify(input).value);
  }

  /** A slug made passes both validators unless it is reserved. */
  lemma SlugifyValidates(input: string)
    requires Slugify(input).Ok?
    ensures Validate(Slugify(input).value).None? <==> Slugify(input).value !in RESERVED
  {
    SlugifyShape(input);
    var s := Slugify(input).value;
    forall i | 0 <= i < |s|
      ensures !IsUpper(s[i]) && s[i] != '_' && (Edge(s[i]) || s[i] == '-')
    {
    }
  }

  /** Of the valid slugs, normalising leaves alone exactly those without symbols. */
  lemma ValidFixedIff(s: string)
    requires Validate(s).None?
    ensures Slugify(s) == Ok(s) <==> forall i :: 0 <= i < |s| ==> !IsSymbol(s[i])
  {
    hide Slugify;
    SlugifyFixedIff(s);
    forall i | 0 <= i < |s|
      ensures IsLowerOrDigit(s[i]) || s[i] == '-' <==> !IsSymbol(s[i])
    {
      assert !IsUpper(s[i]) && (Edge(s[i]) || s[i] == '-');
    }
    hide IsLowerOrDigit, IsSymbol, MatchesPattern;
  }

  // ----- What normalising means -----

  /** The maximal runs of letters and digits, in order. */
  function Words(s: string): (words: seq<string>)
    ensures forall i :: 0 <= i < |words| ==> words[i] != ""
    decreases |s|
  {
    if s == "" then []
    else if !IsAlnum(s[0]) then Words(s[1..])
    else
      var n := RunLength(s);
      [s[..n]] + Words(s[n..])
  }

  /** The length of the run of letters and digits at the start. */
  function RunLength(s: string): (n: nat)
    ensures n <= |s|
    ensures s != "" && IsAlnum(s[0]) ==> n > 0
    ensures forall i :: 0 <= i < n ==> IsAlnum(s[i])
    ensures n < |s| ==> !IsAlnum(s[n])
  {
    if s == "" || !IsAlnum(s[0]) then 0 else 1 + RunLength(s[1..])
  }

  predicate NoAlnum(s: string) {
    forall i :: 0 <= i < |s| ==> !IsAlnum(s[i])
  }

  lemma {:induction false} WordsAfter(a: string, s: string)
    requires NoAlnum(a)
    ensures Words(a + s) == Words(s)
    decreases |a|
  {
    if a == "" {
      assert a + s == s;
    } else {
      assert (a + s)[1..] == a[1..] + s;
      WordsAfter(a[1..], s);
    }
  }

  lemma {:induction false} RunBefore(s: string, b: string)
    requires NoAlnum(b)
    ensures RunLength(s + b) == RunLength(s)
    decreases |s|
  {
    if s != "" {
      assert (s + b)[1..] == s[1..] + b;
      RunBefore(s[1..], b);
    }
  }

  lemma {:induction false} WordsBefore(s: string, b: string)
    requires NoAlnum(b)
    ensures Words(s + b) == Words(s)
    decreases |s|
  {
    if s == "" {
      assert s + b == b == b + "";
      WordsAfter(b, "");
    } else if !IsAlnum(s[0]) {
      assert (s + b)[1..] == s[1..] + b;
      WordsBefore(s[1..], b);
    } else {
      var n := RunLength(s);
      RunBefore(s, b);
      assert (s + b)[n..] == s[n..] + b && (s + b)[..n] == s[..n];
      WordsBefore(s[n..], b);
    }
  }

  lemma WordsTrimmed(s: string)
    ensures Words(Trim(s, SPACES)) == Words(s)
  {
    var a, b := TrimParts(s, SPACES);
    var m := Trim(s, SPACES);
    assert s == a + (m + b);
    WordsAfter(a, m + b);
    WordsBefore(m, b);
  }

  /** A run of letters and digits passes through unchanged. */
  lemma {:induction false} RunCollapses(s: string)
    ensures Collapse(Hyphenate(s)) == s[..RunLength(s)] + Collapse(Hyphenate(s[RunLength(s)..]))
    decreases |s|
  {
    if s == "" || !IsAlnum(s[0]) {
      assert s[RunLength(s)..] == s;
    } else {
      var n := RunLength(s[1..]);
      RunCollapses(s[1..]);
      LetterCollapses(s);
      assert RunLength(s) == n + 1;
      hide Collapse, Hyphenate, IsAlnum, RunLength;
      LetterFirst(s, n, Collapse(Hyphenate(s[1..][n..])));
    }
  }

  lemma LetterCollapses(s: string)
    requires s != "" && IsAlnum(s[0])
    ensures Collapse(Hyphenate(s)) == [s[0]] + Collapse(Hyphenate(s[1..]))
  {
    assert Hyphenate(s)[1..] == Hyphenate(s[1..]);
  }

  lemma LetterFirst(s: string, n: nat, rest: string)
    requires n + 1 <= |s|
    ensures s[1..][n..] == s[n + 1..] && [s[0]] + (s[1..][..n] + rest) == s[..n + 1] + rest
  {
    assert [s[0]] + s[1..][..n] == s[..n + 1];
  }

  /** Any other character becomes a hyphen, unless one follows anyway. */
  lemma OtherCollapses(s: string)
    requires s != "" && !IsAlnum(s[0])
    ensures Collapse(Hyphenate(s)) ==
      (if |s| > 1 && !IsAlnum(s[1]) then "" else "-") + Collapse(Hyphenate(s[1..]))
  {
    assert Hyphenate(s)[1..] == Hyphenate(s[1..]);
    var rest := Collapse(Hyphenate(s[1..]));
    assert "" + rest == rest;
  }

  /** Hyphenated and collapsed text is its words joined by hyphens, but for a hyphen at either end. */
  lemma {:induction false} CollapsedWords(s: string) returns (a: string, b: string)
    ensures Collapse(Hyphenate(s)) == a + (Join(Words(s), '-') + b)
    ensures a == if s == "" || IsAlnum(s[0]) then "" else "-"
    ensures Made(b, HYPHENS) && (Words(s) == [] ==> b == "")
    decreases |s|
  {
    if s == "" {
      a, b := "", "";
    } else if !IsAlnum(s[0]) {
      a, b := CollapsedWords(s[1..]);
      OtherCollapses(s);
      assert Words(s) == Words(s[1..]);
      hide Collapse, Hyphenate, Join, Words;
      OneHyphen(a, Join(Words(s), '-') + b);
      a := "-";
    } else {
      RunCollapses(s);
      var n := RunLength(s);
      a, b := CollapsedWords(s[n..]);
      assert Words(s) == [s[..n]] + Words(s[n..]);
      hide Collapse, Hyphenate, Join, Words;
      b := WordBefore(s[..n], a, Words(s[n..]), b);
      a := "";
      assert a + (Join(Words(s), '-') + b) == Join(Words(s), '-') + b;
    }
  }

  lemma OneHyphen(a: string, rest: string)
    requires a == "" || a == "-"
    ensures (if a == "-" then "" else "-") + (a + rest) == "-" + rest
  {
    assert "" + rest == rest;
    assert "" + ("-" + rest) == "-" + rest;
  }

  /** One more word in front of joined words. */
  lemma WordBefore(word: string, a: string, rest: seq<string>, b: string) returns (b': string)
    requires Made(a, HYPHENS) && (rest != [] ==> a == "-")
    requires Made(b, HYPHENS) && (rest == [] ==> b == "")
    ensures word + (a + (Join(rest, '-') + b)) == Join([word] + rest, '-') + b' && Made(b', HYPHENS)
  {
    b' := if rest == [] then a else b;
    assert ([word] + rest)[1..] == rest;
    if rest == [] {
      assert a + ("" + b) == a;
    } else {
      assert word + (a + (Join(rest, '-') + b)) == word + ['-'] + Join(rest, '-') + b;
    }
  }

  lemma {:induction false} JoinTight(words: seq<string>)
    requires words != [] && forall i :: 0 <= i < |words| ==> words[i] != "" && '-' !in words[i]
    ensures Tight(Join(words, '-'), HYPHENS) && Join(words, '-') != ""
    decreases |words|
  {
    if |words| > 1 {
      JoinTight(words[1..]);
    }
  }

  lemma {:induction false} WordsAlnum(s: string)
    ensures forall i :: 0 <= i < |Words(s)| ==> '-' !in Words(s)[i]
    decreases |s|
  {
    if s != "" && !IsAlnum(s[0]) {
      WordsAlnum(s[1..]);
    } else if s != "" {
      WordsAlnum(s[RunLength(s)..]);
    }
  }

  /** The slug, before truncation, is the words of the lower-case input joined by hyphens. */
  lemma NormalIsWords(input: string)
    ensures Normal(input) == Join(Words(Fold(input)), '-')
  {
    var t := Trim(Fold(input), SPACES);
    var a, b := CollapsedWords(t);
    WordsTrimmed(Fold(input));
    var words := Words(t);
    WordsAlnum(t);
    if words != [] {
      JoinTight(words);
    }
    assert a + (Join(words, '-') + b) == a + Join(words, '-') + b;
    TrimPadded(a, Join(words, '-'), b, HYPHENS);
  }

  /**
   What `Slugify` returns: the words, in lower case, joined by hyphens, cut to 64 characters and not after a hyphen.
   */
  lemma SlugifyIs(input: string)
    ensures var n := Join(Words(Fold(input)), '-');
      Slugify(input) ==
        if |n| < 2 then Err(TooShortToSlugify)
        else if |n| <= 64 then Ok(n)
        else if n[63] == '-' then Ok(n[..63])
        else Ok(n[..64])
  {
    NormalIsWords(input);
    NormalIsKebab(input);
    var n := Normal(input);
    if |n| > 64 {
      CutIs(n);
    } else if |n| >= 2 {
      TrimTight(n, HYPHENS);
    }
    hide Normal, Words, Trim, Join;
  }

  lemma CutIs(n: string)
    requires Kebab(n) && |n| > 64
    ensures Trim(n[..64], HYPHENS) == if n[63] == '-' then n[..63] else n[..64]
  {
    hide Trim;
    assert n[0] != '-';
    if n[63] == '-' {
      assert n[62] != '-';
      assert n[..63][0] == n[0] && n[..63][62] == n[62];
      assert "" + n[..63] + "-" == n[..64];
      TrimPadded("", n[..63], "-", HYPHENS);
    } else {
      assert n[..64][0] == n[0] && n[..64][63] == n[63];
      TrimTight(n[..64], HYPHENS);
    }
  }
}
