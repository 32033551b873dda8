/** ASCII text: trimming, lower case, splitting and joining, as the Go `strings` package does them. */
module Text {

  /** The ASCII characters that count as white space. */
  const SPACES: set<char> := {'\t', '\n', '\U{000B}', '\U{000C}', '\r', ' '}

  predicate Made(s: string, cut: set<char>) {
    forall i :: 0 <= i < |s| ==> s[i] in cut
  }

  predicate Blank(s: string) {
    Made(s, SPACES)
  }

  /** Nothing in `cut` at either end. */
  predicate Tight(s: string, cut: set<char>) {
    s != "" ==> s[0] !in cut && s[|s| - 1] !in cut
  }

  function Trim(s: string, cut: set<char>): (r: string)
    ensures Tight(r, cut)
    ensures |r| <= |s|
    ensures forall c :: c in r ==> c in s
  {
    if s == "" then ""
    else if s[0] in cut then Trim(s[1..], cut)
    else if s[|s| - 1] in cut then Trim(s[..|s| - 1], cut)
    else s
  }

  /** What trimming means: the one tight middle of a string padded with characters of `cut`. */
  lemma {:induction false} TrimPadded(a: string, m: string, b: string, cut: set<char>)
    requires Made(a, cut) && Made(b, cut) && Tight(m, cut)
    ensures Trim(a + m + b, cut) == m
    decreases |a| + |b|
  {
    var s := a + m + b;
    if a != "" {
      assert s[1..] == a[1..] + m + b;
      TrimPadded(a[1..], m, b, cut);
    } else if b != "" && m == "" {
      assert s[1..] == "" + "" + b[1..];
      TrimPadded("", "", b[1..], cut);
    } else if b != "" {
      assert s[0] == m[0];
      assert s[..|s| - 1] == "" + m + b[..|b| - 1];
      TrimPadded("", m, b[..|b| - 1], cut);
    } else {
      assert s == m;
    }
  }

  lemma {:induction false} TrimParts(s: string, cut: set<char>) returns (a: string, b: string)
    ensures s == a + Trim(s, cut) + b
    ensures Made(a, cut) && Made(b, cut)
    decreases |s|
  {
    if s == "" {
      a, b := "", "";
    } else if s[0] in cut {
      a, b := TrimParts(s[1..], cut);
      a := [s[0]] + a;
    } else if s[|s| - 1] in cut {
      a, b := TrimParts(s[..|s| - 1], cut);
      b := b + [s[|s| - 1]];
      assert s == s[..|s| - 1] + [s[|s| - 1]];
    } else {
      a, b := "", "";
    }
  }

  lemma TrimTight(s: string, cut: set<char>)
    requires Tight(s, cut)
    ensures Trim(s, cut) == s
  {
    assert "" + s + "" == s;
    TrimPadded("", s, "", cut);
  }

  function Lower(c: char): char {
    if 'A' <= c <= 'Z' then (c as int + 32) as char else c
  }

  /** Lower case; two names are the same up to case when their folds are equal. */
  function Fold(s: string): (r: string)
    ensures |r| == |s|
    ensures forall i :: 0 <= i < |s| ==> r[i] == Lower(s[i])
  {
    seq(|s|, i requires 0 <= i < |s| => Lower(s[i]))
  }

  lemma FoldTwice(s: string)
    ensures Fold(Fold(s)) == Fold(s)
  {
  }

  lemma FoldTight(s: string, t: string)
    requires Fold(s) == Fold(t)
    ensures |s| == |t| && (Tight(s, SPACES) <==> Tight(t, SPACES))
  {
    assert forall i :: 0 <= i < |s| ==> Lower(s[i]) == Fold(s)[i] == Fold(t)[i] == Lower(t[i]);
  }

  function Split(s: string, sep: char): (parts: seq<string>)
    ensures parts != []
  {
    if s == "" then [""]
    else
      var rest := Split(s[1..], sep);
      if s[0] == sep then [""] + rest else [[s[0]] + rest[0]] + rest[1..]
  }

  function Join(parts: seq<string>, sep: char): string {
    if parts == [] then ""
    else if |parts| == 1 then parts[0]
    else parts[0] + [sep] + Join(parts[1..], sep)
  }

  ghost predicate NoneHas(parts: seq<string>, sep: char) {
    forall i :: 0 <= i < |parts| ==> sep !in parts[i]
  }

  /** Splitting undoes joining, for parts free of the separator. */
  lemma {:induction false} SplitJoined(parts: seq<string>, sep: char)
    requires parts != [] && NoneHas(parts, sep)
    ensures Split(Join(parts, sep), sep) == parts
    decreases |parts|
  {
    if |parts| == 1 {
      SplitAround(parts[0], "", sep);
    } else {
      SplitJoined(parts[1..], sep);
      SplitAround(parts[0], Join(parts[1..], sep), sep);
    }
  }

  /** A separator-free start is the first part. */
  lemma {:induction false} SplitAround(first: string, rest: string, sep: char)
    requires sep !in first
    ensures Split(first, sep) == [first]
    ensures Split(first + [sep] + rest, sep) == [first] + Split(rest, sep)
    decreases |first|
  {
    var s := first + [sep] + rest;
    if first == "" {
      assert s[1..] == rest;
    } else {
      SplitAround(first[1..], rest, sep);
      assert [first[0]] + first[1..] == first;
      assert s[1..] == first[1..] + [sep] + rest;
    }
  }

  /** Joining undoes splitting, and no part holds the separator. */
  lemma {:induction false} JoinSplit(s: string, sep: char)
    ensures NoneHas(Split(s, sep), sep)
    ensures Join(Split(s, sep), sep) == s
  {
    if s != "" {
      JoinSplit(s[1..], sep);
      var rest := Split(s[1..], sep);
      if s[0] == sep {
        assert Split(s, sep)[1..] == rest;
      } else {
        assert Split(s, sep)[1..] == rest[1..];
      }
    }
  }
}
