/** Token scopes, stored as the text of a JSON array and read back by splitting that text. */
module Scopes {
  import opened Text

  const QUOTES: set<char> := {'"'}

  function Quote(scope: string): string {
    "\"" + scope + "\""
  }

  function Quoted(scopes: seq<string>): (parts: seq<string>)
    ensures |parts| == |scopes|
  {
    seq(|scopes|, i requires 0 <= i < |scopes| => Quote(scopes[i]))
  }

  /** The text of the array. */
  function Json(scopes: seq<string>): string {
    "[" + Join(Quoted(scopes), ',') + "]"
  }

  method ScopesToJson(scopes: seq<string>) returns (json: string)
    ensures json == Json(scopes)
  {
    if |scopes| == 0 {
      return "[]";
    }
    var quoted := new string[|scopes|](_ => "");
    for i := 0 to |scopes|
      invariant quoted[..i] == Quoted(scopes)[..i]
    {
      quoted[i] := "\"" + scopes[i] + "\"";
    }
    assert quoted[..] == Quoted(scopes);
    json := "[" + Join(quoted[..], ',') + "]";
  }

  /** The scope written in one part: its outer white space and then its quotes removed. */
  function Unquoted(part: string): string {
    Trim(Trim(part, SPACES), QUOTES)
  }

  /** The non-empty scopes of the parts, in order. */
  function Present(parts: seq<string>): (scopes: seq<string>) {
    if parts == [] then []
    else
      var last := Unquoted(parts[|parts| - 1]);
      Present(parts[..|parts| - 1]) + if last == "" then [] else [last]
  }

  /** First occurrences, in order. */
  function Dedup(l: seq<string>): (r: seq<string>)
    ensures forall x :: x in r <==> x in l
    ensures forall i, j :: 0 <= i < j < |r| ==> r[i] != r[j]
  {
    if l == [] then []
    else
      var front, last := l[..|l| - 1], l[|l| - 1];
      assert l == front + [last];
      Dedup(front) + if last in front then [] else [last]
  }

  function Parsed(json: string): seq<string> {
    var s := Trim(json, SPACES);
    if |s| < 2 || s[0] != '[' || s[|s| - 1] != ']' then []
    else Dedup(Present(Split(s[1..|s| - 1], ',')))
  }

  /** An array has both brackets, which are two characters. */
  lemma ParsedArray(json: string)
    ensures var s := Trim(json, SPACES);
      if !("[" <= s) || s == "" || s[|s| - 1] != ']' then Parsed(json) == []
      else |s| >= 2 && Parsed(json) == Dedup(Present(Split(s[1..|s| - 1], ',')))
  {
    hide Trim, Dedup, Present, Split;
  }

  method ParseScopes(json: string) returns (scopes: seq<string>)
    ensures scopes == Parsed(json)
  {
    hide Present, Dedup, Trim, Split;
    ParsedArray(json);
    hide Parsed;
    var s := Trim(json, SPACES);
    if !("[" <= s) || s == "" || s[|s| - 1] != ']' {
      return [];
    }
    var inner := s[1..|s| - 1];
    var parts := Split(inner, ',');
    if Trim(inner, SPACES) == "" {
      BlankInner(inner);
      return [];
    }
    var seen: map<string, bool> := map[];
    scopes := [];
    DedupPresentNone(parts);
    for i := 0 to |parts|
      invariant scopes == Dedup(Present(parts[..i]))
      invariant forall x :: (x in seen && seen[x]) <==> x in scopes
    {
      var scope := Trim(Trim(parts[i], SPACES), QUOTES);
      DedupPresentOne(parts, i);
      if scope == "" {
        continue;
      }
      if !(scope in seen && seen[scope]) {
        seen := seen[scope := true];
        scopes := scopes + [scope];
      }
    }
    assert parts[..|parts|] == parts;
  }

  lemma DedupPresentNone(parts: seq<string>)
    ensures Dedup(Present(parts[..0])) == []
  {
  }

  /** One more part: its scope is added when it is not empty and not seen before. */
  lemma DedupPresentOne(parts: seq<string>, i: nat)
    requires i < |parts|
    ensures var scopes, scope := Dedup(Present(parts[..i])), Unquoted(parts[i]);
      Dedup(Present(parts[..i + 1])) == if scope == "" || scope in scopes then scopes else scopes + [scope]
  {
    hide Unquoted;
    var scope := Unquoted(parts[i]);
    var present := Present(parts[..i]);
    assert parts[..i + 1][..i] == parts[..i];
    assert present + [] == present;
    assert (present + [scope])[..|present|] == present;
    assert Present(parts[..i + 1]) == present + if scope == "" then [] else [scope];
  }

  lemma BlankInner(inner: string)
    requires Trim(inner, SPACES) == ""
    ensures Dedup(Present(Split(inner, ','))) == []
  {
    var a, b := TrimParts(inner, SPACES);
    assert ',' !in inner;
    SplitAround(inner, "", ',');
    assert Split(inner, ',')[..0] == [];
  }

  /** The scopes that survive the trip: not empty, no comma, no quote at either end. */
  predicate Clean(scope: string) {
    scope != "" && ',' !in scope && Tight(scope, QUOTES)
  }

  predicate AllClean(scopes: seq<string>) {
    forall i :: 0 <= i < |scopes| ==> Clean(scopes[i])
  }

  // ----- What parsing yields, for every text -----

  lemma {:induction false} PresentClean(parts: seq<string>)
    requires NoneHas(parts, ',')
    ensures AllClean(Present(parts))
    decreases |parts|
  {
    if parts != [] {
      PresentClean(parts[..|parts| - 1]);
    }
  }

  lemma ParsedClean(json: string)
    ensures AllClean(Parsed(json))
    ensures forall i, j :: 0 <= i < j < |Parsed(json)| ==> Parsed(json)[i] != Parsed(json)[j]
  {
    var s := Trim(json, SPACES);
    if !(|s| < 2 || s[0] != '[' || s[|s| - 1] != ']') {
      var parts := Split(s[1..|s| - 1], ',');
      JoinSplit(s[1..|s| - 1], ',');
      PresentClean(parts);
      forall i | 0 <= i < |Parsed(json)|
        ensures Clean(Parsed(json)[i])
      {
        assert Parsed(json)[i] in Present(parts);
      }
    }
  }

  /** Deduplication is stable: it can be done as the list arrives, and leaves a list without duplicates alone. */
  lemma {:induction false} DedupStable(l: seq<string>, k: nat)
    requires k <= |l|
    ensures Dedup(l[..k]) <= Dedup(l)
    decreases |l|
  {
    if k < |l| {
      DedupStable(l[..|l| - 1], k);
      assert l[..|l| - 1][..k] == l[..k];
    } else {
      assert l[..k] == l;
    }
  }

  lemma {:induction false} DedupDistinct(l: seq<string>)
    requires forall i, j :: 0 <= i < j < |l| ==> l[i] != l[j]
    ensures Dedup(l) == l
    decreases |l|
  {
    if l != [] {
      var front := l[..|l| - 1];
      DedupDistinct(front);
      assert l == front + [l[|l| - 1]] && l[|l| - 1] !in front;
    }
  }

  // ----- The round trip -----

  /** The quoted scopes with white space around each. */
  function Spaced(scopes: seq<string>, before: seq<string>, after: seq<string>): (parts: seq<string>)
    requires |before| == |scopes| == |after|
    ensures |parts| == |scopes|
  {
    seq(|scopes|, i requires 0 <= i < |scopes| => before[i] + Quote(scopes[i]) + after[i])
  }

  ghost predicate AllBlank(spaces: seq<string>) {
    forall i :: 0 <= i < |spaces| ==> Blank(spaces[i])
  }

  lemma UnquoteSpaced(before: string, scope: string, after: string)
    requires Blank(before) && Blank(after) && Clean(scope)
    ensures Unquoted(before + Quote(scope) + after) == scope
    ensures ',' !in before + Quote(scope) + after
  {
    TrimPadded(before, Quote(scope), after, SPACES);
    TrimPadded("\"", scope, "\"", QUOTES);
  }

  lemma {:induction false} PresentSpaced(scopes: seq<string>, before: seq<string>, after: seq<string>)
    requires |before| == |scopes| == |after| && AllBlank(before) && AllBlank(after)
    requires AllClean(scopes)
    ensures Present(Spaced(scopes, before, after)) == scopes
    ensures NoneHas(Spaced(scopes, before, after), ',')
    decreases |scopes|
  {
    if scopes != [] {
      var n := |scopes| - 1;
      PresentSpaced(scopes[..n], before[..n], after[..n]);
      UnquoteSpaced(before[n], scopes[n], after[n]);
      assert Spaced(scopes, before, after)[..n] == Spaced(scopes[..n], before[..n], after[..n]);
      assert scopes == scopes[..n] + [scopes[n]];
    }
  }

  /** Reading back a printed array of comma-free parts. */
  lemma ParsedParts(left: string, parts: seq<string>, right: string)
    requires Blank(left) && Blank(right) && NoneHas(parts, ',')
    ensures Parsed(left + ("[" + Join(parts, ',') + "]") + right) == Dedup(Present(parts))
  {
    hide Join, Dedup, Trim, Unquoted;
    var text := "[" + Join(parts, ',') + "]";
    TrimPadded(left, text, right, SPACES);
    assert text[1..|text| - 1] == Join(parts, ',');
    if parts == [] {
      JoinNone();
      assert Split(Join(parts, ','), ',') == [""];
      assert [""][..0] == [] && Present([]) == [] && Present([""]) == [] + [];
    } else {
      hide Present, Split;
      SplitJoined(parts, ',');
    }
  }

  lemma JoinNone()
    ensures Join([], ',') == "" && Unquoted("") == ""
  {
  }

  /**
   Parsing undoes printing, up to duplicates, for exactly the lists of clean scopes, whatever white space
   is put around the array and around its separators.
   */
  lemma SpacedRoundTrip(
    scopes: seq<string>, before: seq<string>, after: seq<string>, left: string, right: string)
    requires |before| == |scopes| == |after| && AllBlank(before) && AllBlank(after)
    requires Blank(left) && Blank(right)
    ensures Parsed(left + ("[" + Join(Spaced(scopes, before, after), ',') + "]") + right) == Dedup(scopes)
            <==> AllClean(scopes)
  {
    hide Parsed, Join, Dedup, Present, Spaced, Clean;
    var json := left + ("[" + Join(Spaced(scopes, before, after), ',') + "]") + right;
    if AllClean(scopes) {
      PresentSpaced(scopes, before, after);
      ParsedParts(left, Spaced(scopes, before, after), right);
    } else if Parsed(json) == Dedup(scopes) {
      ParsedClean(json);
      forall i | 0 <= i < |scopes|
        ensures Clean(scopes[i])
      {
        assert scopes[i] in Dedup(scopes);
      }
    }
  }

  /** The same without white space around the array. */
  lemma SpacedHere(scopes: seq<string>, before: seq<string>, after: seq<string>)
    requires |before| == |scopes| == |after| && AllBlank(before) && AllBlank(after)
    ensures Parsed("[" + Join(Spaced(scopes, before, after), ',') + "]") == Dedup(scopes) <==> AllClean(scopes)
  {
    NothingAround("[" + Join(Spaced(scopes, before, after), ',') + "]");
    hide *;
    SpacedRoundTrip(scopes, before, after, "", "");
  }

  lemma NothingAround(text: string)
    ensures Blank("") && "" + text + "" == text
  {
  }

  /** The text `scopesToJSON` writes, read back. */
  lemma RoundTrip(scopes: seq<string>)
    ensures Parsed(Json(scopes)) == Dedup(scopes) <==> AllClean(scopes)
  {
    var none := seq(|scopes|, _ => "");
    assert Spaced(scopes, none, none) == Quoted(scopes) by {
      forall i | 0 <= i < |scopes|
        ensures "" + Quote(scopes[i]) + "" == Quote(scopes[i])
      {
      }
    }
    SpacedHere(scopes, none, none);
    hide Parsed, Join, Dedup, Spaced, Quoted, AllClean;
  }

  /** Whatever the text was, printing and parsing again what was read from it changes nothing. */
  lemma ParsedIsNormal(json: string)
    ensures Parsed(Json(Parsed(json))) == Parsed(json)
  {
    ParsedClean(json);
    RoundTrip(Parsed(json));
    DedupDistinct(Parsed(json));
  }

  // ----- The column -----

  /** Scopes that JSON writes as they are: no quotes, no escapes, no control characters. */
  predicate Plain(scope: string) {
    forall i :: 0 <= i < |scope| ==> scope[i] != '"' && scope[i] != '\\' && scope[i] >= ' '
  }

  predicate AllPlain(scopes: seq<string>) {
    forall i :: 0 <= i < |scopes| ==> Plain(scopes[i])
  }

  /** White space before each part: none before the first, one space before the others. */
  function Gaps(n: nat): (gaps: seq<string>)
    ensures |gaps| == n
  {
    seq(n, i => if i == 0 then "" else " ")
  }

  function Nothing(n: nat): (gaps: seq<string>)
    ensures |gaps| == n
  {
    seq(n, _ => "")
  }

  /** How the JSONB column gives back an array of plain scopes: with a space after each comma. */
  function Column(scopes: seq<string>): string {
    "[" + Join(Spaced(scopes, Gaps(|scopes|), Nothing(|scopes|)), ',') + "]"
  }

  /** Plain scopes read back from the column are those stored, once each, exactly when none is empty or has a comma. */
  lemma ColumnRoundTrip(scopes: seq<string>)
    requires AllPlain(scopes)
    ensures Parsed(Column(scopes)) == Dedup(scopes)
            <==> forall i :: 0 <= i < |scopes| ==> scopes[i] != "" && ',' !in scopes[i]
  {
    PlainClean(scopes);
    GapsBlank(|scopes|);
    SpacedHere(scopes, Gaps(|scopes|), Nothing(|scopes|));
    assert Column(scopes) == "[" + Join(Spaced(scopes, Gaps(|scopes|), Nothing(|scopes|)), ',') + "]";
    hide *;
  }

  lemma GapsBlank(n: nat)
    ensures AllBlank(Gaps(n)) && AllBlank(Nothing(n))
  {
    assert Blank("") && Blank(" ");
    hide Blank;
  }

  lemma PlainClean(scopes: seq<string>)
    requires AllPlain(scopes)
    ensures AllClean(scopes) <==> forall i :: 0 <= i < |scopes| ==> scopes[i] != "" && ',' !in scopes[i]
  {
    forall i | 0 <= i < |scopes|
      ensures Clean(scopes[i]) <==> scopes[i] != "" && ',' !in scopes[i]
    {
      assert Plain(scopes[i]);
    }
  }

  lemma JoinThree(a: string, b: string, c: string)
    ensures Join([a, b, c], ',') == a + "," + (b + "," + c) && Join([a], ',') == a && Join([], ',') == ""
  {
    assert [a, b, c][1..] == [b, c] && [b, c][1..] == [c];
    assert Join([b, c], ',') == b + [','] + Join([c], ',') == b + "," + c;
    assert Join([a, b, c], ',') == a + [','] + Join([b, c], ',');
  }

  /** The two texts of three scopes: as it is written, and as the column gives it back. */
  lemma ThreeScopes(a: string, b: string, c: string)
    ensures Json([a, b, c]) == "[" + (Quote(a) + "," + (Quote(b) + "," + Quote(c))) + "]"
    ensures Column([a, b, c]) == "[" + (Quote(a) + "," + (" " + Quote(b) + "," + (" " + Quote(c)))) + "]"
    ensures Json([]) == "[]" && Column([]) == "[]" && Quote("x") == "\"x\""
  {
    assert Quoted([a, b, c]) == [Quote(a), Quote(b), Quote(c)];
    JoinThree(Quote(a), Quote(b), Quote(c));
    var gaps, nothing := Gaps(3), Nothing(3);
    assert gaps == ["", " ", " "] && nothing == ["", "", ""];
    assert "" + Quote(a) + "" == Quote(a) && " " + Quote(b) + "" == " " + Quote(b)
      && " " + Quote(c) + "" == " " + Quote(c);
    var parts := Spaced([a, b, c], gaps, nothing);
    assert parts == [Quote(a), " " + Quote(b), " " + Quote(c)];
    JoinThree(Quote(a), " " + Quote(b), " " + Quote(c));
    var none: seq<string> := [];
    assert Quoted(none) == none && Spaced(none, Gaps(|none|), Nothing(|none|)) == none;
    assert Json(none) == "[" + "" + "]" == "[]";
    assert Column(none) == "[" + "" + "]" == "[]";
  }
}
