/** Placeholders in request templates, and the rewriting of a URL so that it uses one. */
module Placeholders {
  import opened Digraph
  import opened Results
  import opened Text

  type Vars = map<string, string>

  // The placeholder pattern: two open braces, a key between optional blanks, two closing braces

  predicate IsBlank(c: char) {
    c == ' ' || c == '\t' || c == '\n' || c == '\r' || c == '\U{0C}'
  }

  predicate StartsKey(c: char) {
    'A' <= c <= 'Z' || 'a' <= c <= 'z' || c == '_'
  }

  predicate InKey(c: char) {
    StartsKey(c) || '0' <= c <= '9'
  }

  predicate ValidKey(k: string) {
    k != "" && StartsKey(k[0]) && forall c :: c in k ==> InKey(c)
  }

  function SkipBlanks(s: string, i: nat): (j: nat)
    requires i <= |s|
    ensures i <= j <= |s|
    decreases |s| - i
  {
    if i < |s| && IsBlank(s[i]) then SkipBlanks(s, i + 1) else i
  }

  function SkipKey(s: string, i: nat): (j: nat)
    requires i <= |s|
    ensures i <= j <= |s|
    decreases |s| - i
  {
    if i < |s| && InKey(s[i]) then SkipKey(s, i + 1) else i
  }

  predicate BracesAt(s: string, i: nat, c: char) {
    i + 2 <= |s| && s[i] == c && s[i + 1] == c
  }

  datatype Match = NoMatch | Match(key: string, end: nat)

  function MatchAt(s: string, i: nat): (m: Match)
    ensures m.Match? ==> i + 4 < m.end <= |s| && BracesAt(s, i, '{')
  {
    if !BracesAt(s, i, '{') then NoMatch
    else
      var a := SkipBlanks(s, i + 2);
      if a == |s| || !StartsKey(s[a]) then NoMatch
      else
        var b := SkipKey(s, a + 1);
        var c := SkipBlanks(s, b);
        if BracesAt(s, c, '}') then Match(s[a..b], c + 2) else NoMatch
  }

  // Interpolation

  function Expanded(s: string, i: nat, vars: Vars): string
    requires i <= |s|
    decreases |s| - i
  {
    if i == |s| then ""
    else match MatchAt(s, i)
      case NoMatch => [s[i]] + Expanded(s, i + 1, vars)
      case Match(key, end) => (if key in vars then vars[key] else s[i..end]) + Expanded(s, end, vars)
  }

  /** The keys of all placeholders, from left to right. */
  function KeysFrom(s: string, i: nat): seq<string>
    requires i <= |s|
    decreases |s| - i
  {
    if i == |s| then []
    else match MatchAt(s, i)
      case NoMatch => KeysFrom(s, i + 1)
      case Match(key, end) => [key] + KeysFrom(s, end)
  }

  /** The keys without a value, each once, in the order in which they first occur. */
  function Missing(keys: seq<string>, vars: Vars): seq<string> {
    if keys == [] then []
    else
      var before, key := Missing(keys[..|keys| - 1], vars), keys[|keys| - 1];
      if key in vars || key in before then before else before + [key]
  }

  predicate HasOpenBraces(s: string) {
    exists i :: 0 <= i < |s| && BracesAt(s, i, '{')
  }

  datatype Error = Unresolved(keys: seq<string>) | BadSyntax

  function Interpolated(template: string, vars: Vars): Result<string, Error> {
    var missing := Missing(KeysFrom(template, 0), vars);
    if missing != [] then Err(Unresolved(missing))
    else if HasOpenBraces(Expanded(template, 0, vars)) then Err(BadSyntax)
    else Ok(Expanded(template, 0, vars))
  }

  method Interpolate(template: string, vars: Vars) returns (r: Result<string, Error>)
    ensures r == Interpolated(template, vars)
  {
    hide MatchAt, HasOpenBraces, Expanded, KeysFrom, Missing;
    NoKeysMissing(vars);
    var out := "";
    var missing: seq<string> := [];
    var seen: set<string> := {};
    ghost var keys: seq<string> := [];
    var i := 0;
    while i < |template|
      invariant 0 <= i <= |template|
      invariant out + Expanded(template, i, vars) == Expanded(template, 0, vars)
      invariant keys + KeysFrom(template, i) == KeysFrom(template, 0)
      invariant missing == Missing(keys, vars)
      invariant forall k :: k in seen <==> k in missing
      decreases |template| - i
    {
      ExpansionStep(template, i, vars, out, keys);
      match MatchAt(template, i)
      case NoMatch =>
        out := out + [template[i]];
        i := i + 1;
      case Match(key, end) =>
        MissingStep(keys, key, vars);
        keys := keys + [key];
        if key in vars {
          out := out + vars[key];
        } else {
          if key !in seen {
            seen := seen + {key};
            missing := missing + [key];
          }
          out := out + template[i..end];
        }
        i := end;
    }
    ExpansionEnds(template, vars, out, keys);
    if |missing| > 0 {
      return Err(Unresolved(missing));
    }
    if HasOpenBraces(out) {
      return Err(BadSyntax);
    }
    return Ok(out);
  }

  lemma NoKeysMissing(vars: Vars)
    ensures Missing([], vars) == []
  {
  }

  lemma MissingStep(keys: seq<string>, key: string, vars: Vars)
    ensures Missing(keys + [key], vars) ==
            Missing(keys, vars) + if key in vars || key in Missing(keys, vars) then [] else [key]
  {
    assert (keys + [key])[..|keys|] == keys;
    assert Missing(keys, vars) + [] == Missing(keys, vars);
  }

  lemma ExpansionStep(s: string, i: nat, vars: Vars, out: string, keys: seq<string>)
    requires i < |s|
    ensures match MatchAt(s, i)
            case NoMatch =>
              && out + Expanded(s, i, vars) == (out + [s[i]]) + Expanded(s, i + 1, vars)
              && KeysFrom(s, i) == KeysFrom(s, i + 1)
            case Match(key, end) =>
              && out + Expanded(s, i, vars) == (out + if key in vars then vars[key] else s[i..end]) + Expanded(s, end, vars)
              && keys + KeysFrom(s, i) == (keys + [key]) + KeysFrom(s, end)
  {
    hide MatchAt;
  }

  lemma ExpansionEnds(s: string, vars: Vars, out: string, keys: seq<string>)
    ensures out + Expanded(s, |s|, vars) == out && keys + KeysFrom(s, |s|) == keys
  {
  }

  /** A successful interpolation leaves no open double brace. */
  lemma SuccessLeavesNoBraces(template: string, vars: Vars)
    requires Interpolated(template, vars).Ok?
    ensures !HasOpenBraces(Interpolated(template, vars).value)
    ensures forall k :: k in KeysFrom(template, 0) ==> k in vars
  {
    MissingFacts(KeysFrom(template, 0), vars);
  }

  lemma {:induction false} MissingFacts(keys: seq<string>, vars: Vars)
    ensures Distinct(Missing(keys, vars))
    ensures forall k :: k in Missing(keys, vars) <==> k in keys && k !in vars
  {
    if keys != [] {
      var before, key := keys[..|keys| - 1], keys[|keys| - 1];
      MissingFacts(before, vars);
      assert keys == before + [key];
      if key !in vars && key !in Missing(before, vars) {
        DistinctGrows(Missing(before, vars), key);
      }
    }
  }

  /** The missing keys come in the order of their first occurrences. */
  lemma {:induction false} MissingInOrder(keys: seq<string>, vars: Vars, i: nat, j: nat) returns (p: nat, q: nat)
    requires i < j < |Missing(keys, vars)|
    ensures p < q < |keys|
    ensures keys[p] == Missing(keys, vars)[i] && keys[p] !in keys[..p]
    ensures keys[q] == Missing(keys, vars)[j] && keys[q] !in keys[..q]
  {
    var before, key := keys[..|keys| - 1], keys[|keys| - 1];
    if j < |Missing(before, vars)| {
      p, q := MissingInOrder(before, vars, i, j);
      assert before[..p] == keys[..p] && before[..q] == keys[..q];
    } else {
      MissingFacts(before, vars);
      assert Missing(before, vars)[i] in Missing(before, vars);
      p := FirstIndex(before, Missing(before, vars)[i]);
      assert before[..p] == keys[..p];
      q := |before|;
      assert keys[..q] == before;
    }
  }

  // Templates put together from text and placeholders

  /** Text without an open brace, or a placeholder with its blanks. */
  datatype Piece = Plain(text: string) | Hole(left: string, key: string, right: string)

  predicate Blanks(s: string) {
    forall i :: 0 <= i < |s| ==> IsBlank(s[i])
  }

  predicate WellFormed(p: Piece) {
    match p
    case Plain(text) => '{' !in text
    case Hole(left, key, right) => Blanks(left) && ValidKey(key) && Blanks(right)
  }

  function Shown(p: Piece): string {
    match p
    case Plain(text) => text
    case Hole(left, key, right) => "{{" + left + key + right + "}}"
  }

  /** A placeholder becomes its value, if it has one. */
  function Value(p: Piece, vars: Vars): string {
    if p.Hole? && p.key in vars then vars[p.key] else Shown(p)
  }

  /** The template as it is written. */
  function Written(ps: seq<Piece>): string {
    if ps == [] then "" else Shown(ps[0]) + Written(ps[1..])
  }

  /** What it stands for. */
  function Meaning(ps: seq<Piece>, vars: Vars): string {
    if ps == [] then ""
    else Value(ps[0], vars) + Meaning(ps[1..], vars)
  }

  function HoleKeys(ps: seq<Piece>): seq<string> {
    if ps == [] then [] else (if ps[0].Hole? then [ps[0].key] else []) + HoleKeys(ps[1..])
  }

  lemma {:induction false} SkipsAllBlanks(s: string, i: nat, j: nat)
    requires i <= j < |s| && (forall n :: i <= n < j ==> IsBlank(s[n])) && !IsBlank(s[j])
    ensures SkipBlanks(s, i) == j
    decreases j - i
  {
    if i < j {
      SkipsAllBlanks(s, i + 1, j);
    }
  }

  lemma KeyCharIsNotBlank(c: char)
    ensures InKey(c) || c == '}' ==> !IsBlank(c)
    ensures IsBlank(c) || c == '}' ==> !InKey(c) && !StartsKey(c)
    ensures StartsKey(c) ==> InKey(c)
  {
  }

  lemma MatchesByPositions(s: string, i: nat, a: nat, b: nat, c: nat)
    requires BracesAt(s, i, '{') && i + 2 <= a < b <= c && BracesAt(s, c, '}')
    requires (forall n :: i + 2 <= n < a ==> IsBlank(s[n])) && StartsKey(s[a])
    requires (forall n :: a <= n < b ==> InKey(s[n])) && forall n :: b <= n < c ==> IsBlank(s[n])
    ensures MatchAt(s, i) == Match(s[a..b], c + 2)
  {
    hide IsBlank, InKey, StartsKey;
    KeyCharIsNotBlank(s[a]);
    SkipsAllBlanks(s, i + 2, a);
    KeyCharIsNotBlank(s[b]);
    SkipsWholeKey(s, a + 1, b);
    KeyCharIsNotBlank(s[c]);
    SkipsAllBlanks(s, b, c);
  }

  lemma PartAt(front: string, part: string, tail: string)
    ensures (front + part + tail)[|front|..|front| + |part|] == part
    ensures forall n :: |front| <= n < |front| + |part| ==> (front + part + tail)[n] == part[n - |front|]
  {
  }

  lemma Peel(s: string, front: string, x: string, y: string, tail: string)
    requires s == front + (x + y) + tail
    ensures s == front + x + (y + tail)
    ensures s[|front| + |x|..|front| + |x| + |y|] == y
    ensures forall n :: |front| + |x| <= n < |front| + |x| + |y| ==> s[n] == y[n - |front| - |x|]
  {
    assert s == (front + x) + y + tail;
    PartAt(front + x, y, tail);
  }

  /** part stands in s at position i. */
  predicate StandsAt(s: string, i: nat, part: string) {
    i + |part| <= |s| && s[i..i + |part|] == part && forall n :: i <= n < i + |part| ==> s[n] == part[n - i]
  }

  lemma HoleParts(front: string, left: string, key: string, right: string, tail: string)
    ensures var s := front + ("{{" + left + key + right + "}}") + tail; var i := |front|;
            && StandsAt(s, i, "{{") && StandsAt(s, i + 2, left) && StandsAt(s, i + 2 + |left|, key)
            && StandsAt(s, i + 2 + |left| + |key|, right) && StandsAt(s, i + 2 + |left| + |key| + |right|, "}}")
  {
    var s := front + ("{{" + left + key + right + "}}") + tail;
    Peel(s, front, "{{" + left + key + right, "}}", tail);
    Peel(s, front, "{{" + left + key, right, "}}" + tail);
    Peel(s, front, "{{" + left, key, right + ("}}" + tail));
    Peel(s, front, "{{", left, key + (right + ("}}" + tail)));
    PartAt(front, "{{", left + (key + (right + ("}}" + tail))));
  }

  lemma KeyChars(key: string)
    requires ValidKey(key)
    ensures key != "" && StartsKey(key[0]) && forall n :: 0 <= n < |key| ==> InKey(key[n])
  {
    assert forall n :: 0 <= n < |key| ==> key[n] in key;
  }

  /** The pattern finds a placeholder wherever one is written. */
  lemma HoleMatches(front: string, p: Piece, tail: string)
    requires p.Hole? && WellFormed(p)
    ensures MatchAt(front + Shown(p) + tail, |front|) == Match(p.key, |front| + |Shown(p)|)
  {
    hide IsBlank, InKey, StartsKey, ValidKey, MatchAt;
    HoleParts(front, p.left, p.key, p.right, tail);
    KeyChars(p.key);
    var a := |front| + 2 + |p.left|;
    MatchesByPositions(front + Shown(p) + tail, |front|, a, a + |p.key|, a + |p.key| + |p.right|);
  }

  lemma Expand(s: string, i: nat, vars: Vars)
    requires i < |s|
    ensures match MatchAt(s, i)
            case NoMatch => Expanded(s, i, vars) == [s[i]] + Expanded(s, i + 1, vars) && KeysFrom(s, i) == KeysFrom(s, i + 1)
            case Match(key, end) =>
              && Expanded(s, i, vars) == (if key in vars then vars[key] else s[i..end]) + Expanded(s, end, vars)
              && KeysFrom(s, i) == [key] + KeysFrom(s, end)
  {
    hide MatchAt;
  }

  lemma NoBraceNoMatch(s: string, i: nat)
    requires i < |s| && s[i] != '{'
    ensures MatchAt(s, i) == NoMatch
  {
  }

  lemma OneMore(s: string, i: nat, j: nat, rest: string)
    requires i < j <= |s|
    ensures [s[i]] + (s[i + 1..j] + rest) == s[i..j] + rest
  {
    assert s[i..j] == [s[i]] + s[i + 1..j];
  }

  /** Text without open braces is copied, wherever it stands. */
  lemma {:induction false} TextIsCopied(s: string, i: nat, j: nat, vars: Vars)
    requires i <= j <= |s| && '{' !in s[i..j]
    ensures Expanded(s, i, vars) == s[i..j] + Expanded(s, j, vars)
    ensures KeysFrom(s, i) == KeysFrom(s, j)
    decreases j - i
  {
    hide Expanded, KeysFrom, MatchAt;
    if i < j {
      assert s[i] == s[i..j][0] && s[i + 1..j] == s[i..j][1..];
      NoBraceNoMatch(s, i);
      Expand(s, i, vars);
      TextIsCopied(s, i + 1, j, vars);
      OneMore(s, i, j, Expanded(s, j, vars));
    }
  }

  /** part stands in s at position i. */
  predicate PartOf(s: string, i: nat, part: string) {
    i + |part| <= |s| && s[i..i + |part|] == part
  }

  lemma HoleFound(s: string, i: nat, p: Piece)
    requires PartOf(s, i, Shown(p)) && WellFormed(p) && p.Hole?
    ensures MatchAt(s, i) == Match(p.key, i + |Shown(p)|)
  {
    hide WellFormed, MatchAt, Shown;
    var j := i + |Shown(p)|;
    HoleMatches(s[..i], p, s[j..]);
    assert s == s[..i] + Shown(p) + s[j..];
  }

  lemma PieceExpands(s: string, i: nat, p: Piece, vars: Vars)
    requires PartOf(s, i, Shown(p)) && WellFormed(p)
    ensures var j := i + |Shown(p)|;
            && Expanded(s, i, vars) == Value(p, vars) + Expanded(s, j, vars)
            && KeysFrom(s, i) == (if p.Hole? then [p.key] else []) + KeysFrom(s, j)
  {
    hide Expanded, KeysFrom, MatchAt;
    if p.Hole? {
      HoleFound(s, i, p);
      Expand(s, i, vars);
    } else {
      TextIsCopied(s, i, i + |p.text|, vars);
    }
  }

  lemma Behind(s: string, i: nat, part: string, rest: string)
    requires i <= |s| && s[i..] == part + rest
    ensures PartOf(s, i, part) && i + |part| <= |s| && s[i + |part|..] == rest
  {
    assert s[i..][..|part|] == part && s[i..][|part|..] == rest;
  }

  lemma FirstPiece(ps: seq<Piece>, vars: Vars)
    requires ps != [] && forall p :: p in ps ==> WellFormed(p)
    ensures WellFormed(ps[0]) && forall p :: p in ps[1..] ==> WellFormed(p)
    ensures Written(ps) == Shown(ps[0]) + Written(ps[1..])
    ensures Meaning(ps, vars) == Value(ps[0], vars) + Meaning(ps[1..], vars)
    ensures HoleKeys(ps) == (if ps[0].Hole? then [ps[0].key] else []) + HoleKeys(ps[1..])
  {
    hide WellFormed, Shown, Value;
    assert ps[0] in ps && forall p :: p in ps[1..] ==> p in ps;
  }

  lemma NoPieces(s: string, i: nat, vars: Vars)
    requires i <= |s| && s[i..] == Written([])
    ensures Expanded(s, i, vars) == Meaning([], vars) && KeysFrom(s, i) == HoleKeys([])
  {
    assert |s[i..]| == 0;
  }

  lemma {:induction false} WrittenExpands(s: string, i: nat, ps: seq<Piece>, vars: Vars)
    requires i <= |s| && s[i..] == Written(ps)
    requires forall p :: p in ps ==> WellFormed(p)
    ensures Expanded(s, i, vars) == Meaning(ps, vars)
    ensures KeysFrom(s, i) == HoleKeys(ps)
    decreases |ps|
  {
    hide WellFormed, Expanded, KeysFrom, Shown, Value, Written, Meaning, HoleKeys, PartOf;
    if ps == [] {
      NoPieces(s, i, vars);
    } else {
      FirstPiece(ps, vars);
      var next := i + |Shown(ps[0])|;
      Behind(s, i, Shown(ps[0]), Written(ps[1..]));
      PieceExpands(s, i, ps[0], vars);
      WrittenExpands(s, next, ps[1..], vars);
    }
  }

  /** Interpolation puts the values in the places of the placeholders and leaves the text between them alone. */
  lemma InterpolationMeans(ps: seq<Piece>, vars: Vars)
    requires forall p :: p in ps ==> WellFormed(p)
    ensures var r := Interpolated(Written(ps), vars);
            && (r.Ok? ==> r.value == Meaning(ps, vars))
            && (r.Ok? <==> (forall k :: k in HoleKeys(ps) ==> k in vars) && !HasOpenBraces(Meaning(ps, vars)))
            && (r.Err? && r.error.Unresolved? ==> forall k :: k in r.error.keys <==> k in HoleKeys(ps) && k !in vars)
  {
    hide Expanded, KeysFrom, HasOpenBraces, Missing, WellFormed;
    WrittenExpands(Written(ps), 0, ps, vars);
    MissingFacts(HoleKeys(ps), vars);
    var missing := Missing(HoleKeys(ps), vars);
    assert missing != [] ==> missing[0] in missing;
  }

  // Rewriting a URL

  /** A value that may stand for the beginning of a URL: it ends where a path, query or fragment begins. */
  predicate Fits(raw: string, value: string) {
    && value != "" && |value| <= |raw| && raw[..|value|] == value
    && (|raw| == |value| || raw[|value|] == '/' || raw[|value|] == '?' || raw[|value|] == '#')
  }

  function WithPlaceholder(raw: string, key: string, value: string): string
    requires |value| <= |raw|
  {
    "{{" + key + "}}" + raw[|value|..]
  }

  /** The rewritten URL uses a longest fitting value, whichever order the variables are visited in. */
  ghost predicate Rewrites(raw: string, vars: Vars, r: string) {
    || (r == raw && forall k :: k in vars && Fits(raw, vars[k]) ==> exists e :: e in vars && e == "")
    || exists k :: Chosen(raw, vars, k) && r == WithPlaceholder(raw, k, vars[k])
  }

  ghost predicate Chosen(raw: string, vars: Vars, k: string) {
    k in vars && Fits(raw, vars[k]) && forall e :: e in vars && Fits(raw, vars[e]) ==> |vars[e]| <= |vars[k]|
  }

  method RewriteURLWithVars(raw: string, vars: Vars) returns (r: string)
    ensures Rewrites(raw, vars, r)
  {
    var bestKey, bestVal := "", "";
    var rest := vars.Keys;
    while rest != {}
      invariant rest <= vars.Keys
      invariant bestVal == "" ==> bestKey == ""
      invariant bestVal != "" ==> bestKey in vars.Keys - rest && vars[bestKey] == bestVal && Fits(raw, bestVal)
      invariant forall k :: k in vars.Keys - rest && Fits(raw, vars[k]) ==> |vars[k]| <= |bestVal|
      decreases rest
    {
      var key :| key in rest;
      rest := rest - {key};
      var value := vars[key];
      if value == "" || !(|value| <= |raw| && raw[..|value|] == value) {
        continue;
      }
      var tail := raw[|value|..];
      if tail != "" && tail[0] != '/' && tail[0] != '?' && tail[0] != '#' {
        continue;
      }
      if |value| > |bestVal| {
        bestKey, bestVal := key, value;
      }
    }
    if bestKey == "" {
      return raw;
    }
    assert Chosen(raw, vars, bestKey);
    return "{{" + bestKey + "}}" + raw[|bestVal|..];
  }

  // Interpolating a rewritten URL gives the URL back

  /** Without open double braces there is nothing to expand. */
  lemma {:induction false} PlainTextStays(s: string, i: nat, vars: Vars)
    requires i <= |s| && forall j :: i <= j < |s| ==> !BracesAt(s, j, '{')
    ensures Expanded(s, i, vars) == s[i..] && KeysFrom(s, i) == []
    decreases |s| - i
  {
    if i < |s| {
      assert !BracesAt(s, i, '{');
      PlainTextStays(s, i + 1, vars);
    }
  }

  lemma {:induction false} SkipsWholeKey(s: string, i: nat, j: nat)
    requires i <= j < |s| && (forall n :: i <= n < j ==> InKey(s[n])) && !InKey(s[j])
    ensures SkipKey(s, i) == j
    decreases j - i
  {
    if i < j {
      SkipsWholeKey(s, i + 1, j);
    }
  }

  lemma PlaceholderMatches(key: string, tail: string)
    requires ValidKey(key)
    ensures MatchAt("{{" + key + "}}" + tail, 0) == Match(key, |key| + 4)
  {
    var s := "{{" + key + "}}" + tail;
    var n := |key|;
    assert s[2] == key[0] && s[n + 2] == '}' && s[n + 3] == '}';
    assert s[2..n + 2] == key;
    assert key[0] in key;
    forall m | 3 <= m < n + 2 ensures InKey(s[m]) {
      assert s[m] == key[m - 2] && key[m - 2] in key;
    }
    SkipsWholeKey(s, 3, n + 2);
    assert SkipBlanks(s, 2) == 2 && SkipBlanks(s, n + 2) == n + 2;
  }

  lemma TailIsPlain(raw: string, n: nat)
    requires n <= |raw| && !HasOpenBraces(raw)
    ensures forall j :: 0 <= j < |raw| - n ==> !BracesAt(raw[n..], j, '{')
  {
    forall j | 0 <= j < |raw| - n ensures !BracesAt(raw[n..], j, '{') {
      assert !BracesAt(raw, n + j, '{');
    }
  }

  lemma PlaceholderExpands(key: string, tail: string, vars: Vars)
    requires ValidKey(key) && key in vars && forall j :: 0 <= j < |tail| ==> !BracesAt(tail, j, '{')
    ensures var r := "{{" + key + "}}" + tail;
            Expanded(r, 0, vars) == vars[key] + tail && KeysFrom(r, 0) == [key]
  {
    hide MatchAt, ValidKey;
    var r, end := "{{" + key + "}}" + tail, |key| + 4;
    PlaceholderMatches(key, tail);
    assert r[end..] == tail;
    forall j | end <= j < |r| ensures !BracesAt(r, j, '{') {
      assert !BracesAt(tail, j - end, '{');
    }
    PlainTextStays(r, end, vars);
  }

  lemma RewriteRoundTrip(raw: string, vars: Vars, r: string)
    requires !HasOpenBraces(raw) && Rewrites(raw, vars, r)
    requires forall k :: k in vars ==> ValidKey(k)
    ensures Interpolated(r, vars) == Ok(raw)
  {
    hide ValidKey, MatchAt;
    if k :| Chosen(raw, vars, k) && r == WithPlaceholder(raw, k, vars[k]) {
      var value, tail := vars[k], raw[|vars[k]|..];
      assert r == "{{" + k + "}}" + tail && raw == value + tail;
      TailIsPlain(raw, |value|);
      PlaceholderExpands(k, tail, vars);
      assert Missing([k], vars) == [];
    } else {
      PlainTextStays(raw, 0, vars);
      assert raw[0..] == raw;
    }
  }
}
