/** Masking secret values in text. A character stands for one byte, as in Go's strings. */
module Secrets {
  import opened Digraph
  import opened Text

  const MARK := "***"

  /** Replaces the leftmost occurrence, and goes on behind it. */
  function ReplaceAll(s: string, old_: string, new_: string): string
    requires old_ != ""
  {
    if |s| < |old_| then s
    else if s[..|old_|] == old_ then new_ + ReplaceAll(s[|old_|..], old_, new_)
    else [s[0]] + ReplaceAll(s[1..], old_, new_)
  }

  function Mask(s: string, value: string): string
    requires value != ""
  {
    ReplaceAll(s, value, MARK)
  }

  predicate HasMark(s: string) {
    exists i :: 0 <= i < |s| && OccursAt(MARK, s, i)
  }

  /** A value that no mask can show: it neither begins nor ends with a star and does not hold the mark. */
  predicate Safe(v: string) {
    v != "" && v[0] != '*' && v[|v| - 1] != '*' && !HasMark(v)
  }

  lemma MarkBehind(front: string, s: string)
    requires HasMark(s)
    ensures HasMark(front + s)
  {
    var i :| 0 <= i < |s| && OccursAt(MARK, s, i);
    assert (front + s)[|front| + i..|front| + i + |MARK|] == s[i..i + |MARK|];
    assert OccursAt(MARK, front + s, |front| + i);
  }

  /** As long as no whole mark shows up, and no part of one at the end, masking has copied the text. */
  lemma {:induction false} MarkFreePrefixIsCopied(s: string, value: string, k: nat)
    requires value != "" && k <= |Mask(s, value)| && !HasMark(Mask(s, value)[..k])
    requires k > 0 ==> Mask(s, value)[k - 1] != '*'
    ensures k <= |s| && Mask(s, value)[..k] == s[..k]
    decreases |s|
  {
    if k > 0 && |s| >= |value| {
      if s[..|value|] == value {
        NoShorterThanMark(Mask(s[|value|..], value), k);
      } else {
        var rest := Mask(s[1..], value);
        assert ([s[0]] + rest)[..k] == [s[0]] + rest[..k - 1];
        if HasMark(rest[..k - 1]) {
          MarkBehind([s[0]], rest[..k - 1]);
        }
        MarkFreePrefixIsCopied(s[1..], value, k - 1);
      }
    }
  }

  /** Whatever is cut off behind a mark holds the mark or ends with a star. */
  lemma NoShorterThanMark(rest: string, k: nat)
    requires 0 < k <= |MARK + rest|
    ensures HasMark((MARK + rest)[..k]) || (MARK + rest)[k - 1] == '*'
  {
    if k >= |MARK| {
      assert (MARK + rest)[..k][0..|MARK|] == MARK;
      assert OccursAt(MARK, (MARK + rest)[..k], 0);
    }
  }

  lemma ContainsLonger(s: string, v: string, k: nat)
    requires k <= |s| && Contains(s[k..], v)
    ensures Contains(s, v)
  {
    var i :| OccursAt(v, s[k..], i);
    assert s[k..][i..i + |v|] == s[k + i..k + i + |v|];
    assert OccursAt(v, s, k + i);
  }

  lemma OccursBehind(front: string, rest: string, v: string, i: nat)
    requires OccursAt(v, front + rest, i) && |front| <= i
    ensures OccursAt(v, rest, i - |front|)
  {
    assert (front + rest)[i..i + |v|] == rest[i - |front|..i - |front| + |v|];
  }

  lemma OccursBehindMark(rest: string, v: string, i: nat)
    requires v != "" && v[0] != '*' && OccursAt(v, MARK + rest, i)
    ensures |MARK| <= i && OccursAt(v, rest, i - |MARK|)
  {
    var m := MARK + rest;
    assert m[i..i + |v|][0] == m[i];
    OccursBehind(MARK, rest, v, i);
  }

  /** Masking one value does not bring out another. */
  lemma {:induction false} MaskBringsOutNothing(s: string, value: string, v: string)
    requires value != "" && Safe(v) && !Contains(s, v)
    ensures !Contains(Mask(s, value), v)
    decreases |s|
  {
    if i :| OccursAt(v, Mask(s, value), i) {
      OccurrenceComesFromText(s, value, v, i);
    }
  }

  /** An occurrence of a safe value in masked text was there before. */
  lemma {:induction false} OccurrenceComesFromText(s: string, value: string, v: string, i: nat)
    requires value != "" && Safe(v) && OccursAt(v, Mask(s, value), i)
    ensures Contains(s, v)
    decreases |s|
  {
    hide OccursAt, Contains, HasMark;
    if |s| < |value| {
      OccursMeansContains(v, s, i);
    } else if s[..|value|] == value {
      OccursBehindMark(Mask(s[|value|..], value), v, i);
      OccurrenceComesFromText(s[|value|..], value, v, i - |MARK|);
      ContainsLonger(s, v, |value|);
    } else if i > 0 {
      OccursBehind([s[0]], Mask(s[1..], value), v, i);
      OccurrenceComesFromText(s[1..], value, v, i - 1);
      ContainsLonger(s, v, 1);
    } else {
      SafeBeginning(s, value, v);
      OccursMeansContains(v, s, 0);
    }
  }

  lemma OccursMeansContains(v: string, s: string, i: nat)
    requires OccursAt(v, s, i)
    ensures Contains(s, v)
  {
  }

  lemma SafeBeginning(s: string, value: string, v: string)
    requires value != "" && Safe(v) && OccursAt(v, Mask(s, value), 0)
    ensures OccursAt(v, s, 0)
  {
    hide ReplaceAll, HasMark;
    assert Mask(s, value)[..|v|] == v;
    MarkFreePrefixIsCopied(s, value, |v|);
  }

  /** The masked value itself is gone. */
  lemma MaskRemoves(s: string, value: string)
    requires Safe(value)
    ensures !Contains(Mask(s, value), value)
  {
    if i :| OccursAt(value, Mask(s, value), i) {
      NoOccurrenceLeft(s, value, i);
    }
  }

  lemma {:induction false} NoOccurrenceLeft(s: string, value: string, i: nat)
    requires Safe(value)
    ensures !OccursAt(value, Mask(s, value), i)
    decreases |s|
  {
    hide OccursAt, HasMark;
    if OccursAt(value, Mask(s, value), i) {
      if |s| < |value| {
        TooShort(s, value, i);
      } else if s[..|value|] == value {
        OccursBehindMark(Mask(s[|value|..], value), value, i);
        NoOccurrenceLeft(s[|value|..], value, i - |MARK|);
      } else if i > 0 {
        OccursBehind([s[0]], Mask(s[1..], value), value, i);
        NoOccurrenceLeft(s[1..], value, i - 1);
      } else {
        SafeBeginning(s, value, value);
        TooShort(s, value, 0);
      }
    }
  }

  lemma TooShort(s: string, v: string, i: nat)
    requires OccursAt(v, s, i)
    ensures |v| <= |s| && (i == 0 ==> s[..|v|] == v)
  {
  }

  lemma {:induction false} NothingToMask(s: string, value: string)
    requires value != "" && !Contains(s, value)
    ensures Mask(s, value) == s
  {
    if |s| >= |value| {
      assert !OccursAt(value, s, 0);
      if Contains(s[1..], value) {
        ContainsLonger(s, value, 1);
      }
      NothingToMask(s[1..], value);
      assert s == [s[0]] + s[1..];
    }
  }

  /** Up to the first occurrence nothing changes; there the mark goes in, and masking goes on behind it. */
  lemma {:induction false} MaskFirst(x: string, value: string, y: string)
    requires value != "" && forall i :: 0 <= i < |x| ==> !OccursAt(value, x + value + y, i)
    ensures Mask(x + value + y, value) == x + MARK + Mask(y, value)
    decreases |x|
  {
    var s := x + value + y;
    if x == "" {
      assert s == value + y && s[..|value|] == value && s[|value|..] == y;
    } else {
      assert s[1..] == x[1..] + value + y && s[0] == x[0];
      forall i | 0 <= i < |x| - 1 ensures !OccursAt(value, s[1..], i) {
        assert !OccursAt(value, s, i + 1);
        assert s[1..][i..] == s[i + 1..];
      }
      MaskFirst(x[1..], value, y);
      assert !OccursAt(value, s, 0);
      assert x == [x[0]] + x[1..];
    }
  }

  // All values, longest first

  type Secret = s: string | s != "" witness "s"

  function MaskEach(s: string, values: seq<Secret>): string {
    if values == [] then s else Mask(MaskEach(s, values[..|values| - 1]), values[|values| - 1])
  }

  predicate LongestFirst(values: seq<Secret>) {
    forall i, j :: 0 <= i < j < |values| ==> |values[i]| >= |values[j]|
  }

  /** The distinct non-empty values of the secret keys, in the order of the keys. */
  function Selected(vars: map<string, string>, keys: seq<string>): seq<Secret> {
    if keys == [] then []
    else
      var before, key := Selected(vars, keys[..|keys| - 1]), keys[|keys| - 1];
      if key !in vars || vars[key] == "" || vars[key] in before then before else before + [vars[key]]
  }

  lemma {:induction false} SelectedFacts(vars: map<string, string>, keys: seq<string>)
    ensures forall v :: v in Selected(vars, keys) <==> v != "" && exists k :: k in keys && k in vars && vars[k] == v
    ensures Distinct(Selected(vars, keys))
  {
    if keys != [] {
      var before, key := keys[..|keys| - 1], keys[|keys| - 1];
      SelectedFacts(vars, before);
      assert keys == before + [key];
    }
  }

  method Swap(a: array<Secret>, i: nat, j: nat)
    requires i < j < a.Length
    modifies a
    ensures a[i] == old(a[j]) && a[j] == old(a[i])
    ensures forall k :: 0 <= k < a.Length && k != i && k != j ==> a[k] == old(a[k])
    ensures multiset(a[..]) == multiset(old(a[..]))
  {
    a[i], a[j] := a[j], a[i];
  }

  /** Exchange sort in place. */
  method OrderByLength(a: array<Secret>)
    modifies a
    ensures LongestFirst(a[..]) && multiset(a[..]) == multiset(old(a[..]))
  {
    for i := 0 to a.Length
      invariant multiset(a[..]) == multiset(old(a[..]))
      invariant forall p, q :: 0 <= p < q < a.Length && p < i ==> |a[p]| >= |a[q]|
    {
      for j := i + 1 to a.Length
        invariant multiset(a[..]) == multiset(old(a[..]))
        invariant forall p, q :: 0 <= p < q < a.Length && p < i ==> |a[p]| >= |a[q]|
        invariant forall q :: i < q < j ==> |a[i]| >= |a[q]|
      {
        if |a[j]| > |a[i]| {
          Swap(a, i, j);
        }
      }
    }
  }

  method CollectValues(vars: map<string, string>, keys: seq<string>) returns (values: seq<Secret>)
    ensures values == Selected(vars, keys)
  {
    values := [];
    var seen: set<string> := {};
    for i := 0 to |keys|
      invariant values == Selected(vars, keys[..i])
      invariant forall v: string :: v in seen <==> v in values
    {
      assert keys[..i + 1][..i] == keys[..i];
      var value := if keys[i] in vars then vars[keys[i]] else "";
      if value == "" || value in seen {
        continue;
      }
      seen := seen + {value};
      values := values + [value];
    }
    assert keys[..|keys|] == keys;
  }

  /** The values in the order in which they are masked. */
  ghost predicate MaskingOrder(vars: map<string, string>, keys: seq<string>, values: seq<Secret>) {
    LongestFirst(values) && multiset(values) == multiset(Selected(vars, keys))
  }

  method RedactSecretValues(text: string, vars: map<string, string>, keys: seq<string>)
    returns (out: string, values: seq<Secret>)
    ensures out == MaskEach(text, values)
    ensures text != "" ==> MaskingOrder(vars, keys, values)
  {
    if text == "" || |keys| == 0 {
      return text, [];
    }
    var selected := CollectValues(vars, keys);
    var a := new Secret[|selected|](i requires 0 <= i < |selected| => selected[i]);
    assert a[..] == selected;
    OrderByLength(a);
    values := a[..];
    out := text;
    for i := 0 to a.Length
      invariant a[..] == values && out == MaskEach(text, values[..i])
    {
      assert values[..i + 1][..i] == values[..i];
      out := ReplaceAll(out, a[i], MARK);
    }
    assert values[..a.Length] == values;
  }

  lemma SameElements<T>(a: seq<T>, b: seq<T>)
    requires multiset(a) == multiset(b)
    ensures forall x :: x in a <==> x in b
  {
    forall x ensures x in a <==> x in b {
      assert x in a <==> x in multiset(a);
      assert x in b <==> x in multiset(b);
    }
  }

  /** A safe value that is masked never shows, whatever the text and the other values, and however they overlap. */
  lemma {:induction false} NothingLeaks(text: string, values: seq<Secret>, v: Secret)
    requires v in values && Safe(v)
    ensures !Contains(MaskEach(text, values), v)
  {
    var before, last := values[..|values| - 1], values[|values| - 1];
    if v == last {
      MaskRemoves(MaskEach(text, before), last);
    } else {
      NothingLeaks(text, before, v);
      MaskBringsOutNothing(MaskEach(text, before), last, v);
    }
  }

  /** No safe selected secret value stands in redacted text. */
  lemma RedactionHidesSecrets(text: string, vars: map<string, string>, keys: seq<string>, values: seq<Secret>, key: string)
    requires text != "" ==> MaskingOrder(vars, keys, values)
    requires text == "" ==> values == []
    requires key in keys && key in vars && Safe(vars[key])
    ensures !Contains(MaskEach(text, values), vars[key])
  {
    if text != "" {
      SelectedFacts(vars, keys);
      SameElements(values, Selected(vars, keys));
      NothingLeaks(text, values, vars[key]);
    }
  }

  // Every other value shows in some text

  lemma OneValue(text: string, v: Secret)
    ensures MaskEach(text, [v]) == Mask(text, v)
  {
    assert [v][..0] == [];
  }

  lemma TooShortToMask(s: string, v: string)
    requires |s| < |v|
    ensures Mask(s, v) == s
  {
  }

  /** A value that does not begin with a star does not begin before a star of its own is due. */
  lemma {:induction false} CopiedUpToStar(v: string, p: nat, i: nat, y: string)
    requires i <= p < |v| && v[0] != '*' && v[p] == '*' && |y| < |v|
    ensures Mask(v[i..p] + v + y, v) == v[i..p] + MARK + y
    decreases p - i
  {
    var text := v[i..p] + v + y;
    if i == p {
      assert text == v + y && text[..|v|] == v && text[|v|..] == y;
      TooShortToMask(y, v);
    } else {
      var front := text[..|v|];
      assert front[0] == v[i] && front[p] == v[i];
      assert text[1..] == v[i + 1..p] + v + y;
      CopiedUpToStar(v, p, i + 1, y);
      assert text[0] == v[i] && v[i..p] == [v[i]] + v[i + 1..p];
    }
  }

  lemma LeadingStarShows(v: Secret) returns (text: string)
    requires v[0] == '*'
    ensures Contains(Mask(text, v), v)
  {
    text := v + v[1..];
    assert text[..|v|] == v && text[|v|..] == v[1..];
    TooShortToMask(v[1..], v);
    assert (MARK + v[1..])[2..2 + |v|] == v;
    assert OccursAt(v, MARK + v[1..], 2);
  }

  lemma TrailingStarShows(v: Secret) returns (text: string)
    requires v[0] != '*' && v[|v| - 1] == '*'
    ensures Contains(Mask(text, v), v)
  {
    var p := |v| - 1;
    text := v[0..p] + v + "";
    CopiedUpToStar(v, p, 0, "");
    assert (v[0..p] + MARK + "")[0..|v|] == v;
    assert OccursAt(v, v[0..p] + MARK + "", 0);
  }

  lemma InnerMarkShows(v: Secret) returns (text: string)
    requires v[0] != '*' && HasMark(v)
    ensures Contains(Mask(text, v), v)
  {
    var p :| 0 <= p < |v| && OccursAt(MARK, v, p);
    var y := v[p + |MARK|..];
    assert v[p] == v[p..p + |MARK|][0] == '*';
    text := v[0..p] + v + y;
    CopiedUpToStar(v, p, 0, y);
    assert v == v[0..p] + MARK + y;
    assert OccursAt(v, v, 0);
  }

  /** The condition is exact: a value shows in the redaction of some text if and only if it is not safe. */
  lemma ShowsExactlyIfUnsafe(v: Secret)
    ensures (forall text :: !Contains(MaskEach(text, [v]), v)) <==> Safe(v)
    ensures (forall text, values :: v in values ==> !Contains(MaskEach(text, values), v)) <==> Safe(v)
  {
    hide Contains, Mask, HasMark, MaskEach;
    if Safe(v) {
      forall text, values: seq<Secret> | v in values ensures !Contains(MaskEach(text, values), v) {
        NothingLeaks(text, values, v);
      }
      assert v in [v];
    } else {
      var text;
      if v[0] == '*' {
        text := LeadingStarShows(v);
      } else if v[|v| - 1] == '*' {
        text := TrailingStarShows(v);
      } else {
        text := InnerMarkShows(v);
      }
      OneValue(text, v);
      assert v in [v] && Contains(MaskEach(text, [v]), v);
    }
  }

  // Why the longest value goes first

  lemma NotInsideShorter(v: string, other: Secret)
    requires other != v && |other| >= |v|
    ensures Mask(v, other) == v
  {
    forall i ensures !OccursAt(other, v, i) {
      assert v[0..|v|] == v;
    }
    NothingToMask(v, other);
  }

  lemma {:induction false} LongerIsNotInside(values: seq<Secret>, v: string, n: nat)
    requires n <= |values| && forall i :: 0 <= i < n ==> values[i] != v && |values[i]| >= |v|
    ensures MaskEach(v, values[..n]) == v
  {
    if n > 0 {
      LongerIsNotInside(values, v, n - 1);
      assert values[..n][..n - 1] == values[..n - 1];
      NotInsideShorter(v, values[n - 1]);
    }
  }

  lemma MaskOfItself(v: string)
    requires v != ""
    ensures Mask(v, v) == MARK
  {
    assert v[..|v|] == v && v[|v|..] == "";
    assert ReplaceAll(v[|v|..], v, MARK) == v[|v|..];
    assert MARK + "" == MARK;
  }

  /** The mark is not masked again, but by a single or a double star. */
  lemma MarkStays(v: Secret)
    requires v != "*" && v != "**"
    ensures Mask(MARK, v) == MARK
  {
    if v == MARK {
      MaskOfItself(v);
    } else {
      forall i ensures !OccursAt(v, MARK, i) {
        if OccursAt(v, MARK, i) {
          StarsOnly(v, i);
        }
      }
      NothingToMask(MARK, v);
    }
  }

  lemma StarsOnly(v: string, i: nat)
    requires OccursAt(v, MARK, i)
    ensures v == "" || v == "*" || v == "**" || v == MARK
  {
    assert forall j :: 0 <= j < |v| ==> v[j] == MARK[i..i + |v|][j] == '*';
  }

  lemma {:induction false} MaskedFrom(values: seq<Secret>, n: nat, m: nat)
    requires n < m <= |values| && "*" !in values && "**" !in values
    requires forall i :: 0 <= i < n ==> values[i] != values[n] && |values[i]| >= |values[n]|
    ensures MaskEach(values[n], values[..m]) == MARK
  {
    var v := values[n];
    assert values[..m][..m - 1] == values[..m - 1];
    if m == n + 1 {
      LongerIsNotInside(values, v, n);
      assert values[..m][n] == v;
      MaskOfItself(v);
    } else {
      MaskedFrom(values, n, m - 1);
      assert values[m - 1] in values;
      MarkStays(values[m - 1]);
    }
  }

  /** A text that is one of the secrets becomes the mask and nothing else: no shorter secret cuts into it first. */
  lemma WholeSecretBecomesMask(values: seq<Secret>, v: Secret)
    requires LongestFirst(values) && v in values && "*" !in values && "**" !in values
    ensures MaskEach(v, values) == MARK
  {
    var n := FirstIndex(values, v);
    MaskedFrom(values, n, |values|);
    assert values[..|values|] == values;
  }

  /** Masking redacted text again with values that are safe changes nothing. */
  lemma {:induction false} MaskingIsIdempotent(text: string, values: seq<Secret>, again: seq<Secret>)
    requires forall x :: x in again ==> x in values && Safe(x)
    ensures MaskEach(MaskEach(text, values), again) == MaskEach(text, values)
  {
    hide Safe, ReplaceAll;
    if again != [] {
      var last := again[|again| - 1];
      assert last in again;
      MaskingIsIdempotent(text, values, again[..|again| - 1]);
      NothingLeaks(text, values, last);
      NothingToMask(MaskEach(text, values), last);
    }
  }
}
