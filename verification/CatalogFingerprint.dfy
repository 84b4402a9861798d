/** What the fingerprint of a command tells apart. */
module CatalogFingerprint {
  import opened CatalogRows
  import opened Text

  // Joined lists

  predicate Without(parts: seq<string>, c: char) {
    forall p :: p in parts ==> c !in p
  }

  lemma WithoutParts(parts: seq<string>, c: char)
    requires parts != [] && Without(parts, c)
    ensures Without(parts[..|parts| - 1], c) && c !in parts[|parts| - 1]
  {
  }

  lemma LastSeparator(x: string, y: string, c: char, a: string, b: string)
    requires x + [c] + a == y + [c] + b && c !in a && c !in b
    ensures x == y && a == b
  {
    var s := x + [c] + a;
    var t := y + [c] + b;
    assert s[|x|] == c && t[|y|] == c;
    assert s[..|x|] == x && t[..|y|] == y && s[|x| + 1..] == a && t[|y| + 1..] == b;
  }

  lemma OneMoreSeparator(x: string, c: char, a: string, b: string)
    requires c !in b
    ensures x + [c] + a != b
  {
    assert (x + [c] + a)[|x|] == c;
  }

  /** Lists that do not hold the separator can be told from their joins. */
  lemma {:induction false} JoinTells(a: seq<string>, b: seq<string>, c: char)
    requires a != [] && b != [] && Without(a, c) && Without(b, c)
    requires Join(a, [c]) == Join(b, [c])
    ensures a == b
    decreases |a|
  {
    hide Without;
    var m, n := |a| - 1, |b| - 1;
    WithoutParts(a, c);
    WithoutParts(b, c);
    if m == 0 && n > 0 {
      OneMoreSeparator(Join(b[..n], [c]), c, b[n], a[0]);
    } else if m > 0 && n == 0 {
      OneMoreSeparator(Join(a[..m], [c]), c, a[m], b[0]);
    } else if m > 0 && n > 0 {
      LastSeparator(Join(a[..m], [c]), Join(b[..n], [c]), c, a[m], b[n]);
      JoinTells(a[..m], b[..n], c);
      assert a == a[..m] + [a[m]] && b == b[..n] + [b[n]];
    }
  }

  lemma {:induction false} JoinHasNone(parts: seq<string>, separator: string, c: char)
    requires Without(parts, c) && c !in separator
    ensures c !in Join(parts, separator)
  {
    if parts != [] {
      WithoutParts(parts, c);
      hide Without;
      if |parts| > 1 {
        JoinHasNone(parts[..|parts| - 1], separator, c);
      }
    }
  }

  // Words

  lemma {:induction false} WordHasNoSpace(s: string)
    ensures forall c :: c in s[..WordEnd(s)] ==> !IsSpace(c) && c in s
  {
    hide IsSpace;
    if s != "" && !IsSpace(s[0]) {
      WordHasNoSpace(s[1..]);
      assert s[..WordEnd(s)] == [s[0]] + s[1..][..WordEnd(s[1..])];
    }
  }

  lemma {:induction false} WordsAreWords(s: string)
    ensures forall w :: w in Fields(s) ==> w != "" && forall c :: c in w ==> !IsSpace(c) && c in s
    decreases |s|
  {
    hide IsSpace;
    if s != "" {
      if IsSpace(s[0]) {
        WordsAreWords(s[1..]);
      } else {
        WordHasNoSpace(s);
        WordsAreWords(s[WordEnd(s)..]);
      }
    }
  }

  function Words(s: string): string {
    Join(Fields(s), " ")
  }

  lemma WordsTell(a: string, b: string)
    ensures Words(a) == Words(b) <==> Fields(a) == Fields(b)
  {
    hide Fields;
    WordsAreWords(a);
    WordsAreWords(b);
    assert Without(Fields(a), ' ') && Without(Fields(b), ' ') by {
      assert IsSpace(' ');
    }
    if Words(a) == Words(b) {
      if Fields(a) != [] && Fields(b) != [] {
        JoinTells(Fields(a), Fields(b), ' ');
      } else if Fields(a) != [] {
        JoinNotBlank(Fields(a));
      } else if Fields(b) != [] {
        JoinNotBlank(Fields(b));
      }
    }
  }

  lemma JoinNotBlank(parts: seq<string>)
    requires parts != [] && forall p :: p in parts ==> p != ""
    ensures Join(parts, " ") != ""
  {
    assert parts[0] in parts;
  }

  // Fingerprints

  predicate NoNul(s: string) {
    '\0' !in s
  }

  /** What a caller can check of a launch. */
  predicate Plain(project: string, launch: Launch) {
    && NoNul(project) && NoNul(launch.command) && NoNul(launch.cwd) && NoNul(launch.shell) && NoNul(launch.kind)
    && NoNul(launch.lifecycleMode) && NoNul(launch.stopCommand) && NoNul(launch.restartCommand)
  }

  lemma {:induction false} TrimLeftTakes(s: string)
    ensures forall c :: c in TrimLeft(s) ==> c in s
  {
    hide IsSpace;
    if s != "" && IsSpace(s[0]) {
      TrimLeftTakes(s[1..]);
    }
  }

  lemma {:induction false} TrimRightTakes(s: string)
    ensures forall c :: c in TrimRight(s) ==> c in s
  {
    hide IsSpace;
    if s != "" && IsSpace(s[|s| - 1]) {
      TrimRightTakes(s[..|s| - 1]);
    }
  }

  lemma TrimStaysPlain(s: string)
    requires NoNul(s)
    ensures NoNul(Trim(s))
  {
    TrimLeftTakes(s);
    TrimRightTakes(TrimLeft(s));
  }

  lemma WordsStayPlain(s: string)
    requires NoNul(s)
    ensures NoNul(Words(s))
  {
    WordsAreWords(s);
    JoinHasNone(Fields(s), " ", '\0');
  }

  /** The parts that are joined and digested. */
  function Parts(project: string, launch: Launch): seq<string> {
    [Trim(project), Trim(launch.cwd), OrDefault(Trim(launch.shell), "/bin/sh"), Words(launch.command),
     OrDefault(Trim(launch.kind), "service"), Trim(launch.lifecycleMode), Words(launch.stopCommand), Words(launch.restartCommand)]
  }

  lemma PartsStayPlain(project: string, launch: Launch)
    requires Plain(project, launch)
    ensures Without(Parts(project, launch), '\0')
  {
    hide Trim, Words;
    TrimStaysPlain(project);
    TrimStaysPlain(launch.cwd);
    TrimStaysPlain(launch.shell);
    TrimStaysPlain(launch.kind);
    TrimStaysPlain(launch.lifecycleMode);
    WordsStayPlain(launch.command);
    WordsStayPlain(launch.stopCommand);
    WordsStayPlain(launch.restartCommand);
  }

  /** Launches count as the same up to white space, with a shell and a kind to fall back on. */
  predicate SameLaunch(project: string, a: Launch, other: string, b: Launch) {
    && Trim(project) == Trim(other) && Trim(a.cwd) == Trim(b.cwd)
    && OrDefault(Trim(a.shell), "/bin/sh") == OrDefault(Trim(b.shell), "/bin/sh")
    && OrDefault(Trim(a.kind), "service") == OrDefault(Trim(b.kind), "service")
    && Trim(a.lifecycleMode) == Trim(b.lifecycleMode)
    && Fields(a.command) == Fields(b.command)
    && Fields(a.stopCommand) == Fields(b.stopCommand)
    && Fields(a.restartCommand) == Fields(b.restartCommand)
  }

  lemma SameParts(project: string, a: Launch, other: string, b: Launch)
    ensures Parts(project, a) == Parts(other, b) <==> SameLaunch(project, a, other, b)
  {
    hide Trim, Fields, Words, OrDefault;
    WordsTell(a.command, b.command);
    WordsTell(a.stopCommand, b.stopCommand);
    WordsTell(a.restartCommand, b.restartCommand);
    var x, y := Parts(project, a), Parts(other, b);
    assert x == y <==> x[0] == y[0] && x[1] == y[1] && x[2] == y[2] && x[3] == y[3] && x[4] == y[4] && x[5] == y[5] && x[6] == y[6] && x[7] == y[7];
  }

  lemma FingerprintOfParts(project: string, launch: Launch)
    ensures CommandFingerprint(project, launch) == Digest(Join(Parts(project, launch), "\0"))
  {
    hide Trim, Fields, Join;
  }

  lemma DigestTells(a: string, b: string)
    requires Digest(a) == Digest(b)
    ensures a == b
  {
    assert Digest(a)[1..] == a && Digest(b)[1..] == b;
  }

  /** Commands without NUL characters share a fingerprint if and only if they count as the same launch of one project. */
  lemma FingerprintTells(project: string, a: Launch, other: string, b: Launch)
    requires Plain(project, a) && Plain(other, b)
    ensures CommandFingerprint(project, a) == CommandFingerprint(other, b) <==> SameLaunch(project, a, other, b)
  {
    hide Plain, SameLaunch, Digest, Join, Parts, CommandFingerprint;
    FingerprintOfParts(project, a);
    FingerprintOfParts(other, b);
    SameParts(project, a, other, b);
    PartsStayPlain(project, a);
    PartsStayPlain(other, b);
    if CommandFingerprint(project, a) == CommandFingerprint(other, b) {
      DigestTells(Join(Parts(project, a), "\0"), Join(Parts(other, b), "\0"));
      PartsExist(project, a);
      PartsExist(other, b);
      JoinTells(Parts(project, a), Parts(other, b), '\0');
    }
  }

  lemma PartsExist(project: string, launch: Launch)
    ensures Parts(project, launch) != []
  {
  }
}
