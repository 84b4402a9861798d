/**
 The environment library: normalization, redaction for readers, and the restoring of
 redacted secrets when a reader sends the library back. Go visits map entries in no
 particular order, so loops over maps take them in an arbitrary one.
 */
module Environments {
  import opened Digraph
  import opened Positions
  import opened Results
  import opened Text
  import P = Placeholders

  const RESERVED := "custom"
  const MARK := "***"
  const MAX_NAME := 32

  type Row = map<string, string>

  type Values = map<string, Row>

  datatype Library = Library(names: seq<string>, keys: seq<string>, secretKeys: seq<string>, values: Values)

  datatype Error = ReservedName | InvalidName(raw: string) | NoName | InvalidKey(raw: string)

  // Names

  predicate NameChar(c: char) {
    'a' <= c <= 'z' || '0' <= c <= '9' || c == '_' || c == '-'
  }

  predicate ValidName(n: string) {
    && n != "" && |n| <= MAX_NAME && 'a' <= n[0] <= 'z'
    && (forall c :: c in n ==> NameChar(c))
    && n != RESERVED
  }

  function NormalName(raw: string): string {
    Lower(Trim(raw))
  }

  lemma ValidNameIsNormal(n: string)
    requires ValidName(n)
    ensures NormalName(n) == n && n != "" && n != RESERVED
  {
    hide Trim;
    assert n[0] in n && n[|n| - 1] in n;
    TrimTrims(n);
    forall i | 0 <= i < |n| ensures Lower(n)[i] == n[i] {
      assert n[i] in n;
    }
  }

  lemma ValidKeyIsNormal(k: string)
    requires P.ValidKey(k)
    ensures Trim(k) == k && k != ""
  {
    hide Trim;
    assert k[0] in k && k[|k| - 1] in k;
    TrimTrims(k);
  }

  function NormalNames(raws: seq<string>): Result<seq<string>, Error> {
    if raws == [] then Ok([])
    else
      var before, name := NormalNames(raws[..|raws| - 1]), NormalName(raws[|raws| - 1]);
      if before.Err? || name == "" then before
      else if name == RESERVED then Err(ReservedName)
      else if !ValidName(name) then Err(InvalidName(raws[|raws| - 1]))
      else if name in before.value then before
      else Ok(before.value + [name])
  }

  function NormalKeys(raws: seq<string>): Result<seq<string>, Error> {
    if raws == [] then Ok([])
    else
      var before, key := NormalKeys(raws[..|raws| - 1]), Trim(raws[|raws| - 1]);
      if before.Err? || key == "" then before
      else if !P.ValidKey(key) then Err(InvalidKey(raws[|raws| - 1]))
      else if key in before.value then before
      else Ok(before.value + [key])
  }

  function NormalSecrets(raws: seq<string>, keys: seq<string>): seq<string> {
    if raws == [] then []
    else
      var before, key := NormalSecrets(raws[..|raws| - 1], keys), Trim(raws[|raws| - 1]);
      if key !in keys || key in before then before else before + [key]
  }

  /** What a row becomes: entries for known environments, each with a value that was given for it. */
  ghost predicate RowFrom(byEnv: Row, names: seq<string>, row: Row) {
    && (forall env :: env in row ==> env in names && exists raw :: raw in byEnv && NormalName(raw) == env && byEnv[raw] == row[env])
    && (forall raw :: raw in byEnv && NormalName(raw) in names ==> NormalName(raw) in row)
  }

  ghost predicate ValuesFrom(values: Values, names: seq<string>, keys: seq<string>, out: Values) {
    && (forall key :: key in out ==>
          && key in keys && out[key] != map[]
          && exists raw :: raw in values && Trim(raw) == key && RowFrom(values[raw], names, out[key]))
    && (forall raw, env :: raw in values && Trim(raw) in keys && env in values[raw] && NormalName(env) in names ==> Trim(raw) in out)
  }

  ghost predicate Normalizes(lib: Library, r: Result<Library, Error>) {
    var names, keys := NormalNames(lib.names), NormalKeys(lib.keys);
    if names.Err? then r == Err(names.error)
    else if names.value == [] then r == Err(NoName)
    else if keys.Err? then r == Err(keys.error)
    else
      && r.Ok? && r.value.names == names.value && r.value.keys == keys.value
      && r.value.secretKeys == NormalSecrets(lib.secretKeys, keys.value)
      && ValuesFrom(lib.values, names.value, keys.value, r.value.values)
  }

  // The normalizer

  method NormalizeNames(raws: seq<string>) returns (r: Result<seq<string>, Error>)
    ensures r == NormalNames(raws)
  {
    hide ValidName, NormalName;
    var seen: set<string> := {};
    var names: seq<string> := [];
    for i := 0 to |raws|
      invariant NormalNames(raws[..i]) == Ok(names)
      invariant forall n :: n in seen <==> n in names
    {
      assert raws[..i + 1][..i] == raws[..i];
      NamesStopAtError(raws, i + 1);
      var name := NormalName(raws[i]);
      if name == "" {
        continue;
      }
      if name == RESERVED {
        return Err(ReservedName);
      }
      if !ValidName(name) {
        return Err(InvalidName(raws[i]));
      }
      if name in seen {
        continue;
      }
      seen := seen + {name};
      names := names + [name];
    }
    assert raws[..|raws|] == raws;
    return Ok(names);
  }

  lemma {:induction false} NamesStopAtError(raws: seq<string>, n: nat)
    requires n <= |raws|
    ensures NormalNames(raws[..n]).Err? ==> NormalNames(raws) == NormalNames(raws[..n])
  {
    hide ValidName, NormalName;
    if n < |raws| {
      NamesStopAtError(raws[..|raws| - 1], n);
      assert raws[..|raws| - 1][..n] == raws[..n];
    } else {
      assert raws[..n] == raws;
    }
  }

  method NormalizeKeys(raws: seq<string>) returns (r: Result<seq<string>, Error>)
    ensures r == NormalKeys(raws)
  {
    hide P.ValidKey, Trim;
    var seen: set<string> := {};
    var keys: seq<string> := [];
    for i := 0 to |raws|
      invariant NormalKeys(raws[..i]) == Ok(keys)
      invariant forall k :: k in seen <==> k in keys
    {
      assert raws[..i + 1][..i] == raws[..i];
      KeysStopAtError(raws, i + 1);
      var key := Trim(raws[i]);
      if key == "" {
        continue;
      }
      if !P.ValidKey(key) {
        return Err(InvalidKey(raws[i]));
      }
      if key in seen {
        continue;
      }
      seen := seen + {key};
      keys := keys + [key];
    }
    assert raws[..|raws|] == raws;
    return Ok(keys);
  }

  lemma {:induction false} KeysStopAtError(raws: seq<string>, n: nat)
    requires n <= |raws|
    ensures NormalKeys(raws[..n]).Err? ==> NormalKeys(raws) == NormalKeys(raws[..n])
  {
    hide P.ValidKey, Trim;
    if n < |raws| {
      KeysStopAtError(raws[..|raws| - 1], n);
      assert raws[..|raws| - 1][..n] == raws[..n];
    } else {
      assert raws[..n] == raws;
    }
  }

  method NormalizeSecrets(raws: seq<string>, keys: seq<string>) returns (secrets: seq<string>)
    ensures secrets == NormalSecrets(raws, keys)
  {
    hide Trim;
    var seen: set<string> := {};
    secrets := [];
    for i := 0 to |raws|
      invariant secrets == NormalSecrets(raws[..i], keys)
      invariant forall k :: k in seen <==> k in secrets
    {
      assert raws[..i + 1][..i] == raws[..i];
      var key := Trim(raws[i]);
      if key !in keys || key in seen {
        continue;
      }
      seen := seen + {key};
      secrets := secrets + [key];
    }
    assert raws[..|raws|] == raws;
  }

  method NormalizeRow(byEnv: Row, names: seq<string>) returns (row: Row)
    ensures RowFrom(byEnv, names, row)
  {
    hide NormalName;
    row := map[];
    var rest := byEnv.Keys;
    while rest != {}
      invariant rest <= byEnv.Keys
      invariant forall env :: env in row ==> env in names && exists raw :: raw in byEnv && NormalName(raw) == env && byEnv[raw] == row[env]
      invariant forall raw :: raw in byEnv.Keys - rest && NormalName(raw) in names ==> NormalName(raw) in row
      decreases rest
    {
      var raw :| raw in rest;
      rest := rest - {raw};
      var env := NormalName(raw);
      if env !in names {
        continue;
      }
      row := row[env := byEnv[raw]];
    }
  }

  method NormalizeValues(values: Values, names: seq<string>, keys: seq<string>) returns (out: Values)
    ensures ValuesFrom(values, names, keys, out)
  {
    hide RowFrom, Trim, NormalName;
    out := map[];
    var rest := values.Keys;
    while rest != {}
      invariant rest <= values.Keys
      invariant forall key :: key in out ==>
                  && key in keys && out[key] != map[]
                  && exists raw :: raw in values && Trim(raw) == key && RowFrom(values[raw], names, out[key])
      invariant forall raw, env :: raw in values.Keys - rest && Trim(raw) in keys && env in values[raw] && NormalName(env) in names
                  ==> Trim(raw) in out
      decreases rest
    {
      var raw :| raw in rest;
      rest := rest - {raw};
      var key := Trim(raw);
      if key !in keys {
        continue;
      }
      var row := NormalizeRow(values[raw], names);
      if row != map[] {
        out := out[key := row];
      } else {
        RowNotEmpty(values[raw], names, row);
      }
    }
  }

  lemma RowNotEmpty(byEnv: Row, names: seq<string>, row: Row)
    requires RowFrom(byEnv, names, row) && row == map[]
    ensures forall env :: env in byEnv ==> NormalName(env) !in names
  {
  }

  method NormalizeEnvironmentLibrary(lib: Library) returns (r: Result<Library, Error>)
    ensures Normalizes(lib, r)
  {
    var names := NormalizeNames(lib.names);
    if names.Err? {
      return Err(names.error);
    }
    if |names.value| == 0 {
      return Err(NoName);
    }
    var keys := NormalizeKeys(lib.keys);
    if keys.Err? {
      return Err(keys.error);
    }
    var values := NormalizeValues(lib.values, names.value, keys.value);
    var secretKeys := NormalizeSecrets(lib.secretKeys, keys.value);
    return Ok(Library(names.value, keys.value, secretKeys, values));
  }

  // What the lists become, said of the lists

  predicate NotBlank(s: string) {
    s != ""
  }

  function Among(keys: seq<string>): string -> bool {
    key => key in keys
  }

  function AllNormal(raws: seq<string>): (all: seq<string>)
    ensures |all| == |raws|
  {
    if raws == [] then [] else AllNormal(raws[..|raws| - 1]) + [NormalName(raws[|raws| - 1])]
  }

  function AllTrimmed(raws: seq<string>): (all: seq<string>)
    ensures |all| == |raws|
  {
    if raws == [] then [] else AllTrimmed(raws[..|raws| - 1]) + [Trim(raws[|raws| - 1])]
  }

  lemma {:induction false} AllNormalAt(raws: seq<string>, i: nat)
    requires i < |raws|
    ensures AllNormal(raws)[i] == Lower(Trim(raws[i])) && AllTrimmed(raws)[i] == Trim(raws[i])
  {
    hide Lower, Trim;
    if i < |raws| - 1 {
      AllNormalAt(raws[..|raws| - 1], i);
    }
  }

  /** The first raw name that is neither blank nor valid. */
  ghost predicate FirstBadName(raws: seq<string>, i: nat) {
    && i < |raws| && NormalName(raws[i]) != "" && !ValidName(NormalName(raws[i]))
    && forall j :: 0 <= j < i ==> NormalName(raws[j]) == "" || ValidName(NormalName(raws[j]))
  }

  ghost predicate FirstBadKey(raws: seq<string>, i: nat) {
    && i < |raws| && Trim(raws[i]) != "" && !P.ValidKey(Trim(raws[i]))
    && forall j :: 0 <= j < i ==> Trim(raws[j]) == "" || P.ValidKey(Trim(raws[j]))
  }

  /** Each name that is not blank is kept once, in the order of first mention; the first bad one is reported. */
  lemma {:induction false} NormalNamesMean(raws: seq<string>)
    ensures var r := NormalNames(raws);
            && (r.Ok? ==> Firsts(AllNormal(raws), NotBlank, r.value))
            && (r.Ok? ==> forall i :: 0 <= i < |raws| ==> NormalName(raws[i]) == "" || ValidName(NormalName(raws[i])))
            && (r.Err? ==> exists i: nat :: FirstBadName(raws, i) &&
                                            r.error == if NormalName(raws[i]) == RESERVED then ReservedName else InvalidName(raws[i]))
  {
    hide ValidName, NormalName, Firsts;
    if raws == [] {
      NoFirsts(NotBlank);
    } else {
      var n := |raws| - 1;
      NormalNamesMean(raws[..n]);
      ReservedIsInvalid();
      var before := NormalNames(raws[..n]);
      if before.Ok? {
        NextFirst(AllNormal(raws[..n]), NotBlank, before.value, NormalName(raws[n]));
        assert forall j :: 0 <= j < n ==> raws[j] == raws[..n][j];
        assert NormalNames(raws).Err? ==> FirstBadName(raws, n);
      } else {
        var i: nat :| FirstBadName(raws[..n], i) && before.error == if NormalName(raws[i]) == RESERVED then ReservedName else InvalidName(raws[i]);
        assert FirstBadName(raws, i) by {
          assert forall j :: 0 <= j < n ==> raws[j] == raws[..n][j];
        }
      }
    }
  }

  lemma ReservedIsInvalid()
    ensures !ValidName(RESERVED)
  {
  }

  lemma {:induction false} NormalKeysMean(raws: seq<string>)
    ensures var r := NormalKeys(raws);
            && (r.Ok? ==> Firsts(AllTrimmed(raws), NotBlank, r.value))
            && (r.Ok? ==> forall i :: 0 <= i < |raws| ==> Trim(raws[i]) == "" || P.ValidKey(Trim(raws[i])))
            && (r.Err? ==> exists i: nat :: FirstBadKey(raws, i) && r.error == InvalidKey(raws[i]))
  {
    hide P.ValidKey, Trim, Firsts;
    if raws == [] {
      NoFirsts(NotBlank);
    } else {
      var n := |raws| - 1;
      NormalKeysMean(raws[..n]);
      var before := NormalKeys(raws[..n]);
      if before.Ok? {
        NextFirst(AllTrimmed(raws[..n]), NotBlank, before.value, Trim(raws[n]));
        assert forall j :: 0 <= j < n ==> raws[j] == raws[..n][j];
        assert NormalKeys(raws).Err? ==> FirstBadKey(raws, n);
      } else {
        var i: nat :| FirstBadKey(raws[..n], i) && before.error == InvalidKey(raws[i]);
        assert FirstBadKey(raws, i) by {
          assert forall j :: 0 <= j < n ==> raws[j] == raws[..n][j];
        }
      }
    }
  }

  lemma {:induction false} NormalSecretsMean(raws: seq<string>, keys: seq<string>)
    ensures Firsts(AllTrimmed(raws), Among(keys), NormalSecrets(raws, keys))
  {
    hide Trim, Firsts;
    if raws == [] {
      NoFirsts(Among(keys));
    } else {
      var n := |raws| - 1;
      NormalSecretsMean(raws[..n], keys);
      NextFirst(AllTrimmed(raws[..n]), Among(keys), NormalSecrets(raws[..n], keys), Trim(raws[n]));
    }
  }

  // Normal libraries

  ghost predicate Normal(lib: Library) {
    && lib.names != [] && Distinct(lib.names) && (forall n :: n in lib.names ==> ValidName(n))
    && Distinct(lib.keys) && (forall k :: k in lib.keys ==> P.ValidKey(k))
    && Distinct(lib.secretKeys) && (forall k :: k in lib.secretKeys ==> k in lib.keys)
    && NormalValues(lib.names, lib.keys, lib.values)
  }

  ghost predicate NormalValues(names: seq<string>, keys: seq<string>, values: Values) {
    && (forall k :: k in values ==> k in keys && values[k] != map[])
    && (forall k, e :: k in values && e in values[k] ==> e in names)
  }

  lemma {:induction false} NamesAreNormal(raws: seq<string>)
    ensures NormalNames(raws).Ok? ==>
              Distinct(NormalNames(raws).value) && forall n :: n in NormalNames(raws).value ==> ValidName(n)
  {
    hide ValidName, NormalName;
    if raws != [] {
      NamesAreNormal(raws[..|raws| - 1]);
      var before, name := NormalNames(raws[..|raws| - 1]), NormalName(raws[|raws| - 1]);
      if before.Ok? && name !in before.value {
        DistinctGrows(before.value, name);
      }
    }
  }

  lemma {:induction false} KeysAreNormal(raws: seq<string>)
    ensures NormalKeys(raws).Ok? ==>
              Distinct(NormalKeys(raws).value) && forall k :: k in NormalKeys(raws).value ==> P.ValidKey(k)
  {
    hide P.ValidKey, Trim;
    if raws != [] {
      KeysAreNormal(raws[..|raws| - 1]);
      var before, key := NormalKeys(raws[..|raws| - 1]), Trim(raws[|raws| - 1]);
      if before.Ok? && key !in before.value {
        DistinctGrows(before.value, key);
      }
    }
  }

  lemma {:induction false} SecretsAreNormal(raws: seq<string>, keys: seq<string>)
    ensures Distinct(NormalSecrets(raws, keys)) && forall k :: k in NormalSecrets(raws, keys) ==> k in keys
  {
    hide Trim;
    if raws != [] {
      SecretsAreNormal(raws[..|raws| - 1], keys);
      var before, key := NormalSecrets(raws[..|raws| - 1], keys), Trim(raws[|raws| - 1]);
      if key !in before {
        DistinctGrows(before, key);
      }
    }
  }

  /** What the normalizer accepts comes out normal. */
  lemma NormalizedIsNormal(lib: Library, r: Result<Library, Error>)
    requires Normalizes(lib, r) && r.Ok?
    ensures Normal(r.value)
  {
    hide ValidName, NormalName, Trim, P.ValidKey, Distinct;
    NamesAreNormal(lib.names);
    KeysAreNormal(lib.keys);
    SecretsAreNormal(lib.secretKeys, r.value.keys);
  }

  lemma {:induction false} NormalNamesStay(names: seq<string>)
    requires Distinct(names) && forall n :: n in names ==> ValidName(n)
    ensures NormalNames(names) == Ok(names)
  {
    hide ValidName, NormalName;
    if names != [] {
      var before, last := names[..|names| - 1], names[|names| - 1];
      assert last in names && forall n :: n in before ==> n in names;
      NormalNamesStay(before);
      ValidNameIsNormal(last);
      assert names == before + [last];
    }
  }

  lemma {:induction false} NormalKeysStay(keys: seq<string>)
    requires Distinct(keys) && forall k :: k in keys ==> P.ValidKey(k)
    ensures NormalKeys(keys) == Ok(keys)
  {
    hide Trim, P.ValidKey;
    if keys != [] {
      var before, last := keys[..|keys| - 1], keys[|keys| - 1];
      assert last in keys && forall k :: k in before ==> k in keys;
      NormalKeysStay(before);
      ValidKeyIsNormal(last);
      assert keys == before + [last];
    }
  }

  lemma {:induction false} NormalSecretsStay(secrets: seq<string>, keys: seq<string>)
    requires Distinct(secrets) && forall k :: k in secrets ==> k in keys && P.ValidKey(k)
    ensures NormalSecrets(secrets, keys) == secrets
  {
    hide Trim, P.ValidKey;
    if secrets != [] {
      var before, last := secrets[..|secrets| - 1], secrets[|secrets| - 1];
      assert last in secrets && forall k :: k in before ==> k in secrets;
      NormalSecretsStay(before, keys);
      ValidKeyIsNormal(last);
      assert secrets == before + [last];
    }
  }

  lemma NormalRowStays(byEnv: Row, names: seq<string>, row: Row)
    requires (forall n :: n in names ==> ValidName(n)) && (forall e :: e in byEnv ==> e in names)
    requires RowFrom(byEnv, names, row)
    ensures row == byEnv
  {
    hide ValidName, NormalName;
    forall e | e in byEnv ensures NormalName(e) == e {
      ValidNameIsNormal(e);
    }
  }

  lemma NormalValuesStay(lib: Library, out: Values)
    requires Normal(lib) && ValuesFrom(lib.values, lib.names, lib.keys, out)
    ensures out == lib.values
  {
    hide ValidName, NormalName, Trim, P.ValidKey, Distinct, RowFrom;
    forall k | k in lib.values ensures Trim(k) == k && k in out {
      ValidKeyIsNormal(k);
      assert lib.values[k] != map[];
      var env :| env in lib.values[k];
      ValidNameIsNormal(env);
    }
    forall k | k in out ensures k in lib.values && out[k] == lib.values[k] {
      var raw :| raw in lib.values && Trim(raw) == k && RowFrom(lib.values[raw], lib.names, out[k]);
      NormalRowStays(lib.values[raw], lib.names, out[k]);
    }
  }

  /** Normalizing a normal library, in whatever order its maps are visited, gives that library. */
  lemma NormalStays(lib: Library, r: Result<Library, Error>)
    requires Normal(lib) && Normalizes(lib, r)
    ensures r == Ok(lib)
  {
    hide ValidName, NormalName, Trim, P.ValidKey, Distinct, ValuesFrom;
    NormalNamesStay(lib.names);
    NormalKeysStay(lib.keys);
    NormalSecretsStay(lib.secretKeys, lib.keys);
    NormalValuesStay(lib, r.value.values);
  }

  // Redaction and restoring

  function RedactedValue(secret: bool, value: string): string {
    if secret && value != "" then MARK else value
  }

  function RedactedRow(secret: bool, byEnv: Row): (row: Row)
    ensures row.Keys == byEnv.Keys
  {
    map e | e in byEnv :: RedactedValue(secret, byEnv[e])
  }

  function RedactedValues(lib: Library): Values {
    map k | k in lib.values && lib.values[k] != map[] :: RedactedRow(k in lib.secretKeys, lib.values[k])
  }

  function Redacted(lib: Library): Library {
    lib.(values := RedactedValues(lib))
  }

  function RestoredValue(stored: Values, secret: bool, key: string, env: string, value: string): string {
    if secret && value == MARK && key in stored && env in stored[key] then stored[key][env] else value
  }

  function RestoredRow(stored: Values, secret: bool, key: string, byEnv: Row): (row: Row)
    ensures row.Keys == byEnv.Keys
  {
    map e | e in byEnv :: RestoredValue(stored, secret, key, e, byEnv[e])
  }

  function Restored(stored: Library, incoming: Library): Library {
    if incoming.secretKeys == [] then incoming
    else
      incoming.(values := map k | k in incoming.values && incoming.values[k] != map[] ::
                  RestoredRow(stored.values, k in incoming.secretKeys, k, incoming.values[k]))
  }

  lemma EmptyRow(row: Row)
    ensures row.Keys == {} <==> row == map[]
  {
  }

  method RedactEnvironmentLibrary(lib: Library) returns (out: Library)
    ensures out == Redacted(lib)
  {
    hide RedactedRow;
    var values: Values := map[];
    var rest := lib.values.Keys;
    while rest != {}
      invariant rest <= lib.values.Keys
      invariant forall k :: k in values <==> k in lib.values.Keys - rest && lib.values[k] != map[]
      invariant forall k :: k in values ==> values[k] == RedactedRow(k in lib.secretKeys, lib.values[k])
      decreases rest
    {
      var key :| key in rest;
      rest := rest - {key};
      var row := RedactRow(key in lib.secretKeys, lib.values[key]);
      EmptyRow(row);
      EmptyRow(lib.values[key]);
      if |row| > 0 {
        values := values[key := row];
      }
    }
    assert values == RedactedValues(lib);
    return lib.(values := values);
  }

  method RedactRow(secret: bool, byEnv: Row) returns (row: Row)
    ensures row == RedactedRow(secret, byEnv)
  {
    row := map[];
    var envs := byEnv.Keys;
    while envs != {}
      invariant envs <= byEnv.Keys
      invariant row.Keys == byEnv.Keys - envs
      invariant forall e :: e in row ==> row[e] == RedactedValue(secret, byEnv[e])
      decreases envs
    {
      var env :| env in envs;
      envs := envs - {env};
      if secret && byEnv[env] != "" {
        row := row[env := MARK];
      } else {
        row := row[env := byEnv[env]];
      }
    }
  }

  method RestoreRedactedSecrets(stored: Library, incoming: Library) returns (out: Library)
    ensures out == Restored(stored, incoming)
  {
    hide RestoredRow;
    if |incoming.secretKeys| == 0 {
      return incoming;
    }
    var values: Values := map[];
    var rest := incoming.values.Keys;
    while rest != {}
      invariant rest <= incoming.values.Keys
      invariant forall k :: k in values <==> k in incoming.values.Keys - rest && incoming.values[k] != map[]
      invariant forall k :: k in values ==> values[k] == RestoredRow(stored.values, k in incoming.secretKeys, k, incoming.values[k])
      decreases rest
    {
      var key :| key in rest;
      rest := rest - {key};
      var row := RestoreRow(stored.values, key in incoming.secretKeys, key, incoming.values[key]);
      EmptyRow(row);
      EmptyRow(incoming.values[key]);
      if |row| > 0 {
        values := values[key := row];
      }
    }
    assert values == Restored(stored, incoming).values;
    return incoming.(values := values);
  }

  method RestoreRow(stored: Values, secret: bool, key: string, byEnv: Row) returns (row: Row)
    ensures row == RestoredRow(stored, secret, key, byEnv)
  {
    row := map[];
    var envs := byEnv.Keys;
    while envs != {}
      invariant envs <= byEnv.Keys
      invariant row.Keys == byEnv.Keys - envs
      invariant forall e :: e in row ==> row[e] == RestoredValue(stored, secret, key, e, byEnv[e])
      decreases envs
    {
      var env :| env in envs;
      envs := envs - {env};
      if secret && byEnv[env] == MARK && key in stored && env in stored[key] {
        row := row[env := stored[key][env]];
        continue;
      }
      row := row[env := byEnv[env]];
    }
  }

  /** A redacted library has the rows and environments of the library; of a secret it shows at most whether it is empty. */
  lemma RedactionShowsNothing(lib: Library, key: string, env: string)
    ensures key in Redacted(lib).values && env in Redacted(lib).values[key] <==> key in lib.values && env in lib.values[key]
    ensures key in lib.values && env in lib.values[key] && key in lib.secretKeys ==>
              Redacted(lib).values[key][env] == if lib.values[key][env] == "" then "" else MARK
    ensures key in lib.values && env in lib.values[key] && key !in lib.secretKeys ==>
              Redacted(lib).values[key][env] == lib.values[key][env]
  {
  }

  /** Restoring takes the stored value of a secret that came in marked, and otherwise keeps what came in. */
  lemma RestoreKeepsTheRest(stored: Library, incoming: Library, key: string, env: string)
    ensures var out := Restored(stored, incoming);
            && out.names == incoming.names && out.keys == incoming.keys && out.secretKeys == incoming.secretKeys
            && (key in out.values && env in out.values[key] <==> key in incoming.values && env in incoming.values[key])
    ensures key in incoming.values && env in incoming.values[key] ==>
              var out := Restored(stored, incoming).values[key][env]; var sent := incoming.values[key][env];
              if key in incoming.secretKeys && sent == MARK && key in stored.values && env in stored.values[key]
              then out == stored.values[key][env]
              else out == sent
  {
  }

  lemma RedactedIsNormal(lib: Library)
    requires Normal(lib)
    ensures Normal(Redacted(lib)) && Redacted(lib).values.Keys == lib.values.Keys
  {
    hide ValidName, P.ValidKey, Distinct, RedactedRow;
    forall k | k in lib.values ensures Redacted(lib).values[k] != map[] {
      EmptyRow(lib.values[k]);
      EmptyRow(RedactedRow(k in lib.secretKeys, lib.values[k]));
    }
  }

  lemma RowComesBack(stored: Values, key: string, secret: bool)
    requires key in stored
    ensures RestoredRow(stored, secret, key, RedactedRow(secret, stored[key])) == stored[key]
    ensures !secret ==> RedactedRow(secret, stored[key]) == stored[key]
  {
  }

  /** Restoring what was redacted gives back every value, even one that equals the mark. */
  lemma RestoreUndoesRedact(lib: Library)
    requires Normal(lib)
    ensures Restored(lib, Redacted(lib)) == lib
  {
    hide RedactedRow, RestoredRow, Distinct, ValidName, P.ValidKey;
    var red := Redacted(lib);
    RedactedIsNormal(lib);
    forall k | k in lib.values ensures red.values[k] == RedactedRow(k in lib.secretKeys, lib.values[k]) && red.values[k] != map[] {
    }
    hide Normal, RedactedValues;
    forall k | k in lib.values ensures Restored(lib, red).values[k] == lib.values[k] {
      RowComesBack(lib.values, k, k in lib.secretKeys);
    }
    assert Restored(lib, red).values == lib.values;
  }

  lemma RestoredIsNormal(stored: Library, incoming: Library)
    requires Normal(incoming)
    ensures Normal(Restored(stored, incoming))
  {
    hide ValidName, P.ValidKey, Distinct, RestoredRow;
    if incoming.secretKeys != [] {
      var out := Restored(stored, incoming);
      forall k | k in out.values ensures out.values[k] != map[] {
        EmptyRow(incoming.values[k]);
        EmptyRow(RestoredRow(stored.values, k in incoming.secretKeys, k, incoming.values[k]));
      }
    }
  }

  /** The stored library and the request that replaces it. */
  class LibraryStore {
    var library: Library

    ghost predicate Valid()
      reads this
    {
      Normal(library)
    }

    constructor (seeded: Library)
      requires Normal(seeded)
      ensures Valid() && library == seeded
    {
      library := seeded;
    }

    /** Normalize, restore, and save, which normalizes once more. */
    method Put(body: Library) returns (r: Result<Library, Error>)
      requires Valid()
      modifies this
      ensures Valid()
      ensures exists normalized :: Normalizes(body, normalized) &&
                r == (if normalized.Err? then normalized else Ok(Restored(old(library), normalized.value)))
      ensures library == if r.Ok? then r.value else old(library)
      ensures body == Redacted(old(library)) ==> r == Ok(old(library))
    {
      hide Normalizes, Normal, Restored, Redacted;
      var normalized := NormalizeEnvironmentLibrary(body);
      if normalized.Err? {
        if body == Redacted(library) {
          RedactedIsNormal(library);
          NormalStays(body, normalized);
        }
        return normalized;
      }
      NormalizedIsNormal(body, normalized);
      var restored := RestoreRedactedSecrets(library, normalized.value);
      RestoredIsNormal(library, normalized.value);
      var saved := NormalizeEnvironmentLibrary(restored);
      NormalStays(restored, saved);
      if body == Redacted(library) {
        RedactedIsNormal(library);
        NormalStays(body, normalized);
        RestoreUndoesRedact(library);
      }
      library := restored;
      return Ok(restored);
    }
  }
}
