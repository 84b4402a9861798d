/**
 Applying a catalog bundle in one transaction: a project, its collections, its commands
 and its stacks. Applying it once more reuses every row.
 */
module Catalog {
  import opened CatalogRows
  import opened Results
  import opened Text
  import G = Digraph
  import P = Prerequisites

  const DEFAULT_ENVIRONMENT := "local"
  const DEFAULT_WAIT_FOR := "spawn"
  const DEFAULT_WAIT_MS := 30000

  datatype ProjectItem = ProjectItem(id: string, name: string, rootPath: string)

  datatype CollectionItem = CollectionItem(key: string, name: string, parentKey: string, sortOrder: int)

  datatype CommandItem = CommandItem(key: string, collectionKey: string, launch: Launch, details: CommandDetails, createdAt: int)

  datatype MemberItem = MemberItem(
    commandKey: string, dependsOnKeys: seq<string>, waitFor: string, waitTimeoutMs: int,
    environment: string, env: map<string, string>)

  datatype StackItem = StackItem(
    key: string, collectionKey: string, commandKeys: seq<string>, members: seq<MemberItem>,
    details: StackDetails, dependsOnStacks: seq<P.Edge>, environment: string, createdAt: int)

  datatype Bundle = Bundle(
    project: ProjectItem, collections: seq<CollectionItem>, commands: seq<CommandItem>, stacks: seq<StackItem>)

  datatype Db = Db(projects: Table, collections: Table, commands: Table, stacks: Table)

  /** One slot per item, in the order in which the items were written. */
  datatype Report = Report(project: Slot, collections: seq<Slot>, commands: seq<Slot>, stacks: seq<Slot>)

  datatype Failure =
    | StuckCollections(keys: seq<string>)
    | CommandConflict
    | UnknownCommand(key: string)
    | PrerequisiteCycle(id: string)

  function Get(ids: map<string, string>, key: string): string {
    if key in ids then ids[key] else ""
  }

  // Projects

  function ProjectWrite(p: ProjectItem): Write {
    Write(
      Search(None, if p.id != "" then Query(Id, [p.id]) else Query(RootPath, [p.rootPath]), None),
      if p.id != "" then p.id else CatalogId("project", p.rootPath, ""),
      ProjectRow(p.name, p.rootPath), 0)
  }

  function ProjectColumn(p: ProjectItem): Column {
    if p.id != "" then Id else RootPath
  }

  lemma ProjectShaped(p: ProjectItem)
    ensures Shaped(ProjectWrite(p), StableKey, ProjectColumn(p))
  {
  }

  // Collections

  /** What one pass writes, and what it puts off because the parent is not written yet. */
  function Pass(pending: seq<CollectionItem>, known: set<string>): (r: (seq<CollectionItem>, seq<CollectionItem>))
    ensures |r.0| + |r.1| == |pending|
  {
    if pending == [] then ([], [])
    else
      var item := pending[0];
      if item.parentKey != "" && item.parentKey !in known then
        var (written, next) := Pass(pending[1..], known);
        (written, [item] + next)
      else
        var (written, next) := Pass(pending[1..], known + {item.key});
        ([item] + written, next)
  }

  function KeysOf(items: seq<CollectionItem>): set<string> {
    set i | i in items :: i.key
  }

  /** The order in which the passes write the items, if they get to all of them. */
  function WriteOrder(pending: seq<CollectionItem>, known: set<string>): Result<seq<CollectionItem>, Failure>
    decreases |pending|
  {
    if pending == [] then Ok([])
    else
      var (written, next) := Pass(pending, known);
      if written == [] then Err(StuckCollections(KeyList(next)))
      else
        Prepended(written, WriteOrder(next, known + KeysOf(written)))
  }

  function KeyList(items: seq<CollectionItem>): seq<string> {
    seq(|items|, i requires 0 <= i < |items| => items[i].key)
  }

  function CollectionIds(project: string, order: seq<CollectionItem>): map<string, string> {
    if order == [] then map[]
    else
      var key := order[|order| - 1].key;
      CollectionIds(project, order[..|order| - 1])[key := CatalogId("collection", project, key)]
  }

  function CollectionWrite(project: string, ids: map<string, string>, item: CollectionItem): Write {
    var id := CatalogId("collection", project, item.key);
    Write(Search(None, Query(Id, [id]), None), id, CollectionRow(project, item.name, Get(ids, item.parentKey), item.sortOrder), 0)
  }

  function CollectionWrites(project: string, order: seq<CollectionItem>): seq<Write> {
    if order == [] then []
    else
      var before := order[..|order| - 1];
      CollectionWrites(project, before) + [CollectionWrite(project, CollectionIds(project, before), order[|order| - 1])]
  }

  lemma {:induction false} CollectionsShaped(project: string, order: seq<CollectionItem>)
    ensures forall w :: w in CollectionWrites(project, order) ==> Shaped(w, RootPath, Id)
  {
    if order != [] {
      CollectionsShaped(project, order[..|order| - 1]);
    }
  }

  // Commands

  function CommandSearch(project: string, key: string, fingerprint: string): Search {
    Search(
      if key != "" then Some(Query(StableKey, [project, key])) else None,
      Query(Fingerprint, [fingerprint]),
      Some(Query(Relaunched, [project, fingerprint])))
  }

  function CommandWrite(project: string, collectionIds: map<string, string>, item: CommandItem): Write {
    var launch := item.launch.(cwd := Trim(item.launch.cwd));
    var fingerprint := CommandFingerprint(project, launch);
    Write(
      CommandSearch(project, item.key, fingerprint),
      CatalogId("command", project, OrDefault(item.key, fingerprint)),
      CommandRow(project, Get(collectionIds, item.collectionKey), launch, item.details, item.key, fingerprint),
      item.createdAt)
  }

  function CommandWrites(project: string, collectionIds: map<string, string>, items: seq<CommandItem>): (ws: seq<Write>)
    ensures |ws| == |items|
  {
    seq(|items|, i requires 0 <= i < |items| => CommandWrite(project, collectionIds, items[i]))
  }

  function CommandIds(items: seq<CommandItem>, slots: seq<Slot>): map<string, string>
    requires |items| == |slots|
  {
    if items == [] then map[]
    else
      var n := |items| - 1;
      var ids := CommandIds(items[..n], slots[..n]);
      if items[n].key != "" then ids[items[n].key := slots[n].id] else ids
  }

  lemma CommandsShaped(project: string, collectionIds: map<string, string>, items: seq<CommandItem>)
    ensures forall w :: w in CommandWrites(project, collectionIds, items) ==> Shaped(w, StableKey, Fingerprint)
  {
    hide CommandFingerprint;
  }

  // Stacks

  function Specs(item: StackItem): seq<MemberItem> {
    if item.members == []
    then seq(|item.commandKeys|, i requires 0 <= i < |item.commandKeys| =>
             MemberItem(item.commandKeys[i], [], DEFAULT_WAIT_FOR, DEFAULT_WAIT_MS, "", map[]))
    else item.members
  }

  /** The command of a key: from the bundle, else from the table. */
  function CommandOf(commands: Table, project: string, commandIds: map<string, string>, key: string): string {
    if Get(commandIds, key) != "" then Get(commandIds, key)
    else
      var stored := Lookup(commands, Query(StableKey, [project, key]));
      if stored.Some? then stored.value.id else ""
  }

  /** The commands of the member keys; an unresolved blank key is no error and ends the resolution. */
  function Resolved(commands: Table, project: string, commandIds: map<string, string>, specs: seq<MemberItem>, resolved: map<string, string>)
    : Result<map<string, string>, Failure>
  {
    if specs == [] then Ok(resolved)
    else
      var id := CommandOf(commands, project, commandIds, specs[0].commandKey);
      if id == "" then (if specs[0].commandKey != "" then Err(UnknownCommand(specs[0].commandKey)) else Ok(resolved))
      else Resolved(commands, project, commandIds, specs[1..], resolved[specs[0].commandKey := id])
  }

  /** The dependencies of one member; here too an unresolved blank key only cuts the list short. */
  function Dependencies(resolved: map<string, string>, keys: seq<string>): Result<seq<string>, Failure> {
    if keys == [] then Ok([])
    else if Get(resolved, keys[0]) == "" then (if keys[0] != "" then Err(UnknownCommand(keys[0])) else Ok([]))
    else Prepended([resolved[keys[0]]], Dependencies(resolved, keys[1..]))
  }

  function MemberOf(resolved: map<string, string>, spec: MemberItem, position: nat, dependsOn: seq<string>): Member {
    Member(
      Get(resolved, spec.commandKey), position, dependsOn, OrDefault(spec.waitFor, DEFAULT_WAIT_FOR),
      if spec.waitTimeoutMs == 0 then DEFAULT_WAIT_MS else spec.waitTimeoutMs, spec.environment, spec.env)
  }

  function MembersFrom(resolved: map<string, string>, specs: seq<MemberItem>, position: nat): Result<seq<Member>, Failure>
    requires position <= |specs|
    decreases |specs| - position
  {
    if position == |specs| then Ok([])
    else
      var dependsOn := Dependencies(resolved, specs[position].dependsOnKeys);
      if dependsOn.Err? then Err(dependsOn.error)
      else
        Prepended([MemberOf(resolved, specs[position], position, dependsOn.value)], MembersFrom(resolved, specs, position + 1))
  }

  function Members(commands: Table, project: string, commandIds: map<string, string>, item: StackItem): Result<seq<Member>, Failure> {
    var resolved := Resolved(commands, project, commandIds, Specs(item), map[]);
    if resolved.Err? then Err(resolved.error) else MembersFrom(resolved.value, Specs(item), 0)
  }

  // What the members of a stored stack are

  /** The members of an item are listed, or there is one for each command key. */
  function MemberCount(item: StackItem): nat {
    if item.members == [] then |item.commandKeys| else |item.members|
  }

  function MemberKey(item: StackItem, i: nat): string
    requires i < MemberCount(item)
  {
    if item.members == [] then item.commandKeys[i] else item.members[i].commandKey
  }

  function NeededKeys(item: StackItem, i: nat): seq<string>
    requires i < MemberCount(item)
  {
    if item.members == [] then [] else item.members[i].dependsOnKeys
  }

  /** The id of the command that the bundle has for the key, else of a row with the key; blank if there is neither. */
  ghost predicate IsCommand(commands: Table, project: string, commandIds: map<string, string>, key: string, id: string) {
    if key in commandIds && commandIds[key] != "" then id == commandIds[key]
    else if exists r :: r in commands && Matches(Query(StableKey, [project, key]), r)
      then exists r :: r in commands && Matches(Query(StableKey, [project, key]), r) && r.id == id
    else id == ""
  }

  /** One of the first n members has the key and the id. */
  ghost predicate IsMember(item: StackItem, members: seq<Member>, n: nat, key: string, id: string) {
    exists p :: 0 <= p < n && p < |members| && p < MemberCount(item) && MemberKey(item, p) == key && members[p].commandId == id
  }

  ghost predicate HasKey(item: StackItem, n: nat, key: string) {
    exists p :: 0 <= p < n && p < MemberCount(item) && MemberKey(item, p) == key
  }

  /** One id for each key, that of a member with the key; only a blank key that no member has cuts the list short. */
  ghost predicate Depends(item: StackItem, members: seq<Member>, n: nat, keys: seq<string>, ids: seq<string>) {
    && |ids| <= |keys| && (|ids| < |keys| ==> keys[|ids|] == "" && !HasKey(item, n, ""))
    && forall j :: 0 <= j < |ids| ==> ids[j] != "" && IsMember(item, members, n, keys[j], ids[j])
  }

  /** What else a member is given. */
  predicate Equipped(item: StackItem, i: nat, m: Member)
    requires i < MemberCount(item)
  {
    if item.members == [] then
      m.waitFor == DEFAULT_WAIT_FOR && m.waitTimeoutMs == DEFAULT_WAIT_MS && m.environment == "" && m.env == map[]
    else
      && (item.members[i].waitFor == "" ==> m.waitFor == DEFAULT_WAIT_FOR)
      && (item.members[i].waitFor != "" ==> m.waitFor == item.members[i].waitFor)
      && (item.members[i].waitTimeoutMs == 0 ==> m.waitTimeoutMs == DEFAULT_WAIT_MS)
      && (item.members[i].waitTimeoutMs != 0 ==> m.waitTimeoutMs == item.members[i].waitTimeoutMs)
      && m.environment == item.members[i].environment && m.env == item.members[i].env
  }

  /** The first n members have a command each; if these are not all, the next has a blank key without a command. */
  ghost predicate WiredUpTo(commands: Table, project: string, commandIds: map<string, string>, item: StackItem, members: seq<Member>, n: nat) {
    && |members| == MemberCount(item) && n <= |members|
    && (n < |members| ==> MemberKey(item, n) == "" && IsCommand(commands, project, commandIds, "", ""))
    && forall i :: 0 <= i < |members| ==>
         && members[i].position == i
         && (if HasKey(item, n, MemberKey(item, i))
             then members[i].commandId != "" && IsCommand(commands, project, commandIds, MemberKey(item, i), members[i].commandId)
             else members[i].commandId == "")
         && Depends(item, members, n, NeededKeys(item, i), members[i].dependsOn)
         && Equipped(item, i, members[i])
  }

  ghost predicate Wired(commands: Table, project: string, commandIds: map<string, string>, item: StackItem, members: seq<Member>) {
    exists n :: WiredUpTo(commands, project, commandIds, item, members, n)
  }

  /** A member has the key and no command has it, or a dependency has it and no member does before a blank one. */
  ghost predicate Missing(commands: Table, project: string, commandIds: map<string, string>, item: StackItem, key: string) {
    && key != ""
    && ( || (HasKey(item, MemberCount(item), key) && IsCommand(commands, project, commandIds, key, ""))
         || exists i, n :: 0 <= i < MemberCount(item) && key in NeededKeys(item, i) && CutAt(item, n) && !HasKey(item, n, key))
  }

  predicate CutAt(item: StackItem, n: nat) {
    n == MemberCount(item) || (n < MemberCount(item) && MemberKey(item, n) == "")
  }

  lemma {:induction false} LookupMissesNone(t: Table, q: Query)
    ensures Lookup(t, q).Some? ==> Lookup(t, q).value in t && Matches(q, Lookup(t, q).value)
    ensures Lookup(t, q).None? ==> forall r :: r in t ==> !Matches(q, r)
  {
    hide Matches;
    if t != [] {
      LookupMissesNone(t[1..], q);
    }
  }

  lemma CommandOfIsCommand(commands: Table, project: string, commandIds: map<string, string>, key: string)
    ensures IsCommand(commands, project, commandIds, key, CommandOf(commands, project, commandIds, key))
  {
    hide Lookup, Matches;
    LookupMissesNone(commands, Query(StableKey, [project, key]));
  }

  /** How many members have a command, up to the first that has none. */
  function Leading(commands: Table, project: string, commandIds: map<string, string>, specs: seq<MemberItem>): (n: nat)
    ensures n <= |specs|
  {
    if specs == [] || CommandOf(commands, project, commandIds, specs[0].commandKey) == "" then 0
    else 1 + Leading(commands, project, commandIds, specs[1..])
  }

  ghost predicate KeyBefore(specs: seq<MemberItem>, n: nat, key: string) {
    exists p :: 0 <= p < n && p < |specs| && specs[p].commandKey == key
  }

  lemma KeyFirst(specs: seq<MemberItem>, n: nat, key: string)
    requires specs != []
    ensures KeyBefore(specs, n + 1, key) <==> specs[0].commandKey == key || KeyBefore(specs[1..], n, key)
  {
    assert forall p :: 1 <= p < |specs| ==> specs[p] == specs[1..][p - 1];
    if KeyBefore(specs[1..], n, key) {
      var p :| 0 <= p < n && p < |specs| - 1 && specs[1..][p].commandKey == key;
      assert specs[p + 1].commandKey == key;
    }
    if KeyBefore(specs, n + 1, key) && specs[0].commandKey != key {
      var p :| 0 <= p < n + 1 && p < |specs| && specs[p].commandKey == key;
      assert specs[1..][p - 1].commandKey == key;
    }
  }

  lemma {:induction false} ResolvedMeans(commands: Table, project: string, commandIds: map<string, string>, specs: seq<MemberItem>, resolved: map<string, string>)
    requires forall k :: k in resolved ==> resolved[k] == CommandOf(commands, project, commandIds, k) != ""
    ensures var r := Resolved(commands, project, commandIds, specs, resolved); var n := Leading(commands, project, commandIds, specs);
            && (r.Err? ==> && r.error.UnknownCommand? && r.error.key != "" && KeyBefore(specs, |specs|, r.error.key)
                           && CommandOf(commands, project, commandIds, r.error.key) == "")
            && (r.Ok? && n < |specs| ==> specs[n].commandKey == "" && CommandOf(commands, project, commandIds, "") == "")
            && (r.Ok? ==> forall k :: k in r.value <==> k in resolved || KeyBefore(specs, n, k))
            && (r.Ok? ==> forall k :: k in r.value ==> r.value[k] == CommandOf(commands, project, commandIds, k) != "")
    decreases specs
  {
    hide CommandOf, KeyBefore;
    if specs != [] {
      var key := specs[0].commandKey;
      var id := CommandOf(commands, project, commandIds, key);
      forall k ensures KeyBefore(specs, |specs|, k) <==> key == k || KeyBefore(specs[1..], |specs| - 1, k) {
        KeyFirst(specs, |specs| - 1, k);
      }
      if id != "" {
        ResolvedMeans(commands, project, commandIds, specs[1..], resolved[key := id]);
        forall k ensures KeyBefore(specs, Leading(commands, project, commandIds, specs), k) <==>
                         key == k || KeyBefore(specs[1..], Leading(commands, project, commandIds, specs[1..]), k) {
          KeyFirst(specs, Leading(commands, project, commandIds, specs[1..]), k);
        }
      } else {
        NoKeyBefore(specs);
      }
    } else {
      NoKeyBefore(specs);
    }
  }

  lemma NoKeyBefore(specs: seq<MemberItem>)
    ensures forall k :: !KeyBefore(specs, 0, k)
  {
  }

  lemma {:induction false} DependenciesMean(resolved: map<string, string>, keys: seq<string>)
    ensures var r := Dependencies(resolved, keys);
            && (r.Err? ==> r.error.UnknownCommand? && r.error.key != "" && r.error.key in keys && Get(resolved, r.error.key) == "")
            && (r.Ok? ==>
                  && |r.value| <= |keys| && (|r.value| < |keys| ==> keys[|r.value|] == "" && Get(resolved, "") == "")
                  && forall j :: 0 <= j < |r.value| ==> r.value[j] == Get(resolved, keys[j]) != "")
  {
    if keys != [] {
      DependenciesMean(resolved, keys[1..]);
    }
  }

  /** A member, seen from the resolved keys. */
  ghost predicate Fits(resolved: map<string, string>, item: StackItem, i: nat, m: Member)
    requires i < MemberCount(item)
  {
    && m.commandId == Get(resolved, MemberKey(item, i)) && m.position == i
    && Dependencies(resolved, NeededKeys(item, i)) == Ok(m.dependsOn)
    && Equipped(item, i, m)
  }

  lemma MemberFits(resolved: map<string, string>, item: StackItem, i: nat, dependsOn: seq<string>)
    requires i < MemberCount(item)
    ensures |Specs(item)| == MemberCount(item)
    ensures Specs(item)[i].commandKey == MemberKey(item, i) && Specs(item)[i].dependsOnKeys == NeededKeys(item, i)
    ensures Dependencies(resolved, NeededKeys(item, i)) == Ok(dependsOn) ==>
              Fits(resolved, item, i, MemberOf(resolved, Specs(item)[i], i, dependsOn))
  {
    hide Dependencies;
  }

  lemma SpecCount(item: StackItem)
    ensures |Specs(item)| == MemberCount(item)
  {
  }

  lemma {:induction false} MembersMean(resolved: map<string, string>, item: StackItem, position: nat)
    requires position <= MemberCount(item) == |Specs(item)|
    ensures var r := MembersFrom(resolved, Specs(item), position);
            && (r.Ok? ==> |r.value| == MemberCount(item) - position &&
                          forall j :: 0 <= j < |r.value| ==> Fits(resolved, item, position + j, r.value[j]))
            && (r.Err? ==> exists i :: 0 <= i < MemberCount(item) && Dependencies(resolved, NeededKeys(item, i)) == Err(r.error))
    decreases MemberCount(item) - position
  {
    hide Specs, Dependencies, MemberOf, Fits, MemberKey, NeededKeys;
    if position < MemberCount(item) {
      MembersMean(resolved, item, position + 1);
      var dependsOn := Dependencies(resolved, Specs(item)[position].dependsOnKeys);
      MemberFits(resolved, item, position, if dependsOn.Ok? then dependsOn.value else []);
    }
  }

  /** What resolving the member keys yields, in terms of the item. */
  ghost predicate KeysResolved(commands: Table, project: string, commandIds: map<string, string>, item: StackItem, n: nat, resolved: map<string, string>) {
    && n <= MemberCount(item)
    && (n < MemberCount(item) ==> MemberKey(item, n) == "" && IsCommand(commands, project, commandIds, "", ""))
    && (forall k :: k in resolved <==> HasKey(item, n, k))
    && (forall k :: k in resolved ==> resolved[k] != "" && IsCommand(commands, project, commandIds, k, resolved[k]))
  }

  lemma KeysAreResolved(commands: Table, project: string, commandIds: map<string, string>, item: StackItem)
    ensures var r := Resolved(commands, project, commandIds, Specs(item), map[]);
            && (r.Ok? ==> KeysResolved(commands, project, commandIds, item, Leading(commands, project, commandIds, Specs(item)), r.value))
            && (r.Err? ==> r.error.UnknownCommand? && Missing(commands, project, commandIds, item, r.error.key))
  {
    hide CommandOf, Resolved, Specs, IsCommand, KeyBefore, HasKey, Leading;
    var specs, r := Specs(item), Resolved(commands, project, commandIds, Specs(item), map[]);
    SpecCount(item);
    ResolvedMeans(commands, project, commandIds, specs, map[]);
    var n := Leading(commands, project, commandIds, specs);
    forall i | 0 <= i < MemberCount(item) ensures specs[i].commandKey == MemberKey(item, i) {
      MemberFits(map[], item, i, []);
    }
    forall k ensures IsCommand(commands, project, commandIds, k, CommandOf(commands, project, commandIds, k)) {
      CommandOfIsCommand(commands, project, commandIds, k);
    }
    if r.Ok? {
      forall k ensures KeyBefore(specs, n, k) <==> HasKey(item, n, k) {
        KeyIsMemberKey(item, specs, n, k);
      }
    } else {
      KeyIsMemberKey(item, specs, |specs|, r.error.key);
    }
  }

  lemma MembersAreWired(commands: Table, project: string, commandIds: map<string, string>, item: StackItem)
    ensures var r := Members(commands, project, commandIds, item);
            && (r.Ok? ==> Wired(commands, project, commandIds, item, r.value))
            && (r.Err? ==> r.error.UnknownCommand? && Missing(commands, project, commandIds, item, r.error.key))
  {
    hide CommandOf, Resolved, MembersFrom, Specs, Leading, KeysResolved, WiredUpTo, Missing, Fits, Dependencies, NeededKeys;
    var resolved, n := Resolved(commands, project, commandIds, Specs(item), map[]), Leading(commands, project, commandIds, Specs(item));
    SpecCount(item);
    KeysAreResolved(commands, project, commandIds, item);
    if resolved.Ok? {
      MembersMean(resolved.value, item, 0);
      var r := MembersFrom(resolved.value, Specs(item), 0);
      if r.Ok? {
        MembersFit(commands, project, commandIds, item, n, resolved.value, r.value);
      } else {
        var i :| 0 <= i < MemberCount(item) && Dependencies(resolved.value, NeededKeys(item, i)) == Err(r.error);
        DependencyIsMissing(commands, project, commandIds, item, n, resolved.value, i);
      }
    }
  }

  lemma MembersFit(commands: Table, project: string, commandIds: map<string, string>, item: StackItem, n: nat,
                   resolved: map<string, string>, members: seq<Member>)
    requires KeysResolved(commands, project, commandIds, item, n, resolved) && |members| == MemberCount(item)
    requires forall i :: 0 <= i < |members| ==> Fits(resolved, item, i, members[i])
    ensures WiredUpTo(commands, project, commandIds, item, members, n)
  {
    hide IsCommand, HasKey, Dependencies, Depends, Equipped, MemberKey, NeededKeys;
    forall i | 0 <= i < |members| ensures Depends(item, members, n, NeededKeys(item, i), members[i].dependsOn) {
      DependsOnMembers(resolved, item, members, n, NeededKeys(item, i));
      assert Fits(resolved, item, i, members[i]);
    }
  }

  lemma DependencyIsMissing(commands: Table, project: string, commandIds: map<string, string>, item: StackItem, n: nat,
                            resolved: map<string, string>, i: nat)
    requires KeysResolved(commands, project, commandIds, item, n, resolved) && i < MemberCount(item)
    requires Dependencies(resolved, NeededKeys(item, i)).Err?
    ensures var e := Dependencies(resolved, NeededKeys(item, i)).error; e.UnknownCommand? && Missing(commands, project, commandIds, item, e.key)
  {
    hide IsCommand, HasKey, Dependencies, MemberKey, NeededKeys;
    DependenciesMean(resolved, NeededKeys(item, i));
    assert CutAt(item, n);
  }

  lemma KeyIsMemberKey(item: StackItem, specs: seq<MemberItem>, m: nat, k: string)
    requires |specs| == MemberCount(item) && forall i :: 0 <= i < |specs| ==> specs[i].commandKey == MemberKey(item, i)
    ensures KeyBefore(specs, m, k) <==> HasKey(item, m, k)
  {
    hide MemberKey;
    if KeyBefore(specs, m, k) {
      var p :| 0 <= p < m && p < |specs| && specs[p].commandKey == k;
      assert MemberKey(item, p) == k;
    }
  }

  lemma DependsOnMembers(resolved: map<string, string>, item: StackItem, members: seq<Member>, n: nat, keys: seq<string>)
    requires |members| == MemberCount(item)
    requires forall k :: k in resolved <==> HasKey(item, n, k)
    requires forall k :: k in resolved ==> resolved[k] != ""
    requires forall i :: 0 <= i < |members| ==> members[i].commandId == Get(resolved, MemberKey(item, i))
    ensures var r := Dependencies(resolved, keys); r.Ok? ==> Depends(item, members, n, keys, r.value)
  {
    hide Dependencies;
    DependenciesMean(resolved, keys);
    var r := Dependencies(resolved, keys);
    if r.Ok? {
      forall j | 0 <= j < |r.value| ensures IsMember(item, members, n, keys[j], r.value[j]) {
        assert r.value[j] == Get(resolved, keys[j]) && keys[j] in resolved && HasKey(item, n, keys[j]);
        var p :| 0 <= p < n && p < MemberCount(item) && MemberKey(item, p) == keys[j];
        assert members[p].commandId == Get(resolved, MemberKey(item, p));
      }
    }
  }

  function StackKey(item: StackItem): string {
    OrDefault(item.key, Lower(Trim(item.details.name)))
  }

  function StackWrite(project: string, collectionIds: map<string, string>, item: StackItem, members: seq<Member>): Write {
    var key := StackKey(item);
    Write(
      Search(None, Query(StableKey, [project, key]), None),
      CatalogId("stack", project, key),
      StackRow(project, Get(collectionIds, item.collectionKey), key, item.details, members, item.dependsOnStacks,
               if Trim(item.environment) == "" then DEFAULT_ENVIRONMENT else item.environment),
      item.createdAt)
  }

  function StackWrites(commands: Table, project: string, collectionIds: map<string, string>, commandIds: map<string, string>, items: seq<StackItem>)
    : (r: Result<seq<Write>, Failure>)
  {
    if items == [] then Ok([])
    else
      var members := Members(commands, project, commandIds, items[0]);
      if members.Err? then Err(members.error)
      else
        Prepended([StackWrite(project, collectionIds, items[0], members.value)],
                  StackWrites(commands, project, collectionIds, commandIds, items[1..]))
  }

  lemma {:induction false} StacksShaped(commands: Table, project: string, collectionIds: map<string, string>, commandIds: map<string, string>, items: seq<StackItem>)
    ensures var r := StackWrites(commands, project, collectionIds, commandIds, items);
            r.Ok? ==> forall w :: w in r.value ==> Shaped(w, RootPath, StableKey)
  {
    hide Members, Lower, Trim;
    if items != [] {
      StacksShaped(commands, project, collectionIds, commandIds, items[1..]);
    }
  }

  // The transaction

  /** The state a bundle leads to, unless its prerequisites turn out to be cyclic. */
  function Applied(db: Db, b: Bundle, now: int): Result<(Db, Report), Failure> {
    var (projects, project) := Put(db.projects, ProjectWrite(b.project), now).value;
    var order := WriteOrder(b.collections, {});
    if order.Err? then Err(order.error)
    else
      var collectionIds := CollectionIds(project.id, order.value);
      var collections := PutCollections(db.collections, project.id, order.value, now);
      var commands := PutAll(db.commands, CommandWrites(project.id, collectionIds, b.commands), now);
      if commands.Err? then Err(CommandConflict)
      else
        PutAllLength(db.commands, CommandWrites(project.id, collectionIds, b.commands), now);
        var commandIds := CommandIds(b.commands, commands.value.slots);
        var stacks := PutStacks(db.stacks, commands.value.rows, project.id, collectionIds, commandIds, b.stacks, now);
        if stacks.Err? then Err(stacks.error)
        else Ok((Db(projects, collections.rows, commands.value.rows, stacks.value.rows),
                 Report(project, collections.slots, commands.value.slots, stacks.value.slots)))
  }

  function PutCollections(t: Table, project: string, order: seq<CollectionItem>, now: int): Batch {
    CollectionsKeyless(project, order);
    KeylessNeverConflicts(t, CollectionWrites(project, order), now);
    PutAll(t, CollectionWrites(project, order), now).value
  }

  function PutStacks(t: Table, commands: Table, project: string, collectionIds: map<string, string>, commandIds: map<string, string>, items: seq<StackItem>, now: int)
    : Result<Batch, Failure>
  {
    var ws := StackWrites(commands, project, collectionIds, commandIds, items);
    if ws.Err? then Err(ws.error)
    else
      StacksKeyless(commands, project, collectionIds, commandIds, items);
      KeylessNeverConflicts(t, ws.value, now);
      Ok(PutAll(t, ws.value, now).value)
  }

  lemma {:induction false} CollectionsKeyless(project: string, order: seq<CollectionItem>)
    ensures forall w :: w in CollectionWrites(project, order) ==> w.search.key.None?
  {
    if order != [] {
      CollectionsKeyless(project, order[..|order| - 1]);
    }
  }

  lemma {:induction false} StacksKeyless(commands: Table, project: string, collectionIds: map<string, string>, commandIds: map<string, string>, items: seq<StackItem>)
    ensures var r := StackWrites(commands, project, collectionIds, commandIds, items);
            r.Ok? ==> forall w :: w in r.value ==> w.search.key.None?
  {
    hide Members;
    if items != [] {
      StacksKeyless(commands, project, collectionIds, commandIds, items[1..]);
    }
  }

  /** The prerequisite lists of the stored stacks. */
  function PrerequisitesOf(stacks: Table): P.Table {
    if stacks == [] then map[]
    else
      var c := stacks[0].content;
      PrerequisitesOf(stacks[1..])[stacks[0].id := if c.StackRow? then c.dependsOnStacks else []]
  }

  ghost predicate NoPrerequisiteCycle(db: Db) {
    G.Acyclic(P.GraphOf(PrerequisitesOf(db.stacks)))
  }

  method FindCommand(rows: Table, project: string, key: string, fingerprint: string) returns (r: Result<Option<Row>, Conflict>)
    ensures r == Find(rows, CommandSearch(project, key, fingerprint))
  {
    hide CommandFingerprint;
    if key != "" {
      var byKey := Lookup(rows, Query(StableKey, [project, key]));
      if byKey.Some? {
        var byFingerprint := Lookup(rows, Query(Fingerprint, [fingerprint]));
        if byFingerprint.Some? && byFingerprint.value.id != byKey.value.id {
          return Err(Conflict);
        }
        return Ok(byKey);
      }
    }
    var found := Lookup(rows, Query(Fingerprint, [fingerprint]));
    if found.Some? {
      return Ok(found);
    }
    ghost var legacy := Query(Relaunched, [project, fingerprint]);
    for i := 0 to |rows|
      invariant Lookup(rows, legacy) == Lookup(rows[i..], legacy)
    {
      var candidate := rows[i];
      assert rows[i..][1..] == rows[i + 1..];
      if candidate.content.CommandRow? && candidate.content.projectId == project
         && CommandFingerprint(project, candidate.content.launch) == fingerprint {
        return Ok(Some(candidate));
      }
    }
    return Ok(None);
  }

  /** Creates the row of an item, or overwrites the one that its search found. */
  method Save(rows: Table, w: Write, existing: Option<Row>, now: int) returns (next: Table, slot: Slot)
    requires Find(rows, w.search) == Ok(existing)
    ensures Put(rows, w, now) == Ok((next, slot))
  {
    var row, action := Row(w.newId, w.content, w.createdAt, now), Created;
    if row.createdAt == 0 {
      row := row.(createdAt := now);
    }
    if existing.Some? {
      row := row.(id := existing.value.id, createdAt := existing.value.createdAt);
      action := if existing.value.content == row.content then Reused else Updated;
    }
    return Upsert(rows, row), Slot(row.id, action);
  }

  method ApplyProject(rows: Table, p: ProjectItem, now: int) returns (next: Table, slot: Slot)
    ensures Put(rows, ProjectWrite(p), now) == Ok((next, slot))
  {
    var existing: Option<Row>;
    if p.id != "" {
      existing := Lookup(rows, Query(Id, [p.id]));
    } else {
      existing := Lookup(rows, Query(RootPath, [p.rootPath]));
    }
    next, slot := Save(rows, ProjectWrite(p), existing, now);
  }

  /** The rows and the ids after the given items were written. */
  ghost predicate CollectionsSoFar(before: Table, project: string, order: seq<CollectionItem>, now: int,
                                   rows: Table, ids: map<string, string>, slots: seq<Slot>) {
    && PutAll(before, CollectionWrites(project, order), now) == Ok(Batch(rows, slots))
    && ids == CollectionIds(project, order)
  }

  lemma NextCollection(before: Table, project: string, order: seq<CollectionItem>, item: CollectionItem, now: int,
                       rows: Table, ids: map<string, string>, slots: seq<Slot>, next: Table, slot: Slot)
    requires CollectionsSoFar(before, project, order, now, rows, ids, slots)
    requires Put(rows, CollectionWrite(project, ids, item), now) == Ok((next, slot))
    ensures CollectionsSoFar(before, project, order + [item], now, next,
                             ids[item.key := CatalogId("collection", project, item.key)], slots + [slot])
  {
    hide PutAll, Put;
    assert (order + [item])[..|order|] == order;
    PutAllGrows(before, CollectionWrites(project, order), CollectionWrite(project, ids, item), now);
  }

  /** Where a pass stands: written and next so far, and the same pass over the rest. */
  ghost predicate Passing(pending: seq<CollectionItem>, before: set<string>, i: nat, known: set<string>,
                          written: seq<CollectionItem>, next: seq<CollectionItem>) {
    && i <= |pending|
    && Pass(pending, before).0 == written + Pass(pending[i..], known).0
    && Pass(pending, before).1 == next + Pass(pending[i..], known).1
  }

  lemma PassBegins(pending: seq<CollectionItem>, known: set<string>)
    ensures Passing(pending, known, 0, known, [], [])
  {
    assert pending[0..] == pending;
  }

  lemma PassGoesOn(pending: seq<CollectionItem>, before: set<string>, i: nat, known: set<string>,
                   written: seq<CollectionItem>, next: seq<CollectionItem>)
    requires Passing(pending, before, i, known, written, next) && i < |pending|
    ensures var item := pending[i];
            if item.parentKey != "" && item.parentKey !in known
            then Passing(pending, before, i + 1, known, written, next + [item])
            else Passing(pending, before, i + 1, known + {item.key}, written + [item], next)
  {
    assert pending[i..][1..] == pending[i + 1..];
  }

  lemma PassEnds(pending: seq<CollectionItem>, before: set<string>, known: set<string>,
                 written: seq<CollectionItem>, next: seq<CollectionItem>)
    requires Passing(pending, before, |pending|, known, written, next)
    ensures Pass(pending, before) == (written, next)
  {
    assert pending[|pending|..] == [] && written + [] == written && next + [] == next;
  }

  method ApplyPass(ghost before: Table, ghost order: seq<CollectionItem>, rows: Table, ids: map<string, string>, slots: seq<Slot>,
                   project: string, pending: seq<CollectionItem>, now: int)
    returns (rows': Table, ids': map<string, string>, slots': seq<Slot>, next: seq<CollectionItem>, ghost written: seq<CollectionItem>)
    requires CollectionsSoFar(before, project, order, now, rows, ids, slots)
    ensures (written, next) == Pass(pending, ids.Keys)
    ensures |next| == |pending| <==> written == []
    ensures CollectionsSoFar(before, project, order + written, now, rows', ids', slots')
  {
    hide CollectionsSoFar, Passing, Put, Pass;
    rows', ids', slots', next, written := rows, ids, slots, [], [];
    assert order + [] == order;
    PassBegins(pending, ids.Keys);
    for i := 0 to |pending|
      invariant CollectionsSoFar(before, project, order + written, now, rows', ids', slots')
      invariant Passing(pending, ids.Keys, i, ids'.Keys, written, next)
    {
      var item := pending[i];
      PassGoesOn(pending, ids.Keys, i, ids'.Keys, written, next);
      if item.parentKey != "" && item.parentKey !in ids' {
        next := next + [item];
        continue;
      }
      var id := CatalogId("collection", project, item.key);
      var existing := Lookup(rows', Query(Id, [id]));
      var saved, slot := Save(rows', CollectionWrite(project, ids', item), existing, now);
      NextCollection(before, project, order + written, item, now, rows', ids', slots', saved, slot);
      assert ids'[item.key := id].Keys == ids'.Keys + {item.key};
      rows', ids', slots' := saved, ids'[item.key := id], slots' + [slot];
      assert order + (written + [item]) == (order + written) + [item];
      written := written + [item];
    }
    PassEnds(pending, ids.Keys, ids'.Keys, written, next);
  }

  lemma IdsOfOrder(project: string, order: seq<CollectionItem>)
    ensures CollectionIds(project, order).Keys == KeysOf(order)
  {
    if order != [] {
      IdsOfOrder(project, order[..|order| - 1]);
      assert order == order[..|order| - 1] + [order[|order| - 1]];
    }
  }

  lemma OrderGoesOn(order: seq<CollectionItem>, pending: seq<CollectionItem>, written: seq<CollectionItem>, next: seq<CollectionItem>)
    requires pending != [] && Pass(pending, KeysOf(order)) == (written, next)
    ensures Prepended(order, WriteOrder(pending, KeysOf(order))) ==
            if written == [] then Err(StuckCollections(KeyList(next)))
            else Prepended(order + written, WriteOrder(next, KeysOf(order + written)))
  {
    assert KeysOf(order + written) == KeysOf(order) + KeysOf(written);
    if written != [] {
      PrependTwice(order, written, WriteOrder(next, KeysOf(order + written)));
    }
  }

  method ApplyCollections(before: Table, project: string, items: seq<CollectionItem>, now: int)
    returns (r: Result<(Batch, map<string, string>), Failure>)
    ensures var order := WriteOrder(items, {});
            if order.Err? then r == Err(order.error)
            else r == Ok((PutCollections(before, project, order.value, now), CollectionIds(project, order.value)))
  {
    hide Pass, WriteOrder, PutAll, KeysOf, CollectionIds, CollectionWrites;
    var rows, ids, slots, pending := before, map[], [], items;
    ghost var order: seq<CollectionItem> := [];
    EmptyBatch(before, project, now, WriteOrder(items, {}));
    while pending != []
      invariant CollectionsSoFar(before, project, order, now, rows, ids, slots)
      invariant WriteOrder(items, {}) == Prepended(order, WriteOrder(pending, KeysOf(order)))
      decreases |pending|
    {
      ghost var written;
      var next;
      IdsOfOrder(project, order);
      rows, ids, slots, next, written := ApplyPass(before, order, rows, ids, slots, project, pending, now);
      OrderGoesOn(order, pending, written, next);
      if |next| == |pending| {
        return Err(StuckCollections(KeyList(next)));
      }
      pending := next;
      order := order + written;
    }
    NothingPending(KeysOf(order));
    assert order + [] == order;
    return Ok((Batch(rows, slots), ids));
  }

  lemma EmptyBatch(t: Table, project: string, now: int, rest: Result<seq<CollectionItem>, Failure>)
    ensures CollectionsSoFar(t, project, [], now, t, map[], []) && KeysOf([]) == {} && Prepended([], rest) == rest
  {
    PrependNothing(rest);
  }

  lemma NothingPending(known: set<string>)
    ensures WriteOrder([], known) == Ok([])
  {
  }

  /** The rows and the ids after the first n commands were written. */
  ghost predicate CommandsSoFar(before: Table, ws: seq<Write>, items: seq<CommandItem>, n: nat, now: int,
                                rows: Table, slots: seq<Slot>, ids: map<string, string>) {
    && n <= |items| == |ws| && |slots| == n
    && PutAll(before, ws[..n], now) == Ok(Batch(rows, slots))
    && ids == CommandIds(items[..n], slots)
  }

  lemma NextCommand(before: Table, ws: seq<Write>, items: seq<CommandItem>, n: nat, now: int,
                    rows: Table, slots: seq<Slot>, ids: map<string, string>, next: Table, slot: Slot)
    requires CommandsSoFar(before, ws, items, n, now, rows, slots, ids) && n < |items|
    requires Put(rows, ws[n], now) == Ok((next, slot))
    ensures CommandsSoFar(before, ws, items, n + 1, now, next, slots + [slot],
                          if items[n].key != "" then ids[items[n].key := slot.id] else ids)
  {
    hide Put, PutAll;
    assert ws[..n + 1] == ws[..n] + [ws[n]] && items[..n + 1][..n] == items[..n];
    assert (slots + [slot])[..n] == slots;
    PutAllGrows(before, ws[..n], ws[n], now);
  }

  lemma CommandConflictStays(before: Table, ws: seq<Write>, items: seq<CommandItem>, n: nat, now: int,
                             rows: Table, slots: seq<Slot>, ids: map<string, string>)
    requires CommandsSoFar(before, ws, items, n, now, rows, slots, ids) && n < |items|
    requires Find(rows, ws[n].search).Err?
    ensures PutAll(before, ws, now).Err?
  {
    hide Find, PutAll;
    assert ws[..n + 1] == ws[..n] + [ws[n]];
    PutAllGrows(before, ws[..n], ws[n], now);
    ConflictStays(before, ws, n + 1, now);
  }

  method ApplyCommands(before: Table, project: string, collectionIds: map<string, string>, items: seq<CommandItem>, now: int)
    returns (r: Result<(Batch, map<string, string>), Failure>)
    ensures var all := PutAll(before, CommandWrites(project, collectionIds, items), now);
            if all.Err? then r == Err(CommandConflict)
            else |items| == |all.value.slots| && r == Ok((all.value, CommandIds(items, all.value.slots)))
  {
    hide CommandFingerprint, Find, Put, PutAll, CommandIds;
    var rows, slots, ids := before, [], map[];
    ghost var ws := CommandWrites(project, collectionIds, items);
    assert CommandsSoFar(before, ws, items, 0, now, rows, slots, ids) by {
      NoCommands(before, ws, items, now);
    }
    for i := 0 to |items|
      invariant CommandsSoFar(before, ws, items, i, now, rows, slots, ids)
    {
      var w := CommandWrite(project, collectionIds, items[i]);
      var existing := FindCommand(rows, project, items[i].key, w.content.fingerprint);
      if existing.Err? {
        CommandConflictStays(before, ws, items, i, now, rows, slots, ids);
        return Err(CommandConflict);
      }
      var saved, slot := Save(rows, w, existing.value, now);
      NextCommand(before, ws, items, i, now, rows, slots, ids, saved, slot);
      rows, slots := saved, slots + [slot];
      if items[i].key != "" {
        ids := ids[items[i].key := slot.id];
      }
    }
    assert ws[..|items|] == ws && items[..|items|] == items;
    return Ok((Batch(rows, slots), ids));
  }

  lemma NoCommands(before: Table, ws: seq<Write>, items: seq<CommandItem>, now: int)
    requires |ws| == |items|
    ensures CommandsSoFar(before, ws, items, 0, now, before, [], map[])
  {
  }

  lemma {:induction false} ConflictStays(t: Table, ws: seq<Write>, n: nat, now: int)
    requires n <= |ws|
    ensures PutAll(t, ws[..n], now).Err? ==> PutAll(t, ws, now).Err?
    decreases n
  {
    hide Put;
    if n > 0 && Put(t, ws[0], now).Ok? {
      assert ws[..n][1..] == ws[1..][..n - 1];
      ConflictStays(Put(t, ws[0], now).value.0, ws[1..], n - 1, now);
    }
  }

  method ResolveDependencies(resolved: map<string, string>, keys: seq<string>) returns (r: Result<seq<string>, Failure>)
    ensures r == Dependencies(resolved, keys)
  {
    var ids: seq<string> := [];
    assert keys[0..] == keys;
    PrependNothing(Dependencies(resolved, keys));
    for i := 0 to |keys|
      invariant Dependencies(resolved, keys) == Prepended(ids, Dependencies(resolved, keys[i..]))
    {
      assert keys[i..][1..] == keys[i + 1..];
      PrependTwice(ids, [Get(resolved, keys[i])], Dependencies(resolved, keys[i + 1..]));
      if Get(resolved, keys[i]) == "" {
        if keys[i] != "" {
          return Err(UnknownCommand(keys[i]));
        }
        break;
      }
      ids := ids + [resolved[keys[i]]];
    }
    assert keys[|keys|..] == [] && ids + [] == ids;
    return Ok(ids);
  }

  method ResolveCommands(commands: Table, project: string, commandIds: map<string, string>, specs: seq<MemberItem>)
    returns (r: Result<map<string, string>, Failure>)
    ensures r == Resolved(commands, project, commandIds, specs, map[])
  {
    var resolved: map<string, string> := map[];
    assert specs[0..] == specs;
    for i := 0 to |specs|
      invariant Resolved(commands, project, commandIds, specs, map[]) == Resolved(commands, project, commandIds, specs[i..], resolved)
    {
      assert specs[i..][1..] == specs[i + 1..];
      var key := specs[i].commandKey;
      var id := Get(commandIds, key);
      if id == "" {
        var existing := Lookup(commands, Query(StableKey, [project, key]));
        if existing.Some? {
          id := existing.value.id;
        }
      }
      if id == "" {
        if key != "" {
          return Err(UnknownCommand(key));
        }
        break;
      }
      resolved := resolved[key := id];
    }
    return Ok(resolved);
  }

  method ResolveMembers(commands: Table, project: string, commandIds: map<string, string>, item: StackItem)
    returns (r: Result<seq<Member>, Failure>)
    ensures r == Members(commands, project, commandIds, item)
    ensures r.Ok? ==> Wired(commands, project, commandIds, item, r.value)
    ensures r.Err? ==> r.error.UnknownCommand? && Missing(commands, project, commandIds, item, r.error.key)
  {
    hide Resolved, Specs, Dependencies, Wired, Missing;
    MembersAreWired(commands, project, commandIds, item);
    var specs := Specs(item);
    var resolved := ResolveCommands(commands, project, commandIds, specs);
    if resolved.Err? {
      return Err(resolved.error);
    }
    var members: seq<Member> := [];
    PrependNothing(MembersFrom(resolved.value, specs, 0));
    for i := 0 to |specs|
      invariant MembersFrom(resolved.value, specs, 0) == Prepended(members, MembersFrom(resolved.value, specs, i))
    {
      var dependsOn := ResolveDependencies(resolved.value, specs[i].dependsOnKeys);
      if dependsOn.Err? {
        return Err(dependsOn.error);
      }
      var member := MemberOf(resolved.value, specs[i], i, dependsOn.value);
      PrependTwice(members, [member], MembersFrom(resolved.value, specs, i + 1));
      members := members + [member];
    }
    assert members + [] == members;
    return Ok(members);
  }

  /** The rows after the first n stacks were written. */
  ghost predicate StacksSoFar(before: Table, commands: Table, project: string, collectionIds: map<string, string>, commandIds: map<string, string>,
                              items: seq<StackItem>, n: nat, now: int, done: seq<Write>, rows: Table, slots: seq<Slot>) {
    && n <= |items|
    && PutAll(before, done, now) == Ok(Batch(rows, slots))
    && StackWrites(commands, project, collectionIds, commandIds, items) ==
       Prepended(done, StackWrites(commands, project, collectionIds, commandIds, items[n..]))
  }

  lemma NoStacks(before: Table, commands: Table, project: string, collectionIds: map<string, string>, commandIds: map<string, string>,
                 items: seq<StackItem>, now: int)
    ensures StacksSoFar(before, commands, project, collectionIds, commandIds, items, 0, now, [], before, [])
  {
    hide StackWrites;
    assert items[0..] == items;
    PrependNothing(StackWrites(commands, project, collectionIds, commandIds, items));
  }

  lemma NextStack(before: Table, commands: Table, project: string, collectionIds: map<string, string>, commandIds: map<string, string>,
                  items: seq<StackItem>, n: nat, now: int, done: seq<Write>, rows: Table, slots: seq<Slot>)
    requires StacksSoFar(before, commands, project, collectionIds, commandIds, items, n, now, done, rows, slots) && n < |items|
    ensures var members := Members(commands, project, commandIds, items[n]);
            if members.Err? then PutStacks(before, commands, project, collectionIds, commandIds, items, now) == Err(members.error)
            else
              var w := StackWrite(project, collectionIds, items[n], members.value);
              Put(rows, w, now).Ok? ==>
                StacksSoFar(before, commands, project, collectionIds, commandIds, items, n + 1, now, done + [w],
                            Put(rows, w, now).value.0, slots + [Put(rows, w, now).value.1])
  {
    hide Members, Put, PutAll, StackWrite;
    assert items[n..][1..] == items[n + 1..];
    var members := Members(commands, project, commandIds, items[n]);
    if members.Ok? {
      var w := StackWrite(project, collectionIds, items[n], members.value);
      PutAllGrows(before, done, w, now);
      PrependTwice(done, [w], StackWrites(commands, project, collectionIds, commandIds, items[n + 1..]));
    }
  }

  lemma AllStacks(before: Table, commands: Table, project: string, collectionIds: map<string, string>, commandIds: map<string, string>,
                  items: seq<StackItem>, now: int, done: seq<Write>, rows: Table, slots: seq<Slot>)
    requires StacksSoFar(before, commands, project, collectionIds, commandIds, items, |items|, now, done, rows, slots)
    ensures PutStacks(before, commands, project, collectionIds, commandIds, items, now) == Ok(Batch(rows, slots))
  {
    assert items[|items|..] == [] && done + [] == done;
  }

  method ApplyStacks(before: Table, commands: Table, project: string, collectionIds: map<string, string>, commandIds: map<string, string>,
                     items: seq<StackItem>, now: int)
    returns (r: Result<Batch, Failure>)
    ensures r == PutStacks(before, commands, project, collectionIds, commandIds, items, now)
  {
    hide StacksSoFar, Members, StackWrites, PutStacks, Put, Lookup, StackKey, Upsert;
    var rows, slots := before, [];
    ghost var done: seq<Write> := [];
    NoStacks(before, commands, project, collectionIds, commandIds, items, now);
    for i := 0 to |items|
      invariant StacksSoFar(before, commands, project, collectionIds, commandIds, items, i, now, done, rows, slots)
    {
      NextStack(before, commands, project, collectionIds, commandIds, items, i, now, done, rows, slots);
      var members := ResolveMembers(commands, project, commandIds, items[i]);
      if members.Err? {
        return Err(members.error);
      }
      var w := StackWrite(project, collectionIds, items[i], members.value);
      var existing := Lookup(rows, Query(StableKey, [project, StackKey(items[i])]));
      var slot;
      rows, slot := Save(rows, w, existing, now);
      slots, done := slots + [slot], done + [w];
    }
    AllStacks(before, commands, project, collectionIds, commandIds, items, now, done, rows, slots);
    return Ok(Batch(rows, slots));
  }

  // The unique keys

  /** The keys of every table are unique; its indexes and primary keys say so. */
  predicate UniqueDb(db: Db) {
    && Unique(db.projects, Id) && Unique(db.collections, Id)
    && Unique(db.commands, Id) && Unique(db.commands, StableKey) && Unique(db.commands, Fingerprint)
    && Unique(db.stacks, Id) && Unique(db.stacks, StableKey)
  }

  /** No write of a bundle breaks a unique index: the searches already tell apart what the indexes would refuse. */
  lemma AppliedKeepsUnique(db: Db, b: Bundle, now: int)
    requires UniqueDb(db) && Applied(db, b, now).Ok?
    ensures UniqueDb(Applied(db, b, now).value.0)
  {
    hide Put, PutAll, Unique, PutCollections, PutStacks, CommandWrites, CommandIds, CollectionIds, WriteOrder;
    ProjectNeverConflicts(db.projects, b.project, now);
    PutKeepsIds(db.projects, ProjectWrite(b.project), now);
    var project := Put(db.projects, ProjectWrite(b.project), now).value.1.id;
    var order := WriteOrder(b.collections, {}).value;
    CollectionsKeepIds(db.collections, project, order, now);
    var collectionIds := CollectionIds(project, order);
    CommandsKeepUnique(db.commands, project, collectionIds, b.commands, now);
    var commands := PutAll(db.commands, CommandWrites(project, collectionIds, b.commands), now).value;
    PutAllLength(db.commands, CommandWrites(project, collectionIds, b.commands), now);
    StacksKeepUnique(db.stacks, commands.rows, project, collectionIds, CommandIds(b.commands, commands.slots), b.stacks, now);
  }

  lemma ProjectNeverConflicts(t: Table, p: ProjectItem, now: int)
    ensures Put(t, ProjectWrite(p), now).Ok?
  {
  }

  lemma CollectionsKeepIds(t: Table, project: string, order: seq<CollectionItem>, now: int)
    requires Unique(t, Id)
    ensures Unique(PutCollections(t, project, order, now).rows, Id)
  {
    CollectionsKeyless(project, order);
    KeylessNeverConflicts(t, CollectionWrites(project, order), now);
    PutAllKeepsIds(t, CollectionWrites(project, order), now);
  }

  lemma CommandsKeepUnique(t: Table, project: string, collectionIds: map<string, string>, items: seq<CommandItem>, now: int)
    requires Unique(t, Id) && Unique(t, StableKey) && Unique(t, Fingerprint)
    requires PutAll(t, CommandWrites(project, collectionIds, items), now).Ok?
    ensures var rows := PutAll(t, CommandWrites(project, collectionIds, items), now).value.rows;
            Unique(rows, Id) && Unique(rows, StableKey) && Unique(rows, Fingerprint)
  {
    hide PutAll, Unique, Shaped, CommandWrites;
    var ws := CommandWrites(project, collectionIds, items);
    CommandsShaped(project, collectionIds, items);
    PutAllKeepsIds(t, ws, now);
    PutAllKeepsUnique(t, ws, StableKey, Fingerprint, StableKey, now);
    PutAllKeepsUnique(t, ws, StableKey, Fingerprint, Fingerprint, now);
  }

  lemma StacksKeepUnique(t: Table, commands: Table, project: string, collectionIds: map<string, string>, commandIds: map<string, string>,
                         items: seq<StackItem>, now: int)
    requires Unique(t, Id) && Unique(t, StableKey)
    requires PutStacks(t, commands, project, collectionIds, commandIds, items, now).Ok?
    ensures var rows := PutStacks(t, commands, project, collectionIds, commandIds, items, now).value.rows;
            Unique(rows, Id) && Unique(rows, StableKey)
  {
    hide PutAll, Unique, Shaped, StackWrites;
    var ws := StackWrites(commands, project, collectionIds, commandIds, items).value;
    StacksShaped(commands, project, collectionIds, commandIds, items);
    StacksKeyless(commands, project, collectionIds, commandIds, items);
    KeylessNeverConflicts(t, ws, now);
    PutAllKeepsIds(t, ws, now);
    PutAllKeepsUnique(t, ws, RootPath, StableKey, StableKey, now);
  }
}
