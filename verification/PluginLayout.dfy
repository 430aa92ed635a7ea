/**
 A plugin's files (packages/shared/src/plugin-marketplace.ts): a member's bundle laid out in the plugin
 directory, its components hoisted to the root, and component files of several members merged.
 */
module PluginLayout {

  // ----- the layout ---------------------------------------------------------------------------

  datatype Move = Move(from: string, to: string)

  predicate IsComponentFile(path: string) { path == "hooks.json" || path == "mcp.json" || path == "lsp.json" }

  predicate IsComponentDir(name: string) { name == "commands" || name == "agents" }

  function FirstSlash(path: string): (n: nat)
    ensures n <= |path| && (n < |path| ==> path[n] == '/') && forall i :: 0 <= i < n ==> path[i] != '/'
  {
    if path == "" || path[0] == '/' then 0 else 1 + FirstSlash(path[1..])
  }

  /** A hoisted component: one of the files, or a file in one of the directories. */
  predicate IsComponentPath(path: string) {
    IsComponentFile(path) || (FirstSlash(path) < |path| && IsComponentDir(path[..FirstSlash(path)]))
  }

  /** The component files stand at the root, the component directories below it. */
  lemma ComponentPaths(path: string)
    ensures IsComponentPath(path) <==>
      || path == "hooks.json" || path == "mcp.json" || path == "lsp.json"
      || (|path| >= 9 && path[..9] == "commands/") || (|path| >= 7 && path[..7] == "agents/")
  {
    var n := FirstSlash(path);
    if |path| >= 9 && path[..9] == "commands/" {
      NameInFront(path, "commands");
    }
    if |path| >= 7 && path[..7] == "agents/" {
      NameInFront(path, "agents");
    }
    if n < |path| && path[..n] == "commands" {
      assert path[..9] == path[..n] + [path[n]];
    }
    if n < |path| && path[..n] == "agents" {
      assert path[..7] == path[..n] + [path[n]];
    }
  }

  lemma NameInFront(path: string, name: string)
    requires '/' !in name && |path| > |name| && path[..|name| + 1] == name + "/"
    ensures FirstSlash(path) == |name| && path[..|name|] == name
  {
    var front := name + "/";
    forall i | 0 <= i < |name| ensures path[i] != '/' {
      assert path[i] == front[i] == name[i];
    }
    assert path[|name|] == front[|name|];
    FirstSlashIs(path, |name|);
    assert path[..|name|] == front[..|name|];
  }

  /** A path from the root, from the directory it is in, and the bare path are the same file. */
  lemma SamePath(path: string)
    requires path != "" && path[0] != '/' && !(|path| >= 2 && path[..2] == "./")
    ensures Normalized(path) == path && Normalized("/" + path) == path && Normalized("./" + path) == path
  {
    assert ("/" + path)[0] == '/' && ("/" + path)[1..] == path && ("/" + path)[..2][0] == '/';
    assert ("./" + path)[..2] == "./" && ("./" + path)[2..] == path;
  }

  /** Without a leading `/` or `./`. */
  function Normalized(raw: string): string {
    if |raw| >= 2 && raw[..2] == "./" then raw[2..] else if raw != "" && raw[0] == '/' then raw[1..] else raw
  }

  function ContentPath(skillDir: string, path: string): string { "skills/" + skillDir + "/" + path }

  function Destination(skillDir: string, path: string): string {
    if IsComponentPath(path) then path else ContentPath(skillDir, path)
  }

  function Layout(skillDir: string, paths: seq<string>): seq<Move> {
    if paths == [] then []
    else
      var raw := paths[|paths| - 1];
      Layout(skillDir, paths[..|paths| - 1])
      + if Normalized(raw) == "" then [] else [Move(raw, Destination(skillDir, Normalized(raw)))]
  }

  /** Map a member's files: components to the plugin root, everything else under its directory. */
  method PlanPluginLayout(skillDir: string, paths: seq<string>) returns (moves: seq<Move>)
    ensures moves == Layout(skillDir, paths)
  {
    hide IsComponentFile, IsComponentDir, ContentPath, Normalized;
    moves := [];
    assert paths[..0] == [];
    for i := 0 to |paths|
      invariant moves == Layout(skillDir, paths[..i])
    {
      assert paths[..i + 1][..i] == paths[..i];
      var path := Normalized(paths[i]);
      if path == "" {
        continue;
      }
      if IsComponentFile(path) {
        moves := moves + [Move(paths[i], path)];
        continue;
      }
      var slash := FirstSlash(path);
      if slash < |path| && IsComponentDir(path[..slash]) {
        moves := moves + [Move(paths[i], path)];
        continue;
      }
      moves := moves + [Move(paths[i], ContentPath(skillDir, path))];
    }
    assert paths[..|paths|] == paths;
  }

  lemma {:induction false} FirstSlashIs(path: string, n: nat)
    requires n < |path| && path[n] == '/' && forall i :: 0 <= i < n ==> path[i] != '/'
    ensures FirstSlash(path) == n
  {
    if n > 0 {
      FirstSlashIs(path[1..], n - 1);
    }
  }

  /** Skill content is never taken for a component. */
  lemma ContentIsNoComponent(skillDir: string, path: string)
    ensures !IsComponentPath(ContentPath(skillDir, path))
  {
    var p := ContentPath(skillDir, path);
    assert p[..7] == "skills/";
    assert p[6] == p[..7][6] == '/';
    forall i | 0 <= i < 6 ensures p[i] != '/' {
      assert p[i] == p[..7][i];
    }
    FirstSlashIs(p, 6);
    assert p[..6] == p[..7][..6] == "skills";
    assert p[0] == p[..7][0] == 's';
    assert "hooks.json"[0] == 'h' && "mcp.json"[0] == 'm' && "lsp.json"[0] == 'l';
  }

  /** A content path says whose it is: directories have no slash. */
  lemma ContentPathDetermines(dir: string, path: string, other: string, otherPath: string)
    requires '/' !in dir && '/' !in other && ContentPath(dir, path) == ContentPath(other, otherPath)
    ensures dir == other && path == otherPath
  {
    var a, b := dir + "/" + path, other + "/" + otherPath;
    assert ContentPath(dir, path) == "skills/" + a && ContentPath(other, otherPath) == "skills/" + b;
    assert a == ("skills/" + a)[7..] == ("skills/" + b)[7..] == b;
    assert forall i :: 0 <= i < |dir| ==> dir[i] in dir;
    assert forall i :: 0 <= i < |other| ==> other[i] in other;
    FirstSlashIs(a, |dir|);
    FirstSlashIs(b, |other|);
    assert dir == a[..|dir|] && other == b[..|other|];
    assert path == a[|dir| + 1..] && otherPath == b[|other| + 1..];
  }

  /** A path two members in different directories both fill is a component both brought. */
  lemma MembersMeetInComponents(dir: string, paths: seq<string>, other: string, others: seq<string>, a: Move, b: Move)
    requires '/' !in dir && '/' !in other && dir != other
    requires a in Layout(dir, paths) && b in Layout(other, others) && a.to == b.to
    ensures IsComponentPath(a.to) && a.to == Normalized(a.from) && b.to == Normalized(b.from)
  {
    MoveIs(dir, paths, a);
    MoveIs(other, others, b);
    var p, q := Normalized(a.from), Normalized(b.from);
    ContentIsNoComponent(dir, p);
    ContentIsNoComponent(other, q);
    if !IsComponentPath(p) && !IsComponentPath(q) {
      ContentPathDetermines(dir, p, other, q);
    }
  }

  /** Every file with a name is moved, to its destination, and nothing else is. */
  lemma {:induction false} MoveIs(skillDir: string, paths: seq<string>, m: Move)
    ensures m in Layout(skillDir, paths) <==>
      m.from in paths && Normalized(m.from) != "" && m.to == Destination(skillDir, Normalized(m.from))
  {
    hide Destination, Normalized;
    if paths != [] {
      var n := |paths| - 1;
      MoveIs(skillDir, paths[..n], m);
      assert paths == paths[..n] + [paths[n]];
    }
  }

  // ----- merging ------------------------------------------------------------------------------

  /** A JSON value; an object keeps the order of its keys. */
  datatype Json = Null | Scalar(text: string) | List(items: seq<Json>) | Object(keys: seq<string>, at: map<string, Json>)

  /** The keys are distinct, and are the ones with a value. */
  ghost predicate WellFormed(keys: seq<string>, at: map<string, Json>) {
    && (forall i, j :: 0 <= i < j < |keys| ==> keys[i] != keys[j])
    && (forall k :: k in keys <==> k in at)
  }

  /** Well formed as deep as the merge looks. */
  ghost predicate Readable(j: Json) {
    j.Object? ==> (
      && WellFormed(j.keys, j.at)
      && forall k :: k in j.at && j.at[k].Object? ==> WellFormed(j.at[k].keys, j.at[k].at))
  }

  /** One of two values of the same entry: arrays are concatenated, else the first stays. */
  function MergedEntry(cur: Json, val: Json): Json {
    if cur.List? && val.List? then List(cur.items + val.items) else cur
  }

  /** An entry is present in both and not an array in both: the second is dropped. */
  predicate Clashes(cur: map<string, Json>, val: map<string, Json>, name: string) {
    name in cur && name in val && !(cur[name].List? && val[name].List?)
  }

  /** The entries of an object merged into another's. */
  function MergedEntries(cur: map<string, Json>, val: map<string, Json>): map<string, Json> {
    map name | name in cur.Keys + val.Keys ::
      if name !in cur then val[name] else if name !in val then cur[name] else MergedEntry(cur[name], val[name])
  }

  datatype Skip = Root | Key(key: string) | Entry(key: string, name: string)

  /** The entries merged so far, and those dropped. */
  ghost predicate EntriesSoFar(cur: map<string, Json>, val: map<string, Json>, done: seq<string>, inner: map<string, Json>) {
    && (forall name :: name in inner <==> name in cur || name in done)
    && forall name :: name in inner ==>
      if name !in cur then name in val && inner[name] == val[name]
      else if name !in done then inner[name] == cur[name]
      else name in val && inner[name] == MergedEntry(cur[name], val[name])
  }

  ghost predicate ClashesSoFar(key: string, cur: map<string, Json>, val: map<string, Json>, done: seq<string>, skipped: seq<Skip>) {
    forall s :: s in skipped <==> s.Entry? && s.key == key && s.name in done && Clashes(cur, val, s.name)
  }

  lemma OneMoreEntry(cur: map<string, Json>, val: map<string, Json>, done: seq<string>, inner: map<string, Json>, name: string)
    requires EntriesSoFar(cur, val, done, inner) && name in val && name !in done
    ensures name in inner <==> name in cur
    ensures name !in inner ==> EntriesSoFar(cur, val, done + [name], inner[name := val[name]])
    ensures name in inner ==> inner[name] == cur[name]
    ensures name in inner ==> EntriesSoFar(cur, val, done + [name], inner[name := MergedEntry(cur[name], val[name])])
  {
  }

  lemma OneMoreClash(key: string, cur: map<string, Json>, val: map<string, Json>, done: seq<string>, skipped: seq<Skip>, name: string)
    requires ClashesSoFar(key, cur, val, done, skipped)
    ensures Clashes(cur, val, name) ==> ClashesSoFar(key, cur, val, done + [name], skipped + [Entry(key, name)])
    ensures !Clashes(cur, val, name) ==> ClashesSoFar(key, cur, val, done + [name], skipped)
  {
    hide Clashes;
  }

  /** Merge the entries of one key, in the incoming object's order; new ones come last. */
  method MergeEntries(key: string, cur: Json, val: Json) returns (merged: Json, skipped: seq<Skip>)
    requires cur.Object? && val.Object? && WellFormed(cur.keys, cur.at) && WellFormed(val.keys, val.at)
    ensures merged.Object? && merged.at == MergedEntries(cur.at, val.at)
    ensures forall s :: s in skipped <==> s.Entry? && s.key == key && Clashes(cur.at, val.at, s.name)
  {
    var keys, inner := cur.keys, cur.at;
    skipped := [];
    for i := 0 to |val.keys|
      invariant EntriesSoFar(cur.at, val.at, val.keys[..i], inner)
      invariant ClashesSoFar(key, cur.at, val.at, val.keys[..i], skipped)
    {
      hide EntriesSoFar, ClashesSoFar;
      var name := val.keys[i];
      assert name in val.keys;
      assert val.keys[..i + 1] == val.keys[..i] + [name];
      forall k | 0 <= k < i ensures val.keys[..i][k] != name {}
      OneMoreEntry(cur.at, val.at, val.keys[..i], inner, name);
      OneMoreClash(key, cur.at, val.at, val.keys[..i], skipped, name);
      if name !in inner {
        keys, inner := keys + [name], inner[name := val.at[name]];
      } else if inner[name].List? && val.at[name].List? {
        inner := inner[name := List(inner[name].items + val.at[name].items)];
      } else {
        assert inner[name := cur.at[name]] == inner;
        skipped := skipped + [Entry(key, name)];
      }
    }
    assert val.keys[..|val.keys|] == val.keys;
    merged := Object(keys, inner);
  }

  /** What the merge makes of a key both have: entries merged when both are objects, arrays concatenated,
      else the first stays. */
  ghost predicate KeyMerged(cur: Json, val: Json, merged: Json) {
    if cur.Object? && val.Object? then merged.Object? && merged.at == MergedEntries(cur.at, val.at)
    else merged == MergedEntry(cur, val)
  }

  /** What of an incoming key is dropped. */
  ghost predicate Drops(cur: Json, val: Json, key: string, s: Skip) {
    match s
    case Root => false
    case Key(k) => k == key && !(cur.Object? && val.Object?) && !(cur.List? && val.List?)
    case Entry(k, name) => k == key && cur.Object? && val.Object? && Clashes(cur.at, val.at, name)
  }

  /** Merge a key both have. */
  method MergeKey(key: string, cur: Json, val: Json) returns (merged: Json, skipped: seq<Skip>)
    requires cur.Object? ==> WellFormed(cur.keys, cur.at)
    requires val.Object? ==> WellFormed(val.keys, val.at)
    ensures KeyMerged(cur, val, merged) && forall s :: s in skipped <==> Drops(cur, val, key, s)
  {
    if cur.Object? && val.Object? {
      merged, skipped := MergeEntries(key, cur, val);
    } else if cur.List? && val.List? {
      merged, skipped := List(cur.items + val.items), [];
    } else {
      merged, skipped := cur, [Key(key)];
    }
  }

  /** Of the incoming keys so far: what is merged and what is dropped. */
  ghost predicate MergedSoFar(base: map<string, Json>, incoming: map<string, Json>, done: seq<string>, merged: map<string, Json>) {
    && (forall k :: k in merged <==> k in base || k in done)
    && forall k :: k in merged ==>
      if k !in done then merged[k] == base[k]
      else k in incoming && if k !in base then merged[k] == incoming[k] else KeyMerged(base[k], incoming[k], merged[k])
  }

  ghost predicate ReportedSoFar(base: map<string, Json>, incoming: map<string, Json>, done: seq<string>, skipped: seq<Skip>) {
    forall s :: s in skipped <==>
      s != Root && s.key in done && s.key in base && s.key in incoming && Drops(base[s.key], incoming[s.key], s.key, s)
  }

  /** Merge a member's component file into the plugin's. What is there stays, what is new comes in, and
      exactly what is dropped is reported. Without a base, or with a null one, the incoming file is taken. */
  method MergeComponentJson(base: Json, incoming: Json) returns (merged: Json, skipped: seq<Skip>)
    requires Readable(base) && Readable(incoming)
    ensures base.Null? ==> merged == incoming && skipped == []
    ensures !base.Null? && !(base.Object? && incoming.Object?) ==> merged == base && skipped == [Root]
    ensures base.Object? && incoming.Object? ==>
      && merged.Object? && MergedSoFar(base.at, incoming.at, incoming.keys, merged.at)
      && ReportedSoFar(base.at, incoming.at, incoming.keys, skipped)
  {
    if base.Null? {
      return incoming, [];
    }
    if !base.Object? || !incoming.Object? {
      return base, [Root];
    }
    hide KeyMerged, Drops;
    var keys, at := base.keys, base.at;
    skipped := [];
    for i := 0 to |incoming.keys|
      invariant MergedSoFar(base.at, incoming.at, incoming.keys[..i], at)
      invariant ReportedSoFar(base.at, incoming.at, incoming.keys[..i], skipped)
    {
      hide MergedSoFar, ReportedSoFar;
      var key := incoming.keys[i];
      assert key in incoming.keys;
      assert incoming.keys[..i + 1] == incoming.keys[..i] + [key];
      forall k | 0 <= k < i ensures incoming.keys[..i][k] != key {}
      StillBase(base.at, incoming.at, incoming.keys[..i], at, key);
      if key !in at {
        NewKey(base.at, incoming.at, incoming.keys[..i], at, skipped, key);
        keys, at := keys + [key], at[key := incoming.at[key]];
      } else {
        var value, dropped := MergeKey(key, at[key], incoming.at[key]);
        OldKey(base.at, incoming.at, incoming.keys[..i], at, skipped, key, value, dropped);
        at, skipped := at[key := value], skipped + dropped;
      }
    }
    assert incoming.keys[..|incoming.keys|] == incoming.keys;
    merged := Object(keys, at);
  }

  lemma StillBase(base: map<string, Json>, incoming: map<string, Json>, done: seq<string>, merged: map<string, Json>, key: string)
    requires MergedSoFar(base, incoming, done, merged) && key !in done
    ensures key in merged <==> key in base
    ensures key in base ==> merged[key] == base[key]
  {
  }

  lemma NewKey(base: map<string, Json>, incoming: map<string, Json>, done: seq<string>, merged: map<string, Json>, skipped: seq<Skip>, key: string)
    requires MergedSoFar(base, incoming, done, merged) && ReportedSoFar(base, incoming, done, skipped)
    requires key !in done && key !in base && key in incoming
    ensures MergedSoFar(base, incoming, done + [key], merged[key := incoming[key]])
    ensures ReportedSoFar(base, incoming, done + [key], skipped)
  {
    hide KeyMerged, Drops;
  }

  lemma OldKey(base: map<string, Json>, incoming: map<string, Json>, done: seq<string>, merged: map<string, Json>, skipped: seq<Skip>,
      key: string, value: Json, dropped: seq<Skip>)
    requires MergedSoFar(base, incoming, done, merged) && ReportedSoFar(base, incoming, done, skipped)
    requires key !in done && key in base && key in incoming && KeyMerged(base[key], incoming[key], value)
    requires forall s :: s in dropped <==> Drops(base[key], incoming[key], key, s)
    ensures MergedSoFar(base, incoming, done + [key], merged[key := value])
    ensures ReportedSoFar(base, incoming, done + [key], skipped + dropped)
  {
    hide KeyMerged, Drops;
    DropsKey(base[key], incoming[key], key);
  }

  lemma DropsKey(cur: Json, val: Json, key: string)
    ensures forall s :: Drops(cur, val, key, s) ==> s != Root && s.key == key
  {
  }

  /** Nothing of the first member is lost: every key and entry it had keeps its value, or its array with
      more behind it. */
  lemma FirstStays(base: map<string, Json>, incoming: map<string, Json>, keys: seq<string>, merged: map<string, Json>, key: string)
    requires MergedSoFar(base, incoming, keys, merged) && key in base
    ensures key in merged
    ensures base[key].Scalar? || base[key].Null? ==> merged[key] == base[key]
    ensures base[key].List? ==> merged[key].List? && base[key].items <= merged[key].items
    ensures base[key].Object? ==> merged[key].Object? && forall name :: name in base[key].at ==> (
      && name in merged[key].at
      && (base[key].at[name].List? ==> merged[key].at[name].List? && base[key].at[name].items <= merged[key].at[name].items)
      && (!base[key].at[name].List? ==> merged[key].at[name] == base[key].at[name]))
  {
  }
}
