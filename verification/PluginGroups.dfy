/**
 Plugin marketplaces (packages/shared/src/plugin-marketplace.ts): skills grouped into plugins with the
 first one to claim a directory winning, bundle files laid out in a plugin, and component files merged.
 Nothing is dropped without a report. Skills come in their deterministic order.
 */
module PluginGroups {
  import opened Common

  const GENERAL := "general"

  datatype Skill = Skill(namespaceSlug: string, skillSlug: string, categories: seq<string>)

  datatype Scope = Public | Namespace(slug: string)

  datatype Collision = Collision(pluginSlug: string, skillDir: string, winner: Skill, skipped: Skill)

  datatype Plugin = Plugin(slug: string, members: seq<Skill>)

  /** The directory of a member: bare for the namespace's own skills, prefixed for all others. */
  function SkillDir(scope: Scope, s: Skill): string {
    if scope.Namespace? && scope.slug == s.namespaceSlug then s.skillSlug else s.namespaceSlug + "-" + s.skillSlug
  }

  // ----- buckets ------------------------------------------------------------------------------

  /** The known categories of a skill, each once; the general plugin without any. */
  function Known(categories: seq<string>, vocabulary: set<string>): (r: seq<string>)
    ensures forall c :: c in r <==> c in categories && c in vocabulary
    ensures forall i, j :: 0 <= i < j < |r| ==> r[i] != r[j]
  {
    if categories == [] then []
    else
      var last := categories[|categories| - 1];
      var before := Known(categories[..|categories| - 1], vocabulary);
      assert categories == categories[..|categories| - 1] + [last];
      if last in vocabulary && last !in before then before + [last] else before
  }

  function Targets(s: Skill, vocabulary: set<string>): (r: seq<string>)
    ensures r != [] && forall i, j :: 0 <= i < j < |r| ==> r[i] != r[j]
    ensures (exists c :: c in s.categories && c in vocabulary) ==> forall t :: t in r <==> t in s.categories && t in vocabulary
    ensures (forall c :: c in s.categories ==> c !in vocabulary) ==> r == [GENERAL]
  {
    var slugs := Known(s.categories, vocabulary);
    assert slugs != [] ==> slugs[0] in slugs;
    if slugs == [] then [GENERAL] else slugs
  }

  /** The skills that belong in a plugin, in order. */
  function Bucket(skills: seq<Skill>, vocabulary: set<string>, target: string): seq<Skill> {
    if skills == [] then []
    else
      var last := skills[|skills| - 1];
      Bucket(skills[..|skills| - 1], vocabulary, target) + if target in Targets(last, vocabulary) then [last] else []
  }

  type Buckets = Grouped<Skill>

  /** Each plugin with a skill has its bucket, and only those. */
  ghost predicate BucketsOf(b: Buckets, skills: seq<Skill>, vocabulary: set<string>) {
    && (forall i, j :: 0 <= i < j < |b.keys| ==> b.keys[i] != b.keys[j])
    && (forall k :: k in b.keys <==> k in b.lists)
    && (forall k :: if k in b.lists then b.lists[k] == Bucket(skills, vocabulary, k) && b.lists[k] != []
        else Bucket(skills, vocabulary, k) == [])
  }

  /** Part of the way through a skill's targets. */
  ghost predicate BucketsBetween(b: Buckets, skills: seq<Skill>, vocabulary: set<string>, s: Skill, done: seq<string>) {
    && (forall i, j :: 0 <= i < j < |b.keys| ==> b.keys[i] != b.keys[j])
    && (forall k :: k in b.keys <==> k in b.lists)
    && (forall k :: if k in b.lists
        then b.lists[k] == Bucket(skills, vocabulary, k) + (if k in done then [s] else []) && b.lists[k] != []
        else Bucket(skills, vocabulary, k) == [] && k !in done)
  }

  lemma PushedBetween(b: Buckets, skills: seq<Skill>, vocabulary: set<string>, s: Skill, done: seq<string>, t: string)
    requires BucketsBetween(b, skills, vocabulary, s, done) && t !in done
    ensures BucketsBetween(Pushed(b, t, s), skills, vocabulary, s, done + [t])
  {
    hide Bucket;
  }

  lemma AllTargetsDone(b: Buckets, skills: seq<Skill>, vocabulary: set<string>, s: Skill)
    requires BucketsBetween(b, skills, vocabulary, s, Targets(s, vocabulary))
    ensures BucketsOf(b, skills + [s], vocabulary)
  {
    hide Targets;
    assert (skills + [s])[..|skills|] == skills;
    forall k
      ensures Bucket(skills + [s], vocabulary, k) == Bucket(skills, vocabulary, k) + (if k in Targets(s, vocabulary) then [s] else [])
    {
    }
  }

  lemma NoTargetsDone(b: Buckets, skills: seq<Skill>, vocabulary: set<string>, s: Skill)
    requires BucketsOf(b, skills, vocabulary)
    ensures BucketsBetween(b, skills, vocabulary, s, [])
  {
    hide Bucket;
    assert forall k :: Bucket(skills, vocabulary, k) + [] == Bucket(skills, vocabulary, k);
  }

  /** Put each skill in the bucket of each of its targets. */
  method FillBuckets(skills: seq<Skill>, vocabulary: set<string>) returns (b: Buckets)
    ensures BucketsOf(b, skills, vocabulary)
  {
    hide Bucket, Targets, Pushed;
    b := Grouped([], map[]);
    assert BucketsOf(b, skills[..0], vocabulary) by { EmptyBuckets(vocabulary); }
    for i := 0 to |skills|
      invariant BucketsOf(b, skills[..i], vocabulary)
    {
      hide BucketsOf, BucketsBetween;
      var targets := Targets(skills[i], vocabulary);
      NoTargetsDone(b, skills[..i], vocabulary, skills[i]);
      for k := 0 to |targets|
        invariant BucketsBetween(b, skills[..i], vocabulary, skills[i], targets[..k])
      {
        forall j | 0 <= j < k ensures targets[..k][j] != targets[k] {}
        PushedBetween(b, skills[..i], vocabulary, skills[i], targets[..k], targets[k]);
        assert targets[..k + 1] == targets[..k] + [targets[k]];
        b := Pushed(b, targets[k], skills[i]);
      }
      assert targets[..|targets|] == targets;
      AllTargetsDone(b, skills[..i], vocabulary, skills[i]);
      assert skills[..i + 1] == skills[..i] + [skills[i]];
    }
    assert skills[..|skills|] == skills;
  }

  lemma EmptyBuckets(vocabulary: set<string>)
    ensures BucketsOf(Grouped([], map[]), [], vocabulary)
  {
  }

  // ----- first wins ---------------------------------------------------------------------------

  /** The first skill of the list in a directory. */
  function Winner(scope: Scope, list: seq<Skill>, dir: string): Option<Skill> {
    if list == [] then None
    else if SkillDir(scope, list[0]) == dir then Some(list[0])
    else Winner(scope, list[1..], dir)
  }

  /** Those whose directory no earlier one has. */
  function Members(scope: Scope, list: seq<Skill>): seq<Skill> {
    if list == [] then []
    else
      var n := |list| - 1;
      Members(scope, list[..n]) + if Winner(scope, list[..n], SkillDir(scope, list[n])).None? then [list[n]] else []
  }

  /** The others, each with the winner of its directory. */
  function Collisions(scope: Scope, slug: string, list: seq<Skill>): seq<Collision> {
    if list == [] then []
    else
      var n := |list| - 1;
      var dir := SkillDir(scope, list[n]);
      var w := Winner(scope, list[..n], dir);
      Collisions(scope, slug, list[..n]) + if w.Some? then [Collision(slug, dir, w.value, list[n])] else []
  }

  function SkippedOf(cs: seq<Collision>): seq<Skill> {
    if cs == [] then [] else SkippedOf(cs[..|cs| - 1]) + [cs[|cs| - 1].skipped]
  }

  lemma {:induction false} WinnerAppend(scope: Scope, list: seq<Skill>, s: Skill, dir: string)
    ensures Winner(scope, list + [s], dir) ==
      if Winner(scope, list, dir).Some? then Winner(scope, list, dir)
      else if SkillDir(scope, s) == dir then Some(s) else None
  {
    if list == [] {
      assert list + [s] == [s];
    } else {
      assert (list + [s])[1..] == list[1..] + [s];
      WinnerAppend(scope, list[1..], s, dir);
    }
  }

  /** A directory's first skill is a member, in that directory. */
  lemma {:induction false} WinnerIsMember(scope: Scope, list: seq<Skill>, dir: string)
    ensures Winner(scope, list, dir).Some? ==>
      Winner(scope, list, dir).value in Members(scope, list) && SkillDir(scope, Winner(scope, list, dir).value) == dir
    ensures Winner(scope, list, dir).None? ==> forall m :: m in Members(scope, list) ==> SkillDir(scope, m) != dir
    decreases |list|
  {
    hide SkillDir;
    if list != [] {
      var n := |list| - 1;
      assert list == list[..n] + [list[n]];
      WinnerAppend(scope, list[..n], list[n], dir);
      WinnerIsMember(scope, list[..n], dir);
      WinnerIsMember(scope, list[..n], SkillDir(scope, list[n]));
    }
  }

  lemma SkippedAppend(cs: seq<Collision>, c: Collision)
    ensures SkippedOf(cs + [c]) == SkippedOf(cs) + [c.skipped]
  {
    assert (cs + [c])[..|cs|] == cs;
  }

  lemma OneMorePlaced(a: seq<Skill>, b: seq<Skill>, list: seq<Skill>, s: Skill)
    requires multiset(a) + multiset(b) == multiset(list)
    ensures multiset(a + [s]) + multiset(b) == multiset(list + [s])
    ensures multiset(a) + multiset(b + [s]) == multiset(list + [s])
  {
  }

  lemma {:induction false} EachPlaced(scope: Scope, slug: string, list: seq<Skill>)
    ensures multiset(Members(scope, list)) + multiset(SkippedOf(Collisions(scope, slug, list))) == multiset(list)
    decreases |list|
  {
    hide SkillDir, Winner, SkippedOf;
    if list != [] {
      var n := |list| - 1;
      var init, last := list[..n], list[n];
      EachPlaced(scope, slug, init);
      assert list == init + [last];
      var ms, cs := Members(scope, init), Collisions(scope, slug, init);
      var w := Winner(scope, init, SkillDir(scope, last));
      OneMorePlaced(ms, SkippedOf(cs), init, last);
      if w.Some? {
        SkippedAppend(cs, Collision(slug, SkillDir(scope, last), w.value, last));
        assert ms + [] == ms;
      } else {
        assert cs + [] == cs;
      }
    } else {
      assert SkippedOf([]) == [] by { NoneSkipped(); }
    }
  }

  lemma NoneSkipped()
    ensures SkippedOf([]) == []
  {
  }

  lemma {:induction false} DirsUnique(scope: Scope, list: seq<Skill>)
    ensures forall i, j :: 0 <= i < j < |Members(scope, list)| ==>
      SkillDir(scope, Members(scope, list)[i]) != SkillDir(scope, Members(scope, list)[j])
    decreases |list|
  {
    hide SkillDir, Winner;
    if list != [] {
      var n := |list| - 1;
      DirsUnique(scope, list[..n]);
      WinnerIsMember(scope, list[..n], SkillDir(scope, list[n]));
      assert forall i :: 0 <= i < |Members(scope, list[..n])| ==> Members(scope, list[..n])[i] in Members(scope, list[..n]);
    }
  }

  lemma {:induction false} WinnersHold(scope: Scope, slug: string, list: seq<Skill>)
    ensures forall c :: c in Collisions(scope, slug, list) ==>
      && c.pluginSlug == slug && c.winner in Members(scope, list)
      && SkillDir(scope, c.winner) == c.skillDir == SkillDir(scope, c.skipped)
    decreases |list|
  {
    hide SkillDir, Winner;
    if list != [] {
      var n := |list| - 1;
      WinnersHold(scope, slug, list[..n]);
      WinnerIsMember(scope, list[..n], SkillDir(scope, list[n]));
    }
  }

  /** Each skill of the list is a member or a reported collision, and never both; directories are unique
      among members; and each collision names the member that has its directory. */
  lemma NothingLost(scope: Scope, slug: string, list: seq<Skill>)
    ensures multiset(Members(scope, list)) + multiset(SkippedOf(Collisions(scope, slug, list))) == multiset(list)
    ensures forall i, j :: 0 <= i < j < |Members(scope, list)| ==>
      SkillDir(scope, Members(scope, list)[i]) != SkillDir(scope, Members(scope, list)[j])
    ensures forall c :: c in Collisions(scope, slug, list) ==>
      && c.pluginSlug == slug && c.winner in Members(scope, list)
      && SkillDir(scope, c.winner) == c.skillDir == SkillDir(scope, c.skipped)
  {
    EachPlaced(scope, slug, list);
    DirsUnique(scope, list);
    WinnersHold(scope, slug, list);
  }

  /** A collision's winner comes before what it keeps out. */
  lemma {:induction false} WinnersAreEarlier(scope: Scope, slug: string, list: seq<Skill>, c: Collision)
    requires c in Collisions(scope, slug, list)
    ensures exists i, j :: 0 <= i < j < |list| && list[i] == c.winner && list[j] == c.skipped
    decreases |list|
  {
    hide SkillDir;
    var n := |list| - 1;
    if c in Collisions(scope, slug, list[..n]) {
      WinnersAreEarlier(scope, slug, list[..n], c);
      var i, j :| 0 <= i < j < n && list[..n][i] == c.winner && list[..n][j] == c.skipped;
      assert list[i] == c.winner && list[j] == c.skipped;
    } else {
      WinnerIsListed(scope, list[..n], c.skillDir);
      var i :| 0 <= i < n && list[..n][i] == c.winner;
      assert list[i] == c.winner && list[n] == c.skipped;
    }
  }

  lemma {:induction false} WinnerIsListed(scope: Scope, list: seq<Skill>, dir: string)
    ensures Winner(scope, list, dir).Some? ==> Winner(scope, list, dir).value in list
  {
    if list != [] {
      WinnerIsListed(scope, list[1..], dir);
    }
  }

  /** Place a bucket's skills: the first in a directory is a member, a later one is reported. */
  method PlaceBucket(scope: Scope, slug: string, list: seq<Skill>) returns (members: seq<Skill>, collisions: seq<Collision>)
    ensures members == Members(scope, list) && collisions == Collisions(scope, slug, list)
  {
    hide SkillDir;
    members, collisions := [], [];
    var seen: map<string, Skill> := map[];
    assert list[..0] == [];
    for i := 0 to |list|
      invariant members == Members(scope, list[..i]) && collisions == Collisions(scope, slug, list[..i])
      invariant forall d :: Winner(scope, list[..i], d) == if d in seen then Some(seen[d]) else None
    {
      var s := list[i];
      var dir := SkillDir(scope, s);
      assert list[..i + 1][..i] == list[..i] && list[..i + 1] == list[..i] + [s];
      forall d {
        WinnerAppend(scope, list[..i], s, d);
      }
      if dir in seen {
        collisions := collisions + [Collision(slug, dir, seen[dir], s)];
      } else {
        seen := seen[dir := s];
        members := members + [s];
      }
    }
    assert list[..|list|] == list;
  }

  // ----- all plugins --------------------------------------------------------------------------

  /** The collisions of one plugin. */
  function CollisionsIn(cs: seq<Collision>, slug: string): seq<Collision> {
    if cs == [] then []
    else CollisionsIn(cs[..|cs| - 1], slug) + if cs[|cs| - 1].pluginSlug == slug then [cs[|cs| - 1]] else []
  }

  lemma {:induction false} CollisionsInAppend(a: seq<Collision>, b: seq<Collision>, slug: string)
    ensures CollisionsIn(a + b, slug) == CollisionsIn(a, slug) + CollisionsIn(b, slug)
    decreases |b|
  {
    if b == [] {
      assert a + b == a;
    } else {
      assert (a + b)[..|a + b| - 1] == a + b[..|b| - 1];
      CollisionsInAppend(a, b[..|b| - 1], slug);
    }
  }

  lemma {:induction false} OneSlug(cs: seq<Collision>, slug: string, other: string)
    requires forall c :: c in cs ==> c.pluginSlug == slug
    ensures CollisionsIn(cs, other) == if other == slug then cs else []
  {
    if cs != [] {
      OneSlug(cs[..|cs| - 1], slug, other);
      assert cs[|cs| - 1] in cs;
    }
  }

  /** Group the skills into plugins. There is a plugin for exactly the targets some skill has, once each;
      for each, every skill that belongs in it is one member or one reported collision. */
  method GroupSkillsIntoPlugins(scope: Scope, skills: seq<Skill>, vocabulary: set<string>)
    returns (plugins: seq<Plugin>, collisions: seq<Collision>)
    ensures forall i, j :: 0 <= i < j < |plugins| ==> plugins[i].slug != plugins[j].slug
    ensures forall t :: Bucket(skills, vocabulary, t) != [] <==> exists i :: 0 <= i < |plugins| && plugins[i].slug == t
    ensures forall i :: 0 <= i < |plugins| ==>
      && plugins[i].members == Members(scope, Bucket(skills, vocabulary, plugins[i].slug))
      && CollisionsIn(collisions, plugins[i].slug) == Collisions(scope, plugins[i].slug, Bucket(skills, vocabulary, plugins[i].slug))
  {
    hide Bucket, Members, Collisions, CollisionsIn;
    var b := FillBuckets(skills, vocabulary);
    plugins, collisions := [], [];
    assert forall t :: CollisionsIn([], t) == [] by { NoCollisions(); }
    for i := 0 to |b.keys|
      invariant |plugins| == i && forall j :: 0 <= j < i ==> plugins[j].slug == b.keys[j]
      invariant forall j :: 0 <= j < i ==> plugins[j].members == Members(scope, Bucket(skills, vocabulary, b.keys[j]))
      invariant forall j :: 0 <= j < |b.keys| ==>
        CollisionsIn(collisions, b.keys[j]) ==
          if j < i then Collisions(scope, b.keys[j], Bucket(skills, vocabulary, b.keys[j])) else []
    {
      var slug := b.keys[i];
      var list := b.lists[slug];
      var members, cs := PlaceBucket(scope, slug, list);
      NothingLost(scope, slug, list);
      forall j | 0 <= j < |b.keys|
        ensures CollisionsIn(collisions + cs, b.keys[j]) == CollisionsIn(collisions, b.keys[j]) + if j == i then cs else []
      {
        CollisionsInAppend(collisions, cs, b.keys[j]);
        OneSlug(cs, slug, b.keys[j]);
      }
      plugins, collisions := plugins + [Plugin(slug, members)], collisions + cs;
    }
  }

  lemma NoCollisions()
    ensures forall t :: CollisionsIn([], t) == []
  {
  }

  // ----- who may shadow whom ------------------------------------------------------------------

  /** An earlier skill of the list claims the directory of the one at j. */
  predicate Beaten(scope: Scope, list: seq<Skill>, j: nat)
    requires j < |list|
  {
    exists i :: 0 <= i < j && SkillDir(scope, list[i]) == SkillDir(scope, list[j])
  }

  lemma {:induction false} WinnerNone(scope: Scope, list: seq<Skill>, dir: string)
    ensures Winner(scope, list, dir).None? <==> forall i :: 0 <= i < |list| ==> SkillDir(scope, list[i]) != dir
  {
    hide SkillDir;
    if list != [] {
      WinnerNone(scope, list[1..], dir);
      forall i | 0 < i < |list| ensures list[i] == list[1..][i - 1] {}
      if Winner(scope, list, dir).None? {
        forall i | 0 <= i < |list| ensures SkillDir(scope, list[i]) != dir {
          assert i > 0 ==> list[i] == list[1..][i - 1];
        }
      } else if SkillDir(scope, list[0]) != dir {
        var i :| 0 <= i < |list[1..]| && SkillDir(scope, list[1..][i]) == dir;
        assert list[1..][i] == list[i + 1];
      }
    }
  }

  /** The skill stands somewhere in the list, with its directory claimed before or not. */
  ghost predicate Stands(scope: Scope, list: seq<Skill>, s: Skill, beaten: bool) {
    exists j :: 0 <= j < |list| && list[j] == s && Beaten(scope, list, j) == beaten
  }

  lemma BeatenIsWinner(scope: Scope, list: seq<Skill>, n: nat)
    requires n < |list|
    ensures Beaten(scope, list, n) <==> Winner(scope, list[..n], SkillDir(scope, list[n])).Some?
  {
    hide SkillDir, Winner;
    var dir := SkillDir(scope, list[n]);
    WinnerNone(scope, list[..n], dir);
    if i :| 0 <= i < |list[..n]| && SkillDir(scope, list[..n][i]) == dir {
      assert list[..n][i] == list[i];
    }
    if i :| 0 <= i < n && SkillDir(scope, list[i]) == dir {
      assert list[..n][i] == list[i];
    }
  }

  lemma OneMoreStands(scope: Scope, list: seq<Skill>, s: Skill, beaten: bool)
    requires list != []
    ensures var n := |list| - 1;
      Stands(scope, list, s, beaten) <==> Stands(scope, list[..n], s, beaten) || (list[n] == s && Beaten(scope, list, n) == beaten)
  {
    hide Beaten;
    var n := |list| - 1;
    forall j: nat | j < n ensures list[..n][j] == list[j] && (Beaten(scope, list[..n], j) <==> Beaten(scope, list, j)) {
      SamePrefix(scope, list, n, j);
    }
  }

  /** A skill is a member where no earlier one claims its directory, and left out where one does. */
  lemma {:induction false} PlacedWhere(scope: Scope, slug: string, list: seq<Skill>, s: Skill)
    ensures s in Members(scope, list) <==> Stands(scope, list, s, false)
    ensures s in SkippedOf(Collisions(scope, slug, list)) <==> Stands(scope, list, s, true)
    decreases |list|
  {
    if list == [] {
      NoneSkipped();
    } else {
      hide SkillDir, Winner, Stands, Beaten, Members, Collisions, SkippedOf;
      var n := |list| - 1;
      PlacedWhere(scope, slug, list[..n], s);
      OneMoreStands(scope, list, s, true);
      OneMoreStands(scope, list, s, false);
      BeatenIsWinner(scope, list, n);
      LastPlaced(scope, slug, list);
    }
  }

  lemma SamePrefix(scope: Scope, list: seq<Skill>, n: nat, j: nat)
    requires j < n <= |list|
    ensures Beaten(scope, list[..n], j) <==> Beaten(scope, list, j)
  {
    hide SkillDir;
    if Beaten(scope, list, j) {
      var i :| 0 <= i < j && SkillDir(scope, list[i]) == SkillDir(scope, list[j]);
      assert list[..n][i] == list[i];
    }
  }

  /** What the last skill adds. */
  lemma LastPlaced(scope: Scope, slug: string, list: seq<Skill>)
    requires list != []
    ensures var n := |list| - 1;
      var w := Winner(scope, list[..n], SkillDir(scope, list[n]));
      && Members(scope, list) == Members(scope, list[..n]) + (if w.None? then [list[n]] else [])
      && SkippedOf(Collisions(scope, slug, list)) == SkippedOf(Collisions(scope, slug, list[..n])) + if w.Some? then [list[n]] else []
  {
    var n := |list| - 1;
    var w := Winner(scope, list[..n], SkillDir(scope, list[n]));
    if w.Some? {
      SkippedAppend(Collisions(scope, slug, list[..n]), Collision(slug, SkillDir(scope, list[n]), w.value, list[n]));
    } else {
      assert Collisions(scope, slug, list[..n]) + [] == Collisions(scope, slug, list[..n]);
    }
  }

  /** The namespace's own skills have slugs of their own. */
  predicate OwnDistinct(namespace: string, list: seq<Skill>) {
    forall i, j :: 0 <= i < j < |list| && list[i].namespaceSlug == namespace == list[j].namespaceSlug ==>
      list[i].skillSlug != list[j].skillSlug
  }

  /** A skill shared from another namespace under a directory equal to the slug. */
  predicate SharedAs(namespace: string, s: Skill, slug: string) {
    s.namespaceSlug != namespace && s.namespaceSlug + "-" + s.skillSlug == slug
  }

  /** The prefix was to keep a shared skill from ever shadowing one of the namespace's own. In any bucket
      an own skill is left out of the plugin, and reported, if and only if an earlier one is shared from a
      namespace that makes up the own slug with a dash and the shared slug. */
  lemma OwnIsShadowedIff(namespace: string, slug: string, list: seq<Skill>, j: nat)
    requires j < |list| && list[j].namespaceSlug == namespace && OwnDistinct(namespace, list)
    ensures var shadowed := exists i :: 0 <= i < j && SharedAs(namespace, list[i], list[j].skillSlug);
      && (list[j] !in Members(Namespace(namespace), list) <==> shadowed)
      && (list[j] in SkippedOf(Collisions(Namespace(namespace), slug, list)) <==> shadowed)
  {
    var scope, own := Namespace(namespace), list[j];
    PlacedWhere(scope, slug, list, own);
    assert forall k :: 0 <= k < |list| && list[k] == own ==> k == j;
    assert Stands(scope, list, own, Beaten(scope, list, j)) && !Stands(scope, list, own, !Beaten(scope, list, j));
    forall i | 0 <= i < j
      ensures SkillDir(scope, list[i]) == SkillDir(scope, own) <==> SharedAs(namespace, list[i], own.skillSlug)
    {
    }
    assert Beaten(scope, list, j) <==> exists i :: 0 <= i < j && SharedAs(namespace, list[i], own.skillSlug);
    hide Beaten, SharedAs;
  }

  /** A shared skill listed first shadows one of the namespace's own. */
  lemma SharedMayShadowOwn()
    ensures var own, shared := Skill("tools", "data-csv", []), Skill("data", "csv", []);
      own !in Members(Namespace("tools"), [shared, own])
  {
    var own, shared := Skill("tools", "data-csv", []), Skill("data", "csv", []);
    assert SharedAs("tools", [shared, own][0], own.skillSlug);
    OwnIsShadowedIff("tools", GENERAL, [shared, own], 1);
  }
}
