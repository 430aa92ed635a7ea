/**
 The digest's lines (`renderDigest` of packages/shared/src/email-digest.ts): rows grouped into one line
 per skill, person, or proposal, newest first, capped in section order. Every row is in one line, and
 what the cap hides is counted.
 */
module DigestLines {
  import opened Common

  const LINE_CAP := 50

  datatype Kind = Follow | ProposalOrRequest | Other

  /** A pending row: what grouping looks at. A text that is not given is empty. */
  datatype Row = Row(
    id: string, kind: Kind, at: int, actorId: string, actorName: string,
    proposalId: string, requestId: string, importId: string, namespaceSlug: string, skillSlug: string)

  datatype Section = Skills | People | Mine

  function SectionOf(r: Row): Section {
    match r.kind
    case Follow => People
    case ProposalOrRequest => Mine
    case Other => Skills
  }

  function KeyOf(r: Row): string {
    match r.kind
    case Follow => if r.actorId != "" then r.actorId else if r.actorName != "" then r.actorName else "?"
    case ProposalOrRequest =>
      if r.proposalId != "" then "p:" + r.proposalId
      else if r.requestId != "" then "r:" + r.requestId
      else if r.importId != "" then "i:" + r.importId
      else "x:" + r.id
    case Other =>
      if r.namespaceSlug != "" && r.skillSlug != "" then r.namespaceSlug + "/" + r.skillSlug else "x:" + r.id
  }

  /** What a row is about. */
  datatype Subject = Skill(namespaceSlug: string, skillSlug: string) | Person(name: string) | Proposal(proposalId: string)
    | Request(requestId: string) | Import(importId: string) | Alone(rowId: string)

  /** A followed person by id, or by name when there is no id; a proposal, request or import; or a skill. A row about
      none of them is about itself alone. */
  function SubjectOf(r: Row): Subject {
    if r.kind == Follow then Person(if r.actorId != "" then r.actorId else if r.actorName != "" then r.actorName else "?")
    else if r.kind == Other then
      if r.namespaceSlug == "" || r.skillSlug == "" then Alone(r.id) else Skill(r.namespaceSlug, r.skillSlug)
    else if r.proposalId != "" then Proposal(r.proposalId)
    else if r.requestId != "" then Request(r.requestId)
    else if r.importId != "" then Import(r.importId)
    else Alone(r.id)
  }

  /** People are those followed; proposals, requests and imports are one's own; all else is about skills. */
  lemma SubjectsBySection(r: Row)
    ensures SectionOf(r) == People <==> SubjectOf(r).Person?
    ensures SubjectOf(r).Skill? ==> SectionOf(r) == Skills
    ensures SubjectOf(r).Proposal? || SubjectOf(r).Request? || SubjectOf(r).Import? ==> SectionOf(r) == Mine
    ensures SubjectOf(r).Alone? ==> (SectionOf(r) == Mine <==> r.kind == ProposalOrRequest)
  {
  }

  /** A slug holds neither a slash nor a colon. */
  predicate SlugOk(r: Row) { '/' !in r.namespaceSlug && ':' !in r.namespaceSlug }

  /** Rows of one section share a line if and only if they are about the same subject. */
  lemma SameLineIff(r: Row, q: Row)
    requires SectionOf(r) == SectionOf(q) && SlugOk(r) && SlugOk(q)
    ensures KeyOf(r) == KeyOf(q) <==> SubjectOf(r) == SubjectOf(q)
  {
    var a, b := SubjectOf(r), SubjectOf(q);
    if a.Skill? && b.Skill? {
      SlashTells(r.namespaceSlug, r.skillSlug, q.namespaceSlug, q.skillSlug);
    } else if a.Skill? && b.Alone? {
      SlugIsNoId(r.namespaceSlug, r.skillSlug, q.id);
    } else if a.Alone? && b.Skill? {
      SlugIsNoId(q.namespaceSlug, q.skillSlug, r.id);
    } else if r.kind == ProposalOrRequest {
      PrefixTells(KeyOf(r), KeyOf(q));
    } else if a.Alone? && b.Alone? {
      PrefixTells(KeyOf(r), KeyOf(q));
    }
  }

  lemma SlashTells(a: string, b: string, c: string, d: string)
    requires '/' !in a && '/' !in c
    ensures a + "/" + b == c + "/" + d <==> a == c && b == d
  {
    var x, y := a + "/" + b, c + "/" + d;
    if x == y {
      assert x[|a|] == '/' && y[|c|] == '/';
      forall k | 0 <= k < |a| ensures x[k] != '/' {
        assert x[k] == a[k];
      }
      forall k | 0 <= k < |c| ensures y[k] != '/' {
        assert y[k] == c[k];
      }
      assert |a| == |c|;
      assert x[..|a|] == a && y[..|c|] == c && x[|a| + 1..] == b && y[|c| + 1..] == d;
    }
  }

  lemma SlugIsNoId(namespaceSlug: string, slug: string, id: string)
    requires namespaceSlug != "" && '/' !in namespaceSlug && ':' !in namespaceSlug
    ensures namespaceSlug + "/" + slug != "x:" + id
  {
    var x := namespaceSlug + "/" + slug;
    assert |namespaceSlug| >= 2 ==> x[1] == namespaceSlug[1];
    assert |namespaceSlug| == 1 ==> x[1] == '/';
    assert ("x:" + id)[1] == ':';
  }

  /** Two texts behind two characters. */
  lemma PrefixTells(x: string, y: string)
    requires |x| >= 2 && |y| >= 2
    ensures x == y <==> x[0] == y[0] && x[1] == y[1] && x[2..] == y[2..]
  {
    if x[0] == y[0] && x[1] == y[1] && x[2..] == y[2..] {
      assert x == [x[0], x[1]] + x[2..] && y == [y[0], y[1]] + y[2..];
    }
  }

  type Groups = Grouped<Row>

  /** The rows of a section and key, in order. */
  function Members(rows: seq<Row>, sec: Section, key: string): seq<Row> {
    if rows == [] then []
    else
      var last := rows[|rows| - 1];
      Members(rows[..|rows| - 1], sec, key) + if SectionOf(last) == sec && KeyOf(last) == key then [last] else []
  }

  /** How many rows a section has. */
  function SectionSize(rows: seq<Row>, sec: Section): nat {
    if rows == [] then 0
    else SectionSize(rows[..|rows| - 1], sec) + if SectionOf(rows[|rows| - 1]) == sec then 1 else 0
  }

  function RowsIn(keys: seq<string>, rows: map<string, seq<Row>>): nat {
    if keys == [] then 0
    else RowsIn(keys[..|keys| - 1], rows) + var k := keys[|keys| - 1]; if k in rows then |rows[k]| else 0
  }

  /** The listed keys are distinct, and are the keys with rows. */
  ghost predicate Listed(g: Groups) {
    && (forall i, j :: 0 <= i < j < |g.keys| ==> g.keys[i] != g.keys[j])
    && (forall k :: k in g.keys <==> k in g.lists)
  }

  /** Every key's group holds exactly that key's rows in order. */
  ghost predicate Holds(g: Groups, rows: seq<Row>, sec: Section) {
    forall k :: if k in g.lists then g.lists[k] == Members(rows, sec, k) && g.lists[k] != [] else Members(rows, sec, k) == []
  }

  /** The keys of a section's rows, in the order in which they first occur. */
  function KeysOf(rows: seq<Row>, sec: Section): seq<string> {
    if rows == [] then []
    else
      var before, last := KeysOf(rows[..|rows| - 1], sec), rows[|rows| - 1];
      if SectionOf(last) == sec && KeyOf(last) !in before then before + [KeyOf(last)] else before
  }

  /** One group for each key among the section's rows, in the order of their first rows, holding exactly that key's
      rows in order. */
  ghost predicate GroupsOf(g: Groups, rows: seq<Row>, sec: Section) {
    Listed(g) && g.keys == KeysOf(rows, sec) && Holds(g, rows, sec) && RowsIn(g.keys, g.lists) == SectionSize(rows, sec)
  }

  lemma MembersGrow(rows: seq<Row>, r: Row, sec: Section, key: string)
    ensures Members(rows + [r], sec, key) == Members(rows, sec, key) + if SectionOf(r) == sec && KeyOf(r) == key then [r] else []
    ensures SectionSize(rows + [r], sec) == SectionSize(rows, sec) + if SectionOf(r) == sec then 1 else 0
    ensures KeysOf(rows + [r], sec) ==
      if SectionOf(r) == sec && KeyOf(r) !in KeysOf(rows, sec) then KeysOf(rows, sec) + [KeyOf(r)] else KeysOf(rows, sec)
  {
    assert (rows + [r])[..|rows|] == rows;
  }

  /** A key that is not listed does not count. */
  lemma {:induction false} RowsInOthers(keys: seq<string>, rows: map<string, seq<Row>>, key: string, value: seq<Row>)
    requires key !in keys
    ensures RowsIn(keys, rows[key := value]) == RowsIn(keys, rows)
  {
    if keys != [] {
      RowsInOthers(keys[..|keys| - 1], rows, key, value);
    }
  }

  /** Extending one listed group counts one row more. */
  lemma {:induction false} RowsInOne(keys: seq<string>, rows: map<string, seq<Row>>, key: string, r: Row)
    requires (forall i, j :: 0 <= i < j < |keys| ==> keys[i] != keys[j]) && key in keys && key in rows
    ensures RowsIn(keys, rows[key := rows[key] + [r]]) == RowsIn(keys, rows) + 1
  {
    var n := |keys| - 1;
    if keys[n] == key {
      RowsInOthers(keys[..n], rows, key, rows[key] + [r]);
    } else {
      RowsInOne(keys[..n], rows, key, r);
    }
  }

  lemma PushedCount(g: Groups, key: string, r: Row)
    requires Listed(g)
    ensures Listed(Pushed(g, key, r))
    ensures RowsIn(Pushed(g, key, r).keys, Pushed(g, key, r).lists) == RowsIn(g.keys, g.lists) + 1
  {
    if key in g.lists {
      RowsInOne(g.keys, g.lists, key, r);
    } else {
      RowsInOthers(g.keys, g.lists, key, [r]);
      assert (g.keys + [key])[..|g.keys|] == g.keys;
    }
  }

  lemma PushedHolds(g: Groups, rows: seq<Row>, sec: Section, r: Row)
    requires Holds(g, rows, sec) && SectionOf(r) == sec
    ensures Holds(Pushed(g, KeyOf(r), r), rows + [r], sec)
  {
    hide KeyOf, SectionOf, Members, SectionSize;
    var g' := Pushed(g, KeyOf(r), r);
    forall k
      ensures if k in g'.lists then g'.lists[k] == Members(rows + [r], sec, k) && g'.lists[k] != [] else Members(rows + [r], sec, k) == []
    {
      MembersGrow(rows, r, sec, k);
    }
  }

  lemma OtherHolds(g: Groups, rows: seq<Row>, sec: Section, r: Row)
    requires Holds(g, rows, sec) && SectionOf(r) != sec
    ensures Holds(g, rows + [r], sec)
  {
    hide KeyOf, SectionOf, Members, SectionSize;
    forall k
      ensures if k in g.lists then g.lists[k] == Members(rows + [r], sec, k) && g.lists[k] != [] else Members(rows + [r], sec, k) == []
    {
      MembersGrow(rows, r, sec, k);
    }
  }

  /** Group one more row. */
  method PushRow(g: Groups, ghost rows: seq<Row>, sec: Section, r: Row) returns (g': Groups)
    requires GroupsOf(g, rows, sec)
    ensures GroupsOf(g', rows + [r], sec)
  {
    hide Holds, KeyOf, SectionOf, Members, SectionSize, KeysOf, RowsIn;
    MembersGrow(rows, r, sec, "");
    if SectionOf(r) == sec {
      assert KeyOf(r) in g.keys <==> KeyOf(r) in g.lists;
      PushedCount(g, KeyOf(r), r);
      PushedHolds(g, rows, sec, r);
      g' := Pushed(g, KeyOf(r), r);
    } else {
      OtherHolds(g, rows, sec, r);
      g' := g;
    }
  }

  lemma {:induction false} SectionsAddUp(rows: seq<Row>)
    ensures SectionSize(rows, Skills) + SectionSize(rows, People) + SectionSize(rows, Mine) == |rows|
  {
    if rows != [] {
      SectionsAddUp(rows[..|rows| - 1]);
    }
  }

  function NoGroups(ghost sec: Section): (g: Groups)
    ensures GroupsOf(g, [], sec)
  {
    Grouped([], map[])
  }

  /** Group the rows into the three sections. */
  method GroupRows(rows: seq<Row>) returns (skills: Groups, people: Groups, mine: Groups)
    ensures GroupsOf(skills, rows, Skills) && GroupsOf(people, rows, People) && GroupsOf(mine, rows, Mine)
    ensures RowsIn(skills.keys, skills.lists) + RowsIn(people.keys, people.lists) + RowsIn(mine.keys, mine.lists) == |rows|
  {
    hide Members, SectionSize, Holds, Listed, KeysOf;
    skills, people, mine := NoGroups(Skills), NoGroups(People), NoGroups(Mine);
    for i := 0 to |rows|
      invariant GroupsOf(skills, rows[..i], Skills) && GroupsOf(people, rows[..i], People) && GroupsOf(mine, rows[..i], Mine)
    {
      hide GroupsOf;
      assert rows[..i + 1] == rows[..i] + [rows[i]];
      skills := PushRow(skills, rows[..i], Skills, rows[i]);
      people := PushRow(people, rows[..i], People, rows[i]);
      mine := PushRow(mine, rows[..i], Mine, rows[i]);
    }
    assert rows[..|rows|] == rows;
    SectionsAddUp(rows);
  }

  // ----- lines --------------------------------------------------------------------------------

  /** One line: its key, the time of its newest row, and how many rows it stands for. */
  datatype Line = Line(key: string, at: int, rows: nat)

  function RowsOfLines(lines: seq<Line>): nat {
    if lines == [] then 0 else lines[0].rows + RowsOfLines(lines[1..])
  }

  /** A group's line; its last row is its newest. */
  function LineOf(key: string, rows: seq<Row>): Line
    requires rows != []
  {
    Line(key, rows[|rows| - 1].at, |rows|)
  }

  /** Every line stands for all the rows of its key and has the time of the last of them. */
  ghost predicate Stands(lines: seq<Line>, rows: seq<Row>, sec: Section) {
    forall l :: l in lines ==>
      var own := Members(rows, sec, l.key);
      own != [] && l.rows == |own| && l.at == own[|own| - 1].at
  }

  /** A section's lines, one a group. */
  method LinesOf(g: Groups, ghost rows: seq<Row>, ghost sec: Section) returns (lines: seq<Line>)
    requires GroupsOf(g, rows, sec)
    ensures |lines| == |g.keys| && RowsOfLines(lines) == SectionSize(rows, sec) && Stands(lines, rows, sec)
    ensures forall i :: 0 <= i < |lines| ==>
      g.keys[i] in g.lists && g.lists[g.keys[i]] != [] && lines[i] == LineOf(g.keys[i], g.lists[g.keys[i]])
  {
    hide Members, SectionSize, RowsIn, RowsOfLines, GroupsOf, Stands;
    assert RowsIn(g.keys, g.lists) == SectionSize(rows, sec) by { GroupsSize(g, rows, sec); }
    lines := [];
    assert RowsOfLines([]) == RowsIn([], g.lists) by { NoLines(g.lists); }
    for i := 0 to |g.keys|
      invariant |lines| == i && RowsOfLines(lines) == RowsIn(g.keys[..i], g.lists)
      invariant forall j :: 0 <= j < i ==>
        g.keys[j] in g.lists && g.lists[g.keys[j]] != [] && lines[j] == LineOf(g.keys[j], g.lists[g.keys[j]])
    {
      KeyHolds(g, rows, sec, i);
      var line := LineOf(g.keys[i], g.lists[g.keys[i]]);
      LinesStep(lines, line, g.keys, i, g.lists);
      lines := lines + [line];
    }
    assert g.keys[..|g.keys|] == g.keys;
    LinesStand(g, rows, sec, lines);
  }

  lemma GroupsSize(g: Groups, rows: seq<Row>, sec: Section)
    requires GroupsOf(g, rows, sec)
    ensures RowsIn(g.keys, g.lists) == SectionSize(rows, sec)
  {
  }

  lemma KeyHolds(g: Groups, rows: seq<Row>, sec: Section, i: nat)
    requires GroupsOf(g, rows, sec) && i < |g.keys|
    ensures g.keys[i] in g.lists && g.lists[g.keys[i]] == Members(rows, sec, g.keys[i]) && g.lists[g.keys[i]] != []
  {
    hide Members, KeysOf, RowsIn, SectionSize;
    assert g.keys[i] in g.keys;
  }

  lemma LinesStand(g: Groups, rows: seq<Row>, sec: Section, lines: seq<Line>)
    requires GroupsOf(g, rows, sec) && |lines| == |g.keys|
    requires forall i :: 0 <= i < |lines| ==>
      g.keys[i] in g.lists && g.lists[g.keys[i]] != [] && lines[i] == LineOf(g.keys[i], g.lists[g.keys[i]])
    ensures Stands(lines, rows, sec)
  {
    hide Members, GroupsOf;
    forall l | l in lines
      ensures var own := Members(rows, sec, l.key); own != [] && l.rows == |own| && l.at == own[|own| - 1].at
    {
      var i :| 0 <= i < |lines| && lines[i] == l;
      KeyHolds(g, rows, sec, i);
    }
  }

  lemma NoLines(rows: map<string, seq<Row>>)
    ensures RowsOfLines([]) == RowsIn([], rows)
  {
  }

  lemma LinesStep(lines: seq<Line>, line: Line, keys: seq<string>, i: nat, rows: map<string, seq<Row>>)
    requires i < |keys| && keys[i] in rows && line.rows == |rows[keys[i]]|
    ensures RowsOfLines(lines + [line]) == RowsOfLines(lines) + line.rows
    ensures RowsIn(keys[..i + 1], rows) == RowsIn(keys[..i], rows) + line.rows
  {
    LinesAppend(lines, [line]);
    assert [line][1..] == [];
    assert keys[..i + 1][..i] == keys[..i];
  }

  lemma {:induction false} LinesAppend(a: seq<Line>, b: seq<Line>)
    ensures RowsOfLines(a + b) == RowsOfLines(a) + RowsOfLines(b)
  {
    if a == [] {
      assert a + b == b;
    } else {
      assert (a + b)[1..] == a[1..] + b;
      LinesAppend(a[1..], b);
    }
  }

  predicate NewestFirst(lines: seq<Line>) {
    forall i, j :: 0 <= i < j < |lines| ==> lines[i].at >= lines[j].at
  }

  /** Put a line behind those at least as new. */
  function Inserted(lines: seq<Line>, line: Line): seq<Line> {
    if lines == [] then [line]
    else if lines[0].at < line.at then [line] + lines
    else [lines[0]] + Inserted(lines[1..], line)
  }

  /** The stable sort of a section's lines. */
  function Sorted(lines: seq<Line>): seq<Line> {
    if lines == [] then [] else Inserted(Sorted(lines[..|lines| - 1]), lines[|lines| - 1])
  }

  lemma {:induction false} InsertedSums(lines: seq<Line>, line: Line)
    ensures multiset(Inserted(lines, line)) == multiset(lines) + multiset{line}
    ensures RowsOfLines(Inserted(lines, line)) == RowsOfLines(lines) + line.rows
    ensures |Inserted(lines, line)| == |lines| + 1
  {
    if lines != [] {
      assert lines == [lines[0]] + lines[1..];
      if lines[0].at < line.at {
        assert ([line] + lines)[1..] == lines;
      } else {
        var rest := Inserted(lines[1..], line);
        InsertedSums(lines[1..], line);
        assert ([lines[0]] + rest)[1..] == rest;
      }
    }
  }

  lemma {:induction false} InsertedOrdered(lines: seq<Line>, line: Line)
    requires NewestFirst(lines)
    ensures NewestFirst(Inserted(lines, line))
  {
    if lines != [] && lines[0].at >= line.at {
      var rest := Inserted(lines[1..], line);
      InsertedOrdered(lines[1..], line);
      InsertedSums(lines[1..], line);
      forall j | 0 <= j < |rest| ensures rest[j].at <= lines[0].at {
        assert rest[j] in multiset(rest);
        assert rest[j] == line || rest[j] in lines[1..];
      }
    }
  }

  lemma {:induction false} SortedLines(lines: seq<Line>)
    ensures multiset(Sorted(lines)) == multiset(lines) && |Sorted(lines)| == |lines| && NewestFirst(Sorted(lines))
    ensures RowsOfLines(Sorted(lines)) == RowsOfLines(lines)
  {
    hide NewestFirst, Inserted, RowsOfLines;
    if lines != [] {
      var n := |lines| - 1;
      SortedLines(lines[..n]);
      InsertedSums(Sorted(lines[..n]), lines[n]);
      InsertedOrdered(Sorted(lines[..n]), lines[n]);
      assert lines == lines[..n] + [lines[n]];
      LinesAppend(lines[..n], [lines[n]]);
      OneLine(lines[n]);
    } else {
      NothingOrdered();
    }
  }

  lemma OneLine(line: Line)
    ensures RowsOfLines([line]) == line.rows
  {
    assert [line][1..] == [];
  }

  /** The lines of one time. */
  function OfTime(lines: seq<Line>, at: int): seq<Line> {
    if lines == [] then [] else (if lines[0].at == at then [lines[0]] else []) + OfTime(lines[1..], at)
  }

  lemma {:induction false} OfTimeAppend(a: seq<Line>, b: seq<Line>, at: int)
    ensures OfTime(a + b, at) == OfTime(a, at) + OfTime(b, at)
  {
    if a == [] {
      assert a + b == b;
    } else {
      assert (a + b)[0] == a[0] && (a + b)[1..] == a[1..] + b;
      OfTimeAppend(a[1..], b, at);
      Regroup(if a[0].at == at then [a[0]] else [], OfTime(a[1..], at), OfTime(b, at));
    }
  }

  lemma Regroup(a: seq<Line>, b: seq<Line>, c: seq<Line>)
    ensures a + b + c == a + (b + c)
  {
  }

  lemma {:induction false} InsertedBehind(lines: seq<Line>, line: Line, at: int)
    requires NewestFirst(lines)
    ensures OfTime(Inserted(lines, line), at) == OfTime(lines, at) + if line.at == at then [line] else []
  {
    if lines != [] {
      if lines[0].at < line.at {
        assert ([line] + lines)[1..] == lines;
        if line.at == at {
          NoneOfTime(lines, at);
        }
      } else {
        InsertedBehind(lines[1..], line, at);
        assert ([lines[0]] + Inserted(lines[1..], line))[1..] == Inserted(lines[1..], line);
      }
    }
  }

  lemma {:induction false} NoneOfTime(lines: seq<Line>, at: int)
    requires forall i :: 0 <= i < |lines| ==> lines[i].at < at
    ensures OfTime(lines, at) == []
  {
    if lines != [] {
      NoneOfTime(lines[1..], at);
    }
  }

  /** Lines of the same time stay in their order. */
  lemma {:induction false} SortedStable(lines: seq<Line>, at: int)
    ensures OfTime(Sorted(lines), at) == OfTime(lines, at)
  {
    hide NewestFirst;
    if lines != [] {
      var n := |lines| - 1;
      SortedStable(lines[..n], at);
      SortedLines(lines[..n]);
      InsertedBehind(Sorted(lines[..n]), lines[n], at);
      OfTimeAppend(lines[..n], [lines[n]], at);
      assert lines == lines[..n] + [lines[n]] && [lines[n]][1..] == [];
    }
  }

  lemma NothingOrdered()
    ensures NewestFirst([])
  {
  }

  // ----- the cap ------------------------------------------------------------------------------

  function LineCount(sections: seq<seq<Line>>): nat {
    if sections == [] then 0 else LineCount(sections[..|sections| - 1]) + |sections[|sections| - 1]|
  }

  function RowTotal(sections: seq<seq<Line>>): nat {
    if sections == [] then 0 else RowTotal(sections[..|sections| - 1]) + RowsOfLines(sections[|sections| - 1])
  }

  /** Each section keeps its first lines. */
  predicate KeepsFirst(shown: seq<seq<Line>>, sections: seq<seq<Line>>) {
    |shown| <= |sections| && forall i :: 0 <= i < |shown| ==> shown[i] <= sections[i]
  }

  lemma OneSectionMore(sections: seq<seq<Line>>, lines: seq<Line>)
    ensures LineCount(sections + [lines]) == LineCount(sections) + |lines|
    ensures RowTotal(sections + [lines]) == RowTotal(sections) + RowsOfLines(lines)
  {
    assert (sections + [lines])[..|sections|] == sections;
  }

  /** Fill the cap in section order and count the rows past it. */
  method Cap(sections: seq<seq<Line>>) returns (shown: seq<seq<Line>>, overflow: nat)
    ensures |shown| == |sections| && KeepsFirst(shown, sections)
    ensures LineCount(shown) == Min(50, LineCount(sections))
    ensures RowTotal(shown) + overflow == RowTotal(sections)
    ensures forall i, j :: 0 <= i < j < |sections| && shown[j] != [] ==> shown[i] == sections[i]
  {
    hide LineCount, RowTotal, RowsOfLines;
    shown, overflow := [], 0;
    var budget := LINE_CAP;
    assert LineCount([]) == 0 && RowTotal([]) == 0 by { NoSections(); }
    for s := 0 to |sections|
      invariant |shown| == s && KeepsFirst(shown, sections)
      invariant LineCount(shown) == Min(LINE_CAP, LineCount(sections[..s])) && budget == LINE_CAP - LineCount(shown)
      invariant RowTotal(shown) + overflow == RowTotal(sections[..s])
      invariant forall i, j :: 0 <= i < j < s && shown[j] != [] ==> shown[i] == sections[i]
      invariant budget > 0 ==> forall i :: 0 <= i < s ==> shown[i] == sections[i]
    {
      var lines := sections[s];
      var k := if budget < |lines| then budget else |lines|;
      assert lines == lines[..k] + lines[k..];
      LinesAppend(lines[..k], lines[k..]);
      assert sections[..s + 1] == sections[..s] + [lines];
      OneSectionMore(sections[..s], lines);
      OneSectionMore(shown, lines[..k]);
      var rest := CountRows(lines[k..]);
      shown, overflow, budget := shown + [lines[..k]], overflow + rest, budget - k;
    }
    assert sections[..|sections|] == sections;
  }

  lemma NoSections()
    ensures LineCount([]) == 0 && RowTotal([]) == 0
  {
  }

  method CountRows(lines: seq<Line>) returns (n: nat)
    ensures n == RowsOfLines(lines)
  {
    n := 0;
    for i := 0 to |lines|
      invariant n + RowsOfLines(lines[i..]) == RowsOfLines(lines)
    {
      assert lines[i..][0] == lines[i] && lines[i..][1..] == lines[i + 1..];
      n := n + lines[i].rows;
    }
  }

  lemma SortedStands(lines: seq<Line>, rows: seq<Row>, sec: Section)
    requires Stands(lines, rows, sec)
    ensures Stands(Sorted(lines), rows, sec)
  {
    hide Sorted, Members;
    SortedLines(lines);
    forall l | l in Sorted(lines) ensures l in lines {
      assert l in multiset(Sorted(lines));
      assert l in multiset(lines);
    }
  }

  /** What is shown of a section is still newest first, and each line still stands for its key's rows. */
  lemma ShownStands(shown: seq<Line>, lines: seq<Line>, rows: seq<Row>, sec: Section)
    requires shown <= lines && NewestFirst(lines) && Stands(lines, rows, sec)
    ensures NewestFirst(shown) && Stands(shown, rows, sec)
  {
    forall l | l in shown ensures l in lines {
      var i :| 0 <= i < |shown| && shown[i] == l;
      assert lines[i] == l;
    }
  }

  /** The digest, from its rows oldest first: every row is in a line shown or counted past the cap. */
  method RenderDigest(rows: seq<Row>) returns (shown: seq<seq<Line>>, overflow: nat)
    ensures RowTotal(shown) + overflow == |rows|
    ensures |shown| == 3 && LineCount(shown) <= 50 && (overflow > 0 ==> LineCount(shown) == 50)
    ensures NewestFirst(shown[0]) && NewestFirst(shown[1]) && NewestFirst(shown[2])
    ensures Stands(shown[0], rows, Skills) && Stands(shown[1], rows, People) && Stands(shown[2], rows, Mine)
  {
    hide Sorted, Members, GroupsOf, SectionSize;
    var skills, people, mine := GroupRows(rows);
    var a := LinesOf(skills, rows, Skills);
    var b := LinesOf(people, rows, People);
    var c := LinesOf(mine, rows, Mine);
    SortedStands(a, rows, Skills);
    SortedStands(b, rows, People);
    SortedStands(c, rows, Mine);
    SectionsAddUp(rows);
    SortedLines(a);
    SortedLines(b);
    SortedLines(c);
    var sections := [Sorted(a), Sorted(b), Sorted(c)];
    ThreeTotal(sections);
    shown, overflow := Cap(sections);
    ShownStands(shown[0], sections[0], rows, Skills);
    ShownStands(shown[1], sections[1], rows, People);
    ShownStands(shown[2], sections[2], rows, Mine);
    AllShown(shown, sections);
  }

  lemma ThreeTotal(sections: seq<seq<Line>>)
    requires |sections| == 3
    ensures RowTotal(sections) == RowsOfLines(sections[0]) + RowsOfLines(sections[1]) + RowsOfLines(sections[2])
  {
    assert RowTotal(sections[..2]) == RowTotal(sections[..2][..1]) + RowsOfLines(sections[1]);
    assert RowTotal(sections[..2][..1]) == RowTotal([]) + RowsOfLines(sections[0]);
  }

  /** When all lines fit, nothing is hidden. */
  lemma {:induction false} AllShown(shown: seq<seq<Line>>, sections: seq<seq<Line>>)
    requires |shown| == |sections| && KeepsFirst(shown, sections)
    ensures LineCount(shown) <= LineCount(sections)
    ensures LineCount(shown) == LineCount(sections) ==> RowTotal(shown) == RowTotal(sections)
  {
    if shown != [] {
      var n := |shown| - 1;
      AllShown(shown[..n], sections[..n]);
      assert shown[n] <= sections[n];
      assert |shown[n]| == |sections[n]| ==> shown[n] == sections[n];
    }
  }
}
