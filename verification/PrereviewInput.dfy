/**
 What is sent for review (`selectPrereviewInput` of packages/shared/src/ai-prereview-run.ts): the
 candidates in priority order, redacted and cut to the caps, with one coverage entry each.
 */
module PrereviewInput {
  import opened Common

  const MAX_FILES := 25
  const FILE_MAX_CHARS := 100000
  const LF := 10

  /** Text as UTF-16 units. */
  type Text = seq<nat>

  datatype Candidate = Candidate(path: string, text: Text)

  datatype SentFile = SentFile(path: string, text: Text, truncated: bool)

  datatype Status = Reviewed | Truncated | Skipped

  datatype Coverage = Coverage(path: string, status: Status)

  // ----- redaction ----------------------------------------------------------------------------

  function Lines(text: Text): (ls: seq<Text>)
    ensures ls != [] && forall i :: 0 <= i < |ls| ==> LF !in ls[i]
  {
    if text == [] then [[]]
    else
      var rest := Lines(text[1..]);
      if text[0] == LF then [[]] + rest else [[text[0]] + rest[0]] + rest[1..]
  }

  function JoinLines(ls: seq<Text>): Text
    requires ls != []
  {
    if |ls| == 1 then ls[0] else ls[0] + [LF] + JoinLines(ls[1..])
  }

  function RedactLines(ls: seq<Text>, secret: Text -> bool, mark: Text): (r: seq<Text>)
    ensures |r| == |ls| && forall i :: 0 <= i < |r| ==> r[i] == if secret(ls[i]) then mark else ls[i]
  {
    seq(|ls|, i requires 0 <= i < |ls| => if secret(ls[i]) then mark else ls[i])
  }

  /** Every secret line replaced by the mark. */
  function Redacted(text: Text, secret: Text -> bool, mark: Text): Text {
    JoinLines(RedactLines(Lines(text), secret, mark))
  }

  lemma {:induction false} LinesOfLine(line: Text, rest: Text)
    requires LF !in line
    ensures Lines(line) == [line] && Lines(line + [LF] + rest) == [line] + Lines(rest)
  {
    var t := line + [LF] + rest;
    if line == [] {
      assert t[1..] == rest;
    } else {
      assert t[1..] == line[1..] + [LF] + rest;
      LinesOfLine(line[1..], rest);
      assert [line[0]] + line[1..] == line;
    }
  }

  lemma {:induction false} LinesOfJoin(ls: seq<Text>)
    requires ls != [] && forall i :: 0 <= i < |ls| ==> LF !in ls[i]
    ensures Lines(JoinLines(ls)) == ls
  {
    if |ls| == 1 {
      LinesOfLine(ls[0], []);
    } else {
      LinesOfJoin(ls[1..]);
      LinesOfLine(ls[0], JoinLines(ls[1..]));
    }
  }

  /** No line of a redacted text is secret, and the other lines are untouched. */
  lemma RedactedHasNoSecret(text: Text, secret: Text -> bool, mark: Text)
    requires LF !in mark && !secret(mark)
    ensures var was, now := Lines(text), Lines(Redacted(text, secret, mark));
      |now| == |was| && forall i :: 0 <= i < |now| ==> !secret(now[i]) && (!secret(was[i]) ==> now[i] == was[i])
  {
    LinesOfJoin(RedactLines(Lines(text), secret, mark));
  }

  // ----- cutting ------------------------------------------------------------------------------

  predicate IsHighSurrogate(u: nat) { 0xd800 <= u <= 0xdbff }

  /** At most max units, without a high surrogate left at a cut. */
  function Cut(s: Text, max: nat): (r: Text)
    requires max > 0
    ensures r <= s && |r| <= max && (|s| <= max ==> r == s)
    ensures r != s ==> |r| >= max - 1 && (|r| == max ==> !IsHighSurrogate(r[max - 1]))
  {
    if |s| <= max then s
    else if IsHighSurrogate(s[max - 1]) then s[..max - 1]
    else s[..max]
  }

  // ----- the selection ------------------------------------------------------------------------

  function TotalUnits(files: seq<SentFile>): nat {
    if files == [] then 0 else TotalUnits(files[..|files| - 1]) + |files[|files| - 1].text|
  }

  /** What is left for the next file. */
  function Budget(files: seq<SentFile>, totalMax: int): int { Min(FILE_MAX_CHARS, totalMax - TotalUnits(files)) }

  /** The caps leave room for another file. */
  predicate HasRoom(files: seq<SentFile>, totalMax: int) {
    |files| < MAX_FILES && TotalUnits(files) < totalMax
  }

  /** A sent file is the candidate's redacted text, cut to what was left before it. */
  ghost predicate Sends(before: seq<SentFile>, f: SentFile, c: Candidate, totalMax: int, secret: Text -> bool, mark: Text)
    requires TotalUnits(before) < totalMax
  {
    var full := Redacted(c.text, secret, mark);
    f.path == c.path && f.text == Cut(full, Budget(before, totalMax)) && (f.truncated <==> f.text != full)
  }

  /** Candidate by candidate: sent while the caps leave room, else skipped. */
  ghost predicate Accounts(
    candidates: seq<Candidate>, coverage: seq<Coverage>, files: seq<SentFile>, totalMax: int, secret: Text -> bool, mark: Text)
    decreases |candidates|
  {
    && |coverage| == |candidates|
    && if candidates == [] then files == []
      else
        var n := |candidates| - 1;
        var c, v := candidates[n], coverage[n];
        && v.path == c.path
        && if v.status == Skipped then
            && Accounts(candidates[..n], coverage[..n], files, totalMax, secret, mark)
            && !HasRoom(files, totalMax)
          else
            && files != []
            && Accounts(candidates[..n], coverage[..n], files[..|files| - 1], totalMax, secret, mark)
            && HasRoom(files[..|files| - 1], totalMax)
            && Sends(files[..|files| - 1], files[|files| - 1], c, totalMax, secret, mark)
            && v.status == (if files[|files| - 1].truncated then Truncated else Reviewed)
  }

  /** Send candidates in order while the caps allow. */
  method SelectPrereviewInput(candidates: seq<Candidate>, totalMax: int, secret: Text -> bool, mark: Text)
    returns (files: seq<SentFile>, coverage: seq<Coverage>)
    ensures Accounts(candidates, coverage, files, totalMax, secret, mark)
    ensures |files| <= 25 && (TotalUnits(files) <= totalMax || files == [])
  {
    hide Redacted, Accounts, TotalUnits, Cut;
    files, coverage := [], [];
    var total := 0;
    assert candidates[..0] == [] && TotalUnits([]) == 0 by { NothingYet(totalMax, secret, mark); }
    NothingYet(totalMax, secret, mark);
    for i := 0 to |candidates|
      invariant total == TotalUnits(files) && |files| <= MAX_FILES && (total <= totalMax || files == [])
      invariant Accounts(candidates[..i], coverage, files, totalMax, secret, mark)
    {
      var c := candidates[i];
      assert candidates[..i + 1] == candidates[..i] + [c];
      var budget := Min(FILE_MAX_CHARS, totalMax - total);
      if |files| >= MAX_FILES || budget <= 0 {
        SkipsOne(candidates[..i], coverage, files, totalMax, secret, mark, c);
        coverage := coverage + [Coverage(c.path, Skipped)];
        continue;
      }
      var redacted := Redacted(c.text, secret, mark);
      var text := Cut(redacted, budget);
      var truncated := |text| < |redacted|;
      var file := SentFile(c.path, text, truncated);
      SendsOne(candidates[..i], coverage, files, totalMax, secret, mark, c, file);
      files, coverage, total :=
        files + [file], coverage + [Coverage(c.path, if truncated then Truncated else Reviewed)], total + |text|;
    }
    assert candidates[..|candidates|] == candidates;
  }

  lemma NothingYet(totalMax: int, secret: Text -> bool, mark: Text)
    ensures Accounts([], [], [], totalMax, secret, mark) && TotalUnits([]) == 0
  {
  }

  lemma SkipsOne(
      candidates: seq<Candidate>, coverage: seq<Coverage>, files: seq<SentFile>, totalMax: int, secret: Text -> bool, mark: Text, c: Candidate)
    requires Accounts(candidates, coverage, files, totalMax, secret, mark)
    requires !HasRoom(files, totalMax)
    ensures Accounts(candidates + [c], coverage + [Coverage(c.path, Skipped)], files, totalMax, secret, mark)
  {
    hide TotalUnits;
    assert (candidates + [c])[..|candidates|] == candidates;
    assert (coverage + [Coverage(c.path, Skipped)])[..|coverage|] == coverage;
  }

  lemma SendsOne(
      candidates: seq<Candidate>, coverage: seq<Coverage>, files: seq<SentFile>, totalMax: int, secret: Text -> bool, mark: Text,
      c: Candidate, f: SentFile)
    requires Accounts(candidates, coverage, files, totalMax, secret, mark) && HasRoom(files, totalMax)
    requires Sends(files, f, c, totalMax, secret, mark)
    ensures Accounts(
      candidates + [c], coverage + [Coverage(c.path, if f.truncated then Truncated else Reviewed)], files + [f], totalMax, secret, mark)
    ensures TotalUnits(files + [f]) == TotalUnits(files) + |f.text|
  {
    hide Sends, HasRoom;
    var entry := Coverage(c.path, if f.truncated then Truncated else Reviewed);
    assert (candidates + [c])[..|candidates|] == candidates;
    assert (coverage + [entry])[..|coverage|] == coverage;
    assert (files + [f])[..|files|] == files;
  }

  /** Every file sent is the start of some candidate's text in which no line is secret. */
  lemma {:induction false} NothingSecretSent(
      candidates: seq<Candidate>, coverage: seq<Coverage>, files: seq<SentFile>, totalMax: int, secret: Text -> bool, mark: Text, f: SentFile)
    returns (c: Candidate)
    requires Accounts(candidates, coverage, files, totalMax, secret, mark) && f in files && LF !in mark && !secret(mark)
    ensures c in candidates && f.path == c.path && f.text <= Redacted(c.text, secret, mark)
    ensures forall i :: 0 <= i < |Lines(Redacted(c.text, secret, mark))| ==> !secret(Lines(Redacted(c.text, secret, mark))[i])
    decreases |candidates|
  {
    hide Redacted, Lines;
    var n := |candidates| - 1;
    if coverage[n].status == Skipped {
      c := NothingSecretSent(candidates[..n], coverage[..n], files, totalMax, secret, mark, f);
    } else if f == files[|files| - 1] {
      c := candidates[n];
      RedactedHasNoSecret(c.text, secret, mark);
    } else {
      c := NothingSecretSent(candidates[..n], coverage[..n], files[..|files| - 1], totalMax, secret, mark, f);
    }
  }

  /** A candidate is skipped only when 25 files are sent or nothing is left of the total, and no text sent is longer than
      100000 units. */
  lemma {:induction false} SkipMeansFull(
      candidates: seq<Candidate>, coverage: seq<Coverage>, files: seq<SentFile>, totalMax: int, secret: Text -> bool, mark: Text)
    requires Accounts(candidates, coverage, files, totalMax, secret, mark)
    ensures (exists i :: 0 <= i < |coverage| && coverage[i].status == Skipped) ==> |files| >= 25 || TotalUnits(files) >= totalMax
    ensures forall f :: f in files ==> |f.text| <= 100000
    decreases |candidates|
  {
    hide Redacted;
    if candidates != [] {
      var n := |candidates| - 1;
      assert forall i :: 0 <= i < n ==> coverage[..n][i] == coverage[i];
      if coverage[n].status == Skipped {
        SkipMeansFull(candidates[..n], coverage[..n], files, totalMax, secret, mark);
      } else {
        var m := |files| - 1;
        SkipMeansFull(candidates[..n], coverage[..n], files[..m], totalMax, secret, mark);
        assert files == files[..m] + [files[m]];
      }
    }
  }
}
