/** Which files come through a sequence of runs, whatever the producers do: exactly those whose name no run takes. */
module Survival {
  import opened Common
  import opened Fixtures

  /** The group runs, and `f` is the name of its output's backup or rejected copy. */
  ghost predicate Takes(env: Env, entries: seq<Entry>, g: Group, f: string)
    requires GroupOf(entries, g)
  {
    Runs(env, entries, g) && (f == Backup(OutputOf(env, entries, g)) || f == Rejected(OutputOf(env, entries, g)))
  }

  ghost predicate Taken(env: Env, entries: seq<Entry>, groups: seq<Group>, f: string)
    requires Groups(entries, groups)
  {
    exists k :: 0 <= k < |groups| && Takes(env, entries, groups[k], f)
  }

  /** The group runs, writes `f`, and has `digest` on record for it. */
  ghost predicate Records(env: Env, entries: seq<Entry>, g: Group, f: string, digest: string)
    requires GroupOf(entries, g)
  {
    Runs(env, entries, g) && OutputOf(env, entries, g) == f && digest in Digests(entries, g)
  }

  /** If `f` was there it is there, with its own bytes or with recorded ones. */
  ghost predicate Kept(env: Env, before: Files, after: Files, entries: seq<Entry>, groups: seq<Group>, f: string)
    requires Groups(entries, groups)
  {
    f in before ==>
      && f in after
      && (after[f] == before[f] || exists k :: 0 <= k < |groups| && Records(env, entries, groups[k], f, env.sha(after[f])))
  }

  // ---- A name that no run takes ------------------------------------------------------------------------

  lemma StepKeeps(env: Env, s: State, g: Group, f: string)
    requires GroupOf(s.entries, g) && !Takes(env, s.entries, g, f) && f in s.files
    ensures var after := Step(env, s, g).files;
      f in after && (after[f] == s.files[f] || Records(env, s.entries, g, f, env.sha(after[f])))
  {
    hide Runs;
    hide Refusals;
    hide CountChanged;
    hide RerecordAll;
    if Touches(env, s.entries, g, f) {
      NamesApart(f);
      hide Backup;
      hide Rejected;
    } else {
      StepTouches(env, s, g, f);
    }
  }

  lemma {:induction false} RunKeeps(env: Env, s: State, groups: seq<Group>, f: string)
    requires Groups(s.entries, groups) && !Taken(env, s.entries, groups, f)
    ensures Kept(env, s.files, RunAll(env, s, groups).files, s.entries, groups, f)
    decreases |groups|
  {
    hide Runs;
    hide Step;
    hide Digests;
    if groups != [] && f in s.files {
      var init, last := groups[..|groups| - 1], groups[|groups| - 1];
      GroupsBefore(s.entries, s.entries, groups);
      assert forall k :: 0 <= k < |init| ==> init[k] == groups[k];
      RunKeeps(env, s, init, f);
      var before := RunAll(env, s, init);
      GroupsBefore(s.entries, before.entries, groups);
      SameRunsAfter(env, s.entries, before.entries, last);
      assert last == groups[|groups| - 1] && !Takes(env, s.entries, last, f);
      StepKeeps(env, before, last, f);
      assert Records(env, before.entries, last, f, env.sha(Step(env, before, last).files[f])) ==
             Records(env, s.entries, last, f, env.sha(Step(env, before, last).files[f]));
    }
  }

  lemma StepAddsOnly(env: Env, s: State, g: Group, path: string)
    requires GroupOf(s.entries, g)
    requires Runs(env, s.entries, g) ==> path != OutputOf(env, s.entries, g) && path != Rejected(OutputOf(env, s.entries, g))
    ensures path in Step(env, s, g).files ==> path in s.files
  {
    hide Runs;
    hide CountChanged;
    hide RerecordAll;
    hide Digests;
  }

  lemma {:induction false} RunAddsOnly(env: Env, s: State, groups: seq<Group>, path: string)
    requires Groups(s.entries, groups)
    requires forall k :: 0 <= k < |groups| && Runs(env, s.entries, groups[k]) ==>
      path != OutputOf(env, s.entries, groups[k]) && path != Rejected(OutputOf(env, s.entries, groups[k]))
    ensures path in RunAll(env, s, groups).files ==> path in s.files
    decreases |groups|
  {
    hide Runs;
    hide Step;
    hide Rejected;
    if groups != [] {
      var init, last := groups[..|groups| - 1], groups[|groups| - 1];
      GroupsBefore(s.entries, s.entries, groups);
      assert forall k :: 0 <= k < |init| ==> init[k] == groups[k];
      RunAddsOnly(env, s, init, path);
      var before := RunAll(env, s, init);
      GroupsBefore(s.entries, before.entries, groups);
      SameRunsAfter(env, s.entries, before.entries, last);
      StepAddsOnly(env, before, last, path);
    }
  }

  // ---- A name that some run takes ------------------------------------------------------------------------

  /** The same box, where the producers do something else. */
  function Upon(env: Env, outcome: string -> Outcome): Env {
    env.(outcome := outcome)
  }

  lemma {:induction false} CountUpon(env: Env, outcome: string -> Outcome, entries: seq<Entry>, indices: seq<nat>)
    requires Index(entries, indices)
    ensures CountOtherCommits(Upon(env, outcome), entries, indices) == CountOtherCommits(env, entries, indices)
  {
    if indices != [] {
      CountUpon(env, outcome, entries, indices[..|indices| - 1]);
    }
  }

  lemma RunsUpon(env: Env, outcome: string -> Outcome, entries: seq<Entry>, g: Group)
    requires GroupOf(entries, g)
    ensures Runs(Upon(env, outcome), entries, g) == Runs(env, entries, g)
    ensures Runs(env, entries, g) ==> OutputOf(Upon(env, outcome), entries, g) == OutputOf(env, entries, g)
  {
    CountUpon(env, outcome, entries, g.indices);
  }

  /** Nothing is in the way, and no producer starts, but for the one of `path`, which does `run`. */
  function IdleBut(path: string, run: Producer): string -> Outcome {
    (p: string) => Outcome(false, false, if p == path then run else CannotStart)
  }

  /** What a run that is not kept does to the cache. */
  lemma RejectedStep(env: Env, s: State, g: Group, run: Producer)
    requires GroupOf(s.entries, g) && !env.dryRun && !s.aborted && env.outcome(g.path) == Outcome(false, false, run)
    requires !Accepted(env, s.entries, g, run)
    ensures var t := Step(env, s, g);
      && !t.aborted && t.entries == s.entries
      && t.files == if Runs(env, s.entries, g) then Settled(s.files, OutputOf(env, s.entries, g), Written(run), false) else s.files
  {
    hide Runs;
    hide Settled;
    hide CountChanged;
    hide RerecordAll;
    hide Accepted;
  }

  ghost predicate Shorter(files: Files, f: string) {
    forall p :: p in files ==> |p| < |f|
  }

  /** One idle run over a cache that holds only `f`: if `f` is the backup's name, it is moved away. */
  lemma IdleOverBackup(files: Files, out: string, f: string, bytes: Content)
    requires files == map[f := bytes] || Shorter(files, f)
    ensures var after := Settled(files, out, None, false);
      && (Shorter(files, f) ==> Shorter(after, f))
      && (files == map[f := bytes] ==> if f == Backup(out) then Shorter(after, f) else after == files)
  {
    NamesApart(out);
    assert |out| < |Backup(out)|;
    var after := Settled(files, out, None, false);
    if files == map[f := bytes] && f != Backup(out) {
      assert after == files;
    }
  }

  lemma {:induction false} BackupIsLost(env: Env, s: State, groups: seq<Group>, f: string, bytes: Content)
    requires Groups(s.entries, groups) && !env.dryRun && !s.aborted && s.files == map[f := bytes]
    requires forall p :: env.outcome(p) == Outcome(false, false, CannotStart)
    ensures var t := RunAll(env, s, groups);
      && !t.aborted && t.entries == s.entries && (t.files == s.files || Shorter(t.files, f))
      && ((exists k :: 0 <= k < |groups| && Runs(env, s.entries, groups[k]) && f == Backup(OutputOf(env, s.entries, groups[k]))) ==>
            Shorter(t.files, f))
    decreases |groups|
  {
    hide Runs;
    hide Step;
    hide Settled;
    hide Backup;
    if groups != [] {
      var init, last := groups[..|groups| - 1], groups[|groups| - 1];
      GroupsBefore(s.entries, s.entries, groups);
      assert forall k :: 0 <= k < |init| ==> init[k] == groups[k];
      BackupIsLost(env, s, init, f, bytes);
      var before := RunAll(env, s, init);
      RejectedStep(env, before, last, CannotStart);
      if Runs(env, s.entries, last) {
        IdleOverBackup(before.files, OutputOf(env, s.entries, last), f, bytes);
      }
    }
  }

  /** One run over a cache that holds only `f`, a rejected copy's name. */
  lemma RunOverRejected(files: Files, out: string, other: string, f: string, bytes: Content, written: Option<Content>)
    requires files == map[f := bytes] && f == Rejected(other)
    ensures Settled(files, out, None, false) == files
    ensures Settled(files, other, Some(bytes), false) == files
    ensures written.Some? ==> Settled(files, other, written, false) == map[f := written.value]
  {
    NamesApart(out);
    NamesApart(other);
    LastCharacters(out);
    LastCharacters(other);
    assert f != Backup(out) && f != Backup(other);
  }

  lemma {:induction false} RejectedIsOverwritten(
    env: Env, s: State, groups: seq<Group>, j: nat, out: string, bytes: Content, wrong: Content)
    requires Groups(s.entries, groups) && !env.dryRun && !s.aborted && s.files == map[Rejected(out) := bytes]
    requires forall k :: 0 <= k < |groups| ==> env.outcome(groups[k].path) == Outcome(false, false, if k == j then Exited(0, Some(wrong)) else CannotStart)
    requires forall i :: 0 <= i < |s.entries| ==> s.entries[i].sha256 != Some(env.sha(wrong))
    requires j < |groups| ==> Runs(env, s.entries, groups[j]) && OutputOf(env, s.entries, groups[j]) == out
    ensures var t := RunAll(env, s, groups);
      !t.aborted && t.entries == s.entries && t.files == map[Rejected(out) := if j < |groups| then wrong else bytes]
    decreases |groups|
  {
    hide Runs;
    hide Step;
    hide Settled;
    hide Rejected;
    if groups != [] {
      var m := |groups| - 1;
      var init, last := groups[..m], groups[m];
      GroupsBefore(s.entries, s.entries, groups);
      assert forall k :: 0 <= k < |init| ==> init[k] == groups[k];
      RejectedIsOverwritten(env, s, init, j, out, bytes, wrong);
      var before := RunAll(env, s, init);
      NotRecorded(env, s.entries, last, wrong);
      RejectedStep(env, before, last, if m == j then Exited(0, Some(wrong)) else CannotStart);
      if Runs(env, s.entries, last) {
        RunOverRejected(before.files, OutputOf(env, s.entries, last), out, Rejected(out), if j < m then wrong else bytes, Some(wrong));
      }
    }
  }

  lemma NotRecorded(env: Env, entries: seq<Entry>, g: Group, wrong: Content)
    requires GroupOf(entries, g) && forall i :: 0 <= i < |entries| ==> entries[i].sha256 != Some(env.sha(wrong))
    ensures !Accepted(env, entries, g, Exited(0, Some(wrong))) && !Accepted(env, entries, g, CannotStart)
    ensures env.sha(wrong) !in Digests(entries, g)
  {
  }

  /** A taken name can be lost: with a cache that holds nothing else, some producers leave it gone or overwritten. */
  lemma TakenNameIsLost(env: Env, entries: seq<Entry>, groups: seq<Group>, f: string, wrong: Content)
    returns (outcome: string -> Outcome, files: Files)
    requires Groups(entries, groups) && !env.dryRun && Taken(env, entries, groups, f)
    requires forall i :: 0 <= i < |entries| ==> entries[i].sha256 != Some(env.sha(wrong))
    ensures !Kept(env, files, RunAll(Upon(env, outcome), Start(files, entries), groups).files, entries, groups, f)
  {
    hide Runs;
    hide RunAll;
    var j :| 0 <= j < |groups| && Takes(env, entries, groups[j], f);
    var out := OutputOf(env, entries, groups[j]);
    var bytes := wrong + [0];
    files := map[f := bytes];
    forall k | 0 <= k < |groups| ensures env.sha(wrong) !in Digests(entries, groups[k]) {
      NotRecorded(env, entries, groups[k], wrong);
    }
    if f == Backup(out) {
      outcome := IdleBut("", CannotStart);
      RunsUpon(env, outcome, entries, groups[j]);
      BackupIsLost(Upon(env, outcome), Start(files, entries), groups, f, bytes);
    } else {
      outcome := IdleBut(groups[j].path, Exited(0, Some(wrong)));
      RunsUpon(env, outcome, entries, groups[j]);
      RejectedIsOverwritten(Upon(env, outcome), Start(files, entries), groups, j, out, bytes, wrong);
    }
  }

  // ---- Every fixture ------------------------------------------------------------------------------------------

  /** The fixtures: what the recorded commands write, whether or not they are selected or may run here. */
  ghost function Recorded(env: Env, entries: seq<Entry>): set<string> {
    set i | 0 <= i < |entries| && env.output(entries[i].id).Some? :: env.output(entries[i].id).value
  }

  ghost predicate LeavesNoBackup(env: Env, before: Files, after: Files, entries: seq<Entry>, groups: seq<Group>)
    requires Groups(entries, groups)
  {
    forall k :: 0 <= k < |groups| && Runs(env, entries, groups[k]) && Backup(OutputOf(env, entries, groups[k])) in after ==>
      Backup(OutputOf(env, entries, groups[k])) in before
  }

  /** The run, from these files and with these producers, keeps every fixture and leaves no backup behind. */
  ghost predicate Survive(env: Env, outcome: string -> Outcome, files: Files, entries: seq<Entry>, groups: seq<Group>)
    requires Groups(entries, groups)
  {
    var after := RunAll(Upon(env, outcome), Start(files, entries), groups).files;
    && (forall f :: f in Recorded(env, entries) ==> Kept(env, files, after, entries, groups, f))
    && LeavesNoBackup(env, files, after, entries, groups)
  }

  /** No fixture bears the name of the backup or the rejected copy of an output that a run writes. */
  ghost predicate NoNameTaken(env: Env, entries: seq<Entry>, groups: seq<Group>)
    requires Groups(entries, groups)
  {
    forall f :: f in Recorded(env, entries) ==> !Taken(env, entries, groups, f)
  }

  lemma OutputIsRecorded(env: Env, entries: seq<Entry>, g: Group)
    requires GroupOf(entries, g) && Runs(env, entries, g)
    ensures OutputOf(env, entries, g) in Recorded(env, entries)
  {
  }

  lemma TakenUpon(env: Env, outcome: string -> Outcome, entries: seq<Entry>, groups: seq<Group>, f: string)
    requires Groups(entries, groups)
    ensures Taken(Upon(env, outcome), entries, groups, f) <==> Taken(env, entries, groups, f)
  {
    hide Runs;
    forall k | 0 <= k < |groups| ensures Takes(Upon(env, outcome), entries, groups[k], f) <==> Takes(env, entries, groups[k], f) {
      RunsUpon(env, outcome, entries, groups[k]);
    }
  }

  lemma KeptUpon(env: Env, outcome: string -> Outcome, before: Files, after: Files, entries: seq<Entry>, groups: seq<Group>, f: string)
    requires Groups(entries, groups)
    ensures Kept(Upon(env, outcome), before, after, entries, groups, f) <==> Kept(env, before, after, entries, groups, f)
  {
    hide Runs;
    hide Digests;
    forall k, digest | 0 <= k < |groups|
      ensures Records(Upon(env, outcome), entries, groups[k], f, digest) <==> Records(env, entries, groups[k], f, digest)
    {
      RunsUpon(env, outcome, entries, groups[k]);
    }
  }

  /**
    Whatever the producers do and wherever the run stops: every fixture that was there is
    there, with its own bytes or bytes on record for it, and no new backup is left, if no
    fixture's name is taken.
   */
  lemma FixturesSurvive(env: Env, outcome: string -> Outcome, files: Files, entries: seq<Entry>, groups: seq<Group>)
    requires Groups(entries, groups) && NoNameTaken(env, entries, groups)
    ensures Survive(env, outcome, files, entries, groups)
  {
    hide Runs;
    hide RunAll;
    hide Kept;
    hide Taken;
    var there, s := Upon(env, outcome), Start(files, entries);
    var after := RunAll(there, s, groups).files;
    forall f | f in Recorded(env, entries) ensures Kept(env, files, after, entries, groups, f) {
      TakenUpon(env, outcome, entries, groups, f);
      RunKeeps(there, s, groups, f);
      KeptUpon(env, outcome, files, after, entries, groups, f);
    }
    forall k | 0 <= k < |groups| && Runs(env, entries, groups[k]) && Backup(OutputOf(env, entries, groups[k])) in after
      ensures Backup(OutputOf(env, entries, groups[k])) in files
    {
      BackupsAreNotWritten(env, outcome, entries, groups, k);
      RunAddsOnly(there, s, groups, Backup(OutputOf(env, entries, groups[k])));
    }
  }

  lemma BackupsAreNotWritten(env: Env, outcome: string -> Outcome, entries: seq<Entry>, groups: seq<Group>, j: nat)
    requires Groups(entries, groups) && NoNameTaken(env, entries, groups) && j < |groups| && Runs(env, entries, groups[j])
    ensures forall k :: 0 <= k < |groups| && Runs(Upon(env, outcome), entries, groups[k]) ==>
      var out := OutputOf(Upon(env, outcome), entries, groups[k]);
      Backup(OutputOf(env, entries, groups[j])) != out && Backup(OutputOf(env, entries, groups[j])) != Rejected(out)
  {
    hide Runs;
    forall k | 0 <= k < |groups| && Runs(Upon(env, outcome), entries, groups[k])
      ensures var out := OutputOf(Upon(env, outcome), entries, groups[k]);
        Backup(OutputOf(env, entries, groups[j])) != out && Backup(OutputOf(env, entries, groups[j])) != Rejected(out)
    {
      RunsUpon(env, outcome, entries, groups[k]);
      OutputIsRecorded(env, entries, groups[k]);
      LastCharacters(OutputOf(env, entries, groups[j]));
      LastCharacters(OutputOf(env, entries, groups[k]));
      var f := OutputOf(env, entries, groups[k]);
      assert !Taken(env, entries, groups, f);
      assert !Takes(env, entries, groups[j], f);
    }
  }

  /**
    The exact condition: the fixtures come through all runs, from any files and with any
    producers, if and only if none bears the backup's or the rejected copy's name of an
    output that is written. It takes a content that is nowhere on record.
   */
  lemma SurviveIffNoNameTaken(env: Env, entries: seq<Entry>, groups: seq<Group>, wrong: Content)
    requires Groups(entries, groups) && !env.dryRun
    requires forall i :: 0 <= i < |entries| ==> entries[i].sha256 != Some(env.sha(wrong))
    ensures (forall outcome, files :: Survive(env, outcome, files, entries, groups)) <==> NoNameTaken(env, entries, groups)
  {
    hide Kept;
    hide Taken;
    hide LeavesNoBackup;
    if NoNameTaken(env, entries, groups) {
      forall outcome, files ensures Survive(env, outcome, files, entries, groups) {
        FixturesSurvive(env, outcome, files, entries, groups);
      }
    } else {
      var f :| f in Recorded(env, entries) && Taken(env, entries, groups, f);
      var outcome, files := TakenNameIsLost(env, entries, groups, f, wrong);
      hide RunAll;
      assert !Survive(env, outcome, files, entries, groups);
    }
  }
}
