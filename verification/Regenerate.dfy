/** The `--regenerate` command itself: selection, grouping, the file moves of each run, and the exit code. */
module Regenerate {
  import opened Common
  import opened Counts
  import opened Fixtures

  /** `--only PATH[@BOX]` and `--box BOX`. */
  datatype Selection = Selection(only: Option<(string, string)>, box: Option<string>)

  predicate Selects(sel: Selection, e: Entry) {
    && (sel.only.Some? ==> e.path == sel.only.value.0 && (sel.only.value.1 == "" || e.id.box == sel.only.value.1))
    && (sel.box.Some? ==> sel.box.value in [e.id.box] + e.id.alsoOn)
  }

  /** The numbers are selected entries before `n`, in order. */
  ghost predicate Chosen(entries: seq<Entry>, sel: Selection, n: nat, indices: seq<nat>) {
    && n <= |entries|
    && (forall j :: 0 <= j < |indices| ==> indices[j] < n && Selects(sel, entries[indices[j]]))
    && (forall i, j :: 0 <= i < j < |indices| ==> indices[i] < indices[j])
  }

  ghost predicate InSomeGroup(groups: seq<Group>, i: nat) {
    exists k :: 0 <= k < |groups| && i in groups[k].indices
  }

  /** One group per selected path, as first seen, holding the selected entries of that path in order. */
  ghost predicate GroupsOf(entries: seq<Entry>, sel: Selection, n: nat, groups: seq<Group>) {
    && n <= |entries| && Groups(entries, groups)
    && (forall k :: 0 <= k < |groups| ==> Chosen(entries, sel, n, groups[k].indices))
    && (forall i :: 0 <= i < n && Selects(sel, entries[i]) ==> InSomeGroup(groups, i))
  }

  function Place(groups: seq<Group>, path: string): (k: nat)
    ensures k <= |groups|
    ensures k < |groups| ==> groups[k].path == path
    ensures k == |groups| ==> forall j :: 0 <= j < |groups| ==> groups[j].path != path
  {
    if groups == [] then 0
    else if groups[|groups| - 1].path == path then |groups| - 1
    else
      var k := Place(groups[..|groups| - 1], path);
      if k == |groups| - 1 then |groups| else k
  }

  method SelectGroups(entries: seq<Entry>, sel: Selection) returns (groups: seq<Group>)
    ensures GroupsOf(entries, sel, |entries|, groups)
  {
    groups := [];
    for i := 0 to |entries|
      invariant GroupsOf(entries, sel, i, groups)
    {
      if Selects(sel, entries[i]) {
        var k := Place(groups, entries[i].path);
        AddToGroup(entries, sel, i, groups, k);
        if k == |groups| {
          groups := groups + [Group(entries[i].path, [i])];
        } else {
          groups := groups[k := Group(entries[i].path, groups[k].indices + [i])];
        }
      } else {
        NotSelected(entries, sel, i, groups);
      }
    }
  }

  function Added(groups: seq<Group>, k: nat, path: string, i: nat): seq<Group>
    requires k <= |groups|
  {
    if k == |groups| then groups + [Group(path, [i])] else groups[k := Group(path, groups[k].indices + [i])]
  }

  lemma OneMoreChosen(entries: seq<Entry>, sel: Selection, i: nat, path: string, indices: seq<nat>)
    requires i < |entries| && Chosen(entries, sel, i, indices) && Selects(sel, entries[i]) && entries[i].path == path
    requires indices != [] ==> GroupOf(entries, Group(path, indices))
    ensures Chosen(entries, sel, i + 1, indices + [i]) && GroupOf(entries, Group(path, indices + [i]))
  {
    hide Selects;
  }

  lemma StillChosen(entries: seq<Entry>, sel: Selection, i: nat, indices: seq<nat>)
    requires i < |entries| && Chosen(entries, sel, i, indices)
    ensures Chosen(entries, sel, i + 1, indices)
  {
    hide Selects;
  }

  lemma AddToGroup(entries: seq<Entry>, sel: Selection, i: nat, groups: seq<Group>, k: nat)
    requires i < |entries| && GroupsOf(entries, sel, i, groups) && Selects(sel, entries[i]) && k == Place(groups, entries[i].path)
    ensures GroupsOf(entries, sel, i + 1, Added(groups, k, entries[i].path, i))
  {
    hide Selects;
    hide Place;
    hide Chosen;
    hide GroupOf;
    var more := Added(groups, k, entries[i].path, i);
    forall j | 0 <= j < |more| ensures GroupOf(entries, more[j]) && Chosen(entries, sel, i + 1, more[j].indices) {
      if j == k {
        var indices := if k < |groups| then groups[k].indices else [];
        NothingChosen(entries, sel, i);
        OneMoreChosen(entries, sel, i, entries[i].path, indices);
        assert [] + [i] == [i];
      } else {
        StillChosen(entries, sel, i, more[j].indices);
      }
    }
    forall m | 0 <= m < i + 1 && Selects(sel, entries[m]) ensures InSomeGroup(more, m) {
      if m < i {
        assert InSomeGroup(groups, m);
        var j :| 0 <= j < |groups| && m in groups[j].indices;
        assert m in more[j].indices;
      } else {
        assert i in more[k].indices;
      }
    }
  }

  lemma NothingChosen(entries: seq<Entry>, sel: Selection, n: nat)
    requires n <= |entries|
    ensures Chosen(entries, sel, n, [])
  {
  }

  lemma NotSelected(entries: seq<Entry>, sel: Selection, i: nat, groups: seq<Group>)
    requires i < |entries| && GroupsOf(entries, sel, i, groups) && !Selects(sel, entries[i])
    ensures GroupsOf(entries, sel, i + 1, groups)
  {
    hide Selects;
    forall k | 0 <= k < |groups| ensures Chosen(entries, sel, i + 1, groups[k].indices) {
      StillChosen(entries, sel, i, groups[k].indices);
    }
  }

  class Run {
    var files: Files
    var entries: seq<Entry>
    /** The record as it is on disk. */
    var manifest: seq<Entry>
    var runs: nat
    var refusals: nat
    var findings: nat
    var changes: nat

    constructor (files: Files, manifest: seq<Entry>)
      ensures this.files == files && this.entries == this.manifest == manifest
      ensures runs == refusals == findings == changes == 0
    {
      this.files := files;
      this.entries, this.manifest := manifest, manifest;
      runs, refusals, findings, changes := 0, 0, 0, 0;
    }

    ghost function View(aborted: bool): State
      reads this
    {
      State(files, entries, runs, refusals, findings, changes, aborted)
    }

    /** `os.replace` */
    method Move(from: string, to: string)
      requires from in files && from != to
      modifies `files
      ensures files == old(files)[to := old(files)[from]] - {from}
    {
      files := files[to := files[from]];
      files := files - {from};
    }

    /** Undo a run: the backup becomes the fixture again, what the run wrote becomes the rejected copy. */
    method RestoreFixture(out: string)
      modifies `files
      ensures forall path :: path != out && path != Backup(out) && path != Rejected(out) ==> Lookup(files, path) == Lookup(old(files), path)
      ensures Backup(out) !in files
      ensures Lookup(files, out) == Lookup(old(files), Backup(out))
      ensures Lookup(files, Rejected(out)) == if out in old(files) then Some(old(files)[out]) else Lookup(old(files), Rejected(out))
    {
      NamesApart(out);
      if out in files {
        if Rejected(out) in files {
          files := files - {Rejected(out)};
        }
        Move(out, Rejected(out));
      }
      if Backup(out) in files {
        Move(Backup(out), out);
      }
    }

    /** Move the fixture aside, over a stale backup; either step may fail. */
    method MoveAside(out: string, outcome: Outcome) returns (stuck: bool)
      modifies `files
      ensures stuck == Aborts(old(files), out, outcome)
      ensures stuck ==> files == Stuck(old(files), out, outcome)
      ensures !stuck ==>
        && (forall path :: path != out && path != Backup(out) ==> Lookup(files, path) == Lookup(old(files), path))
        && out !in files
        && Lookup(files, Backup(out)) == if out in old(files) then Some(old(files)[out]) else Lookup(old(files), Backup(out))
    {
      NamesApart(out);
      if out in files {
        if Backup(out) in files {
          if outcome.backupStuck {
            return true;
          }
          files := files - {Backup(out)};
        }
        if outcome.fixtureStuck {
          return true;
        }
        Move(out, Backup(out));
      }
      return false;
    }

    /** A producer failure or a finding: the fixture goes back, the rejected content beside it. */
    method Reject(out: string, run: Producer, ghost before: Files)
      requires AfterProducer(before, files, out, run)
      modifies `files, `findings
      ensures findings == old(findings) + 1
      ensures files == Settled(before, out, Written(run), false)
    {
      NamesApart(out);
      findings := findings + 1;
      RestoreFixture(out);
      SettledWhenRejected(before, files, out, Written(run));
    }

    /** Keep what the producer wrote if it is on record, and re-record it; else reject it. */
    method Conclude(env: Env, g: Group, out: string, run: Producer, ghost before: Files)
      requires GroupOf(entries, g) && AfterProducer(before, files, out, run)
      modifies `files, `entries, `findings, `changes
      ensures Accepted(env, old(entries), g, run) ==>
        var content := run.written.value;
        && files == Settled(before, out, Some(content), true)
        && entries == RerecordAll(old(entries), g.indices, env.sha(content), |content|, env.today)
        && findings == old(findings) && changes == old(changes) + CountChanged(old(entries), entries, g.indices)
      ensures !Accepted(env, old(entries), g, run) ==>
        && files == Settled(before, out, Written(run), false)
        && entries == old(entries) && findings == old(findings) + 1 && changes == old(changes)
    {
      AcceptedIff(env, entries, g, run);
      hide Accepted;
      hide Settled;
      hide RerecordAll;
      hide CountChanged;
      if run.CannotStart? || run.code != 0 || out !in files {
        Reject(out, run, before);
        return;
      }
      var content := files[out];
      var actual := env.sha(content);
      if !exists i :: i in g.indices && entries[i].sha256 == Some(actual) {
        Reject(out, run, before);
        return;
      }
      NamesApart(out);
      Rerecord(g, actual, |content|, env.today);
      if Backup(out) in files {
        files := files - {Backup(out)};
      }
      SettledWhenKept(before, files, out, content);
    }

    /** Move the fixture aside, run the producer, and keep or reject what it wrote. */
    method RunProducer(env: Env, g: Group, out: string) returns (aborted: bool)
      requires GroupOf(entries, g) && Runs(env, entries, g) && out == OutputOf(env, entries, g) && !env.dryRun
      modifies `files, `entries, `runs, `findings, `changes
      ensures View(aborted) == Step(env, old(View(false)), g)
    {
      ghost var s := View(false);
      StepCases(env, s, g);
      hide Digests;
      hide GroupOf;
      hide OutputOf;
      hide Step;
      hide Runs;
      hide Settled;
      hide Stuck;
      hide Aborts;
      hide Accepted;
      hide RerecordAll;
      hide CountChanged;
      var outcome := env.outcome(g.path);
      var run := outcome.producer;
      runs := runs + 1;
      aborted := MoveAside(out, outcome);
      if aborted {
        return;
      }
      NamesApart(out);
      if run.Exited? && run.written.Some? {
        files := files[out := run.written.value];
      }
      Conclude(env, g, out, run, s.files);
    }

    /** Re-record `bytes` and `date` of the entries whose content was reproduced. */
    method Rerecord(g: Group, digest: string, size: int, today: string)
      requires GroupOf(entries, g)
      modifies `entries, `changes
      ensures entries == RerecordAll(old(entries), g.indices, digest, size, today)
      ensures changes == old(changes) + CountChanged(old(entries), entries, g.indices)
    {
      ghost var before := entries;
      ghost var goal := RerecordAll(entries, g.indices, digest, size, today);
      for k := 0 to |g.indices|
        invariant |entries| == |before|
        invariant forall i :: 0 <= i < |before| ==> entries[i] == if i in g.indices[..k] then goal[i] else before[i]
        invariant changes == old(changes) + CountChanged(before, goal, g.indices[..k])
      {
        var i := g.indices[k];
        assert g.indices[..k + 1] == g.indices[..k] + [i];
        assert i !in g.indices[..k];
        var e := entries[i];
        if e.sha256 == Some(digest) {
          var recorded := e.(bytes := Some(size), date := today);
          if e != recorded {
            entries := entries[i := recorded];
            changes := changes + 1;
          }
        }
      }
      assert g.indices[..|g.indices|] == g.indices;
      assert entries == goal;
    }

    /** The checks a group must pass before its producer runs: the refusals it earns. */
    method Refuse(env: Env, g: Group) returns (refused: nat)
      requires GroupOf(entries, g)
      ensures refused == Refusals(env, entries, g)
      ensures refused == 0 <==> MayRun(env, entries, g)
      ensures refused > 1 ==> refused == |OtherCommits(env, entries, g)|
    {
      RunsIffMayRun(env, entries, g);
      hide MayRun;
      hide OtherCommits;
      var first := entries[g.indices[0]].id;
      if env.output(first).None? {
        return 1;
      }
      if !env.rightProgram(first) {
        return 1;
      }
      if exists i :: i in g.indices && !HasDigest(entries[i]) {
        return 1;
      }
      if first.kind == Minfer {
        refused := 0;
        for k := 0 to |g.indices|
          invariant refused == CountOtherCommits(env, entries, g.indices[..k])
        {
          assert g.indices[..k + 1][..k] == g.indices[..k];
          if NamesOtherCommit(env, entries[g.indices[k]].id) {
            refused := refused + 1;
          }
        }
        assert g.indices[..|g.indices|] == g.indices;
        if refused > 0 {
          return;
        }
      }
      if first.kind == LlamaQuantize || first.kind == ConvertHfToGguf || !env.present(first) {
        return 1;
      }
      return 0;
    }

    /** One round of the loop: refuse, classify or run. */
    method RunGroup(env: Env, g: Group) returns (aborted: bool)
      requires GroupOf(entries, g)
      modifies `files, `entries, `runs, `refusals, `findings, `changes
      ensures View(aborted) == Step(env, old(View(false)), g)
    {
      StepWithoutRun(env, View(false), g);
      hide Step;
      var refused := Refuse(env, g);
      aborted := false;
      if refused > 0 {
        refusals := refusals + refused;
      } else if env.dryRun {
        runs := runs + 1;
      } else {
        aborted := RunProducer(env, g, env.output(entries[g.indices[0]].id).value);
      }
    }

    /** The loop over the groups; a fixture that cannot be moved ends it. */
    method RunGroups(env: Env, groups: seq<Group>) returns (aborted: bool)
      requires Groups(entries, groups)
      modifies `files, `entries, `runs, `refusals, `findings, `changes
      ensures View(aborted) == RunAll(env, old(View(false)), groups)
    {
      hide Step;
      hide GroupOf;
      ghost var start := View(false);
      assert RunAll(env, start, groups[..0]) == start;
      for k := 0 to |groups|
        invariant Groups(start.entries, groups[..k])
        invariant View(false) == RunAll(env, start, groups[..k])
      {
        RunAllStep(env, start, groups, k);
        aborted := RunGroup(env, groups[k]);
        if aborted {
          NothingAfterAbort(env, start, groups, k + 1);
          return;
        }
      }
      assert groups[..|groups|] == groups;
      return false;
    }

    /**
      The whole command. `wellFormed` is the check of the re-read record; the exit code is 0
      clean, 1 a finding, 2 nothing selected or a file that cannot be moved, 3 refused.
     */
    method Regenerate(env: Env, sel: Selection, strictRunnable: bool, wellFormed: seq<Entry> -> bool)
      returns (code: nat, groups: seq<Group>)
      requires runs == refusals == findings == changes == 0 && entries == manifest
      modifies this
      ensures GroupsOf(old(entries), sel, |old(entries)|, groups)
      ensures var end := RunAll(env, Start(old(files), old(entries)), groups);
        && View(end.aborted) == end
        && manifest == (if end.aborted || env.dryRun || end.changes == 0 then old(manifest) else end.entries)
        && (code == 2 <==> groups == [] || end.aborted)
        && (groups != [] && !end.aborted && env.dryRun ==> code == if strictRunnable && end.refusals > 0 then 1 else 0)
        && (groups != [] && !end.aborted && !env.dryRun ==>
              code == if (end.changes > 0 && !wellFormed(end.entries)) || end.findings > 0 then 1
                      else if end.refusals > 0 then 3 else 0)
      ensures |entries| == |old(entries)| && changes == |Changed(old(entries), entries)|
      ensures code != 2 && !env.dryRun ==>
        && manifest == entries
        && (code == 1 <==> (entries != old(entries) && !wellFormed(entries)) || !AllReproduce(env, old(entries), groups))
        && (code == 0 <==>
             && (entries == old(entries) || wellFormed(entries)) && AllReproduce(env, old(entries), groups)
             && AllMayRun(env, old(entries), groups))
    {
      groups := SelectGroups(entries, sel);
      NothingChangedIsSame(entries, entries);
      hide MayRun;
      hide AllReproduce;
      hide AllMayRun;
      hide Changed;
      if groups == [] {
        return 2, groups;
      }
      ghost var end := RunAll(env, View(false), groups);
      WhatIsCounted(env, View(false), groups);
      var aborted := RunGroups(env, groups);
      hide RunAll;
      hide GroupsOf;
      if aborted {
        return 2, groups;
      }
      if env.dryRun {
        return if strictRunnable && refusals > 0 then 1 else 0, groups;
      }
      if changes > 0 {
        manifest := entries;
        if !wellFormed(manifest) {
          return 1, groups;
        }
      }
      return if findings > 0 then 1 else if refusals > 0 then 3 else 0, groups;
    }
  }

  /** Every group that may run reproduces a content that is on record for it. */
  ghost predicate AllReproduce(env: Env, entries: seq<Entry>, groups: seq<Group>)
    requires Groups(entries, groups)
  {
    forall k :: 0 <= k < |groups| && MayRun(env, entries, groups[k]) ==> Reproduces(env, entries, groups[k])
  }

  lemma WhatIsCounted(env: Env, s: State, groups: seq<Group>)
    requires Groups(s.entries, groups) && s.runs == s.refusals == s.findings == s.changes == 0 && !s.aborted
    ensures var t := RunAll(env, s, groups);
      && t.changes == |Changed(s.entries, t.entries)| && (t.changes == 0 <==> t.entries == s.entries)
      && (!env.dryRun && !t.aborted ==>
           && (t.findings == 0 <==> AllReproduce(env, s.entries, groups))
           && (t.refusals == 0 <==> AllMayRun(env, s.entries, groups)))
  {
    hide RunAll;
    hide MayRun;
    hide Reproduces;
    var t := RunAll(env, s, groups);
    ChangesAreEntries(env, s, groups);
    NothingChangedIsSame(s.entries, t.entries);
    if !env.dryRun && !t.aborted {
      CountersAreGroups(env, s, groups);
      FailingIsNone(env, s.entries, groups);
    }
  }

  lemma RunAllStep(env: Env, s: State, groups: seq<Group>, k: nat)
    requires Groups(s.entries, groups) && k < |groups|
    ensures Groups(s.entries, groups[..k]) && Groups(s.entries, groups[..k + 1])
    ensures var before := RunAll(env, s, groups[..k]);
      GroupOf(before.entries, groups[k]) && RunAll(env, s, groups[..k + 1]) == Step(env, before, groups[k])
  {
    hide Step;
    assert groups[..k + 1][..k] == groups[..k];
    GroupsKept(s.entries, RunAll(env, s, groups[..k]).entries, groups[k]);
  }

  lemma StepWithoutRun(env: Env, s: State, g: Group)
    requires GroupOf(s.entries, g) && !s.aborted
    ensures !Runs(env, s.entries, g) ==> Step(env, s, g) == s.(refusals := s.refusals + Refusals(env, s.entries, g))
    ensures Runs(env, s.entries, g) && env.dryRun ==> Step(env, s, g) == s.(runs := s.runs + 1)
  {
    hide Refusals;
  }

  lemma {:induction false} NothingAfterAbort(env: Env, s: State, groups: seq<Group>, k: nat)
    requires Groups(s.entries, groups) && k <= |groups| && Groups(s.entries, groups[..k]) && RunAll(env, s, groups[..k]).aborted
    ensures RunAll(env, s, groups) == RunAll(env, s, groups[..k])
    decreases |groups| - k
  {
    if k < |groups| {
      RunAllStep(env, s, groups, k);
      NothingAfterAbort(env, s, groups, k + 1);
    } else {
      assert groups[..k] == groups;
    }
  }

  /** The fixture is aside and the producer has written its output path, and nothing else. */
  ghost predicate AfterProducer(before: Files, files: Files, out: string, run: Producer) {
    && (forall path :: path != out && path != Backup(out) ==> Lookup(files, path) == Lookup(before, path))
    && Lookup(files, out) == Written(run)
    && Lookup(files, Backup(out)) == if out in before then Some(before[out]) else Lookup(before, Backup(out))
  }

  lemma StepCases(env: Env, s: State, g: Group)
    requires GroupOf(s.entries, g) && Runs(env, s.entries, g) && !env.dryRun && !s.aborted
    ensures var out, outcome := OutputOf(env, s.entries, g), env.outcome(g.path);
      Step(env, s, g) ==
        if Aborts(s.files, out, outcome) then s.(files := Stuck(s.files, out, outcome), runs := s.runs + 1, aborted := true)
        else if Accepted(env, s.entries, g, outcome.producer) then
          var content := outcome.producer.written.value;
          var after := RerecordAll(s.entries, g.indices, env.sha(content), |content|, env.today);
          s.(files := Settled(s.files, out, Some(content), true), entries := after,
             runs := s.runs + 1, changes := s.changes + CountChanged(s.entries, after, g.indices))
        else s.(files := Settled(s.files, out, Written(outcome.producer), false), runs := s.runs + 1, findings := s.findings + 1)
  {
    hide Runs;
    hide Settled;
  }

  lemma AcceptedIff(env: Env, entries: seq<Entry>, g: Group, run: Producer)
    requires Index(entries, g.indices)
    ensures Accepted(env, entries, g, run) <==>
      && run.Exited? && run.code == 0 && run.written.Some?
      && exists i :: i in g.indices && entries[i].sha256 == Some(env.sha(run.written.value))
  {
  }

  /** A cache with the right content at every path is the right cache. */
  lemma SameByLookup(a: Files, b: Files)
    requires forall path :: Lookup(a, path) == Lookup(b, path)
    ensures a == b
  {
    assert forall path :: path in a <==> Lookup(a, path).Some?;
    assert forall path :: path in b <==> Lookup(b, path).Some?;
    assert forall path :: path in a ==> Lookup(a, path) == Some(a[path]);
  }

  lemma SettledWhenRejected(before: Files, after: Files, out: string, written: Option<Content>)
    requires forall path :: path != out && path != Backup(out) && path != Rejected(out) ==> Lookup(after, path) == Lookup(before, path)
    requires Backup(out) !in after
    requires Lookup(after, out) == if out in before then Some(before[out]) else Lookup(before, Backup(out))
    requires Lookup(after, Rejected(out)) == if written.Some? then written else Lookup(before, Rejected(out))
    ensures after == Settled(before, out, written, false)
  {
    NamesApart(out);
    SameByLookup(after, Settled(before, out, written, false));
  }

  lemma SettledWhenKept(before: Files, after: Files, out: string, content: Content)
    requires forall path :: path != out && path != Backup(out) ==> Lookup(after, path) == Lookup(before, path)
    requires Backup(out) !in after && Lookup(after, out) == Some(content)
    ensures after == Settled(before, out, Some(content), true)
  {
    NamesApart(out);
    SameByLookup(after, Settled(before, out, Some(content), true));
  }

  // ---- Selection ------------------------------------------------------------------------------------------------

  /**
    What is selected: with a path, entries of that path, and of that box if one is named with
    it; with a box, entries recorded on it first or also; without either, all.
   */
  lemma SelectsIff(sel: Selection, e: Entry)
    ensures Selects(sel, e) <==>
      && (match sel.only case None => true case Some((path, box)) => e.path == path && (box == "" || e.id.box == box))
      && (match sel.box case None => true case Some(box) => e.id.box == box || box in e.id.alsoOn)
  {
    if sel.box.Some? {
      assert sel.box.value in [e.id.box] + e.id.alsoOn <==> sel.box.value == e.id.box || sel.box.value in e.id.alsoOn;
    }
  }
}
