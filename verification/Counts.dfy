/** What the counters of a regeneration count: entries that changed, runs, and runs that reproduced nothing on record. */
module Counts {
  import opened Common
  import opened Fixtures

  /** The entries that are not what they were. */
  ghost function Changed(before: seq<Entry>, after: seq<Entry>): set<nat>
    requires |before| == |after|
  {
    set i | 0 <= i < |before| && before[i] != after[i]
  }

  /** The producer succeeded and wrote a content that a selected entry records. */
  ghost predicate Reproduces(env: Env, entries: seq<Entry>, g: Group)
    requires Index(entries, g.indices)
  {
    var run := env.outcome(g.path).producer;
    && run.Exited? && run.code == 0 && run.written.Some?
    && exists i :: i in g.indices && entries[i].sha256 == Some(env.sha(run.written.value))
  }

  // ---- Changes -----------------------------------------------------------------------------------------

  ghost function ChangedAmong(before: seq<Entry>, after: seq<Entry>, indices: seq<nat>): set<nat>
    requires |before| == |after| && Index(before, indices)
  {
    set i | i in indices && before[i] != after[i]
  }

  lemma OneMoreChanged(before: seq<Entry>, after: seq<Entry>, indices: seq<nat>, last: nat)
    requires |before| == |after| && Index(before, indices) && last < |before|
    ensures Index(before, indices + [last]) && ChangedAmong(before, after, indices + [last]) ==
      ChangedAmong(before, after, indices) + if before[last] != after[last] then {last} else {}
  {
  }

  lemma {:induction false} CountIsSize(before: seq<Entry>, after: seq<Entry>, indices: seq<nat>)
    requires |before| == |after| && Index(before, indices) && NoDuplicates(indices)
    ensures CountChanged(before, after, indices) == |ChangedAmong(before, after, indices)|
    decreases |indices|
  {
    if indices != [] {
      var init, last := indices[..|indices| - 1], indices[|indices| - 1];
      assert indices == init + [last];
      CountIsSize(before, after, init);
      OneMoreChanged(before, after, init, last);
      assert last !in ChangedAmong(before, after, init);
      hide ChangedAmong;
    }
  }

  lemma StepChanges(env: Env, s: State, g: Group)
    requires GroupOf(s.entries, g)
    ensures var t := Step(env, s, g);
      && t.changes == s.changes + |Changed(s.entries, t.entries)|
      && forall i :: i in Changed(s.entries, t.entries) ==> i in g.indices
  {
    hide Runs;
    hide Accepted;
    hide Settled;
    var t := Step(env, s, g);
    CountIsSize(s.entries, t.entries, g.indices);
    hide CountChanged;
    if t.entries == s.entries {
      assert Changed(s.entries, t.entries) == {};
    }
    assert Changed(s.entries, t.entries) == ChangedAmong(s.entries, t.entries, g.indices);
  }

  /** A group's entries are in no other group. */
  lemma IndicesAreApart(entries: seq<Entry>, groups: seq<Group>, k: nat, i: nat)
    requires Groups(entries, groups) && k < |groups| - 1 && i in groups[k].indices
    ensures i !in groups[|groups| - 1].indices
  {
  }

  ghost predicate InGroups(groups: seq<Group>, i: nat) {
    exists k :: 0 <= k < |groups| && i in groups[k].indices
  }

  /** The counter of changes is the number of entries that a run leaves other than it found them. */
  lemma {:induction false} ChangesAreEntries(env: Env, s: State, groups: seq<Group>)
    requires Groups(s.entries, groups)
    ensures var t := RunAll(env, s, groups);
      && t.changes == s.changes + |Changed(s.entries, t.entries)|
      && forall i :: i in Changed(s.entries, t.entries) ==> InGroups(groups, i)
    decreases |groups|
  {
    hide Step;
    if groups == [] {
      assert Changed(s.entries, s.entries) == {};
    } else {
      var init, last := groups[..|groups| - 1], groups[|groups| - 1];
      GroupsBefore(s.entries, s.entries, groups);
      ChangesAreEntries(env, s, init);
      var before := RunAll(env, s, init);
      GroupsBefore(s.entries, before.entries, groups);
      StepChanges(env, before, last);
      forall i | i in Changed(s.entries, before.entries) ensures i !in last.indices && InGroups(groups, i) {
        var k :| 0 <= k < |init| && i in init[k].indices;
        assert init[k] == groups[k];
        IndicesAreApart(s.entries, groups, k, i);
      }
      forall i | i in last.indices ensures InGroups(groups, i) {
        assert groups[|groups| - 1] == last;
      }
      var t := Step(env, before, last);
      ChangesAdd(s.entries, before.entries, t.entries);
    }
  }

  lemma ChangesAdd(a: seq<Entry>, b: seq<Entry>, c: seq<Entry>)
    requires |a| == |b| == |c| && Changed(a, b) !! Changed(b, c)
    ensures Changed(a, c) == Changed(a, b) + Changed(b, c) && |Changed(a, c)| == |Changed(a, b)| + |Changed(b, c)|
  {
  }

  lemma NothingChangedIsSame(before: seq<Entry>, after: seq<Entry>)
    requires |before| == |after|
    ensures |Changed(before, after)| == 0 <==> before == after
  {
    if Changed(before, after) == {} {
      forall i | 0 <= i < |before| ensures before[i] == after[i] {
        assert i !in Changed(before, after);
      }
    } else {
      var i :| i in Changed(before, after);
    }
  }

  // ---- Runs, findings and refusals ------------------------------------------------------------------------

  lemma AcceptedIsReproduced(env: Env, entries: seq<Entry>, g: Group)
    requires Index(entries, g.indices)
    ensures Accepted(env, entries, g, env.outcome(g.path).producer) <==> Reproduces(env, entries, g)
  {
  }

  /** One run that is not stopped, by what its group asks and its producer does. */
  lemma StepCounts(env: Env, s: State, g: Group)
    requires GroupOf(s.entries, g) && !env.dryRun && !s.aborted && !Step(env, s, g).aborted
    ensures var t := Step(env, s, g);
      && t.runs == s.runs + (if MayRun(env, s.entries, g) then 1 else 0)
      && t.findings == s.findings + (if MayRun(env, s.entries, g) && !Reproduces(env, s.entries, g) then 1 else 0)
      && t.refusals >= s.refusals && (t.refusals == s.refusals <==> MayRun(env, s.entries, g))
  {
    RunsIffMayRun(env, s.entries, g);
    AcceptedIsReproduced(env, s.entries, g);
    hide MayRun;
    hide Reproduces;
    hide Accepted;
    hide Settled;
    hide RerecordAll;
    hide CountChanged;
  }

  /** The run stops where a fixture is there and it, or an old backup of it, cannot be moved. */
  lemma StepStops(env: Env, s: State, g: Group)
    requires GroupOf(s.entries, g) && !s.aborted
    ensures Step(env, s, g).aborted <==>
      && !env.dryRun && MayRun(env, s.entries, g)
      && var out, outcome := env.output(s.entries[g.indices[0]].id).value, env.outcome(g.path);
        out in s.files && (outcome.fixtureStuck || (outcome.backupStuck && out + ".regen-before" in s.files))
  {
    RunsIffMayRun(env, s.entries, g);
    hide Accepted;
    hide Settled;
    hide RerecordAll;
    hide CountChanged;
    hide Refusals;
    if MayRun(env, s.entries, g) {
      assert OutputOf(env, s.entries, g) == env.output(s.entries[g.indices[0]].id).value;
    }
  }

  lemma MayRunAfter(env: Env, entries: seq<Entry>, after: seq<Entry>, g: Group)
    requires GroupOf(entries, g) && SameRecord(entries, after)
    ensures MayRun(env, after, g) <==> MayRun(env, entries, g)
    ensures Reproduces(env, after, g) <==> Reproduces(env, entries, g)
  {
    assert forall i :: i in g.indices ==> after[i].sha256 == entries[i].sha256 && after[i].id == entries[i].id;
  }

  ghost function Running(env: Env, entries: seq<Entry>, groups: seq<Group>): set<nat>
    requires Groups(entries, groups)
  {
    set k | 0 <= k < |groups| && MayRun(env, entries, groups[k])
  }

  ghost function Failing(env: Env, entries: seq<Entry>, groups: seq<Group>): set<nat>
    requires Groups(entries, groups)
  {
    set k | 0 <= k < |groups| && MayRun(env, entries, groups[k]) && !Reproduces(env, entries, groups[k])
  }

  ghost predicate AllMayRun(env: Env, entries: seq<Entry>, groups: seq<Group>)
    requires Groups(entries, groups)
  {
    forall k :: 0 <= k < |groups| ==> MayRun(env, entries, groups[k])
  }

  lemma OneMoreGroup(env: Env, entries: seq<Entry>, groups: seq<Group>)
    requires Groups(entries, groups) && groups != []
    ensures var m := |groups| - 1;
      && Groups(entries, groups[..m])
      && Running(env, entries, groups) == Running(env, entries, groups[..m]) + (if MayRun(env, entries, groups[m]) then {m} else {})
      && Failing(env, entries, groups) == Failing(env, entries, groups[..m])
           + (if MayRun(env, entries, groups[m]) && !Reproduces(env, entries, groups[m]) then {m} else {})
      && (AllMayRun(env, entries, groups) <==> AllMayRun(env, entries, groups[..m]) && MayRun(env, entries, groups[m]))
      && m !in Running(env, entries, groups[..m]) && m !in Failing(env, entries, groups[..m])
  {
    hide MayRun;
    hide Reproduces;
    GroupsBefore(entries, entries, groups);
  }

  /**
    The other counters of a run that is not stopped: one run per group that may run, one
    finding per run that reproduces nothing on record, and refusals exactly where some group
    may not run.
   */
  lemma {:induction false} CountersAreGroups(env: Env, s: State, groups: seq<Group>)
    requires Groups(s.entries, groups) && !env.dryRun && !s.aborted && !RunAll(env, s, groups).aborted
    ensures var t := RunAll(env, s, groups);
      && t.runs == s.runs + |Running(env, s.entries, groups)|
      && t.findings == s.findings + |Failing(env, s.entries, groups)|
      && t.refusals >= s.refusals
      && (t.refusals == s.refusals <==> AllMayRun(env, s.entries, groups))
    decreases |groups|
  {
    hide MayRun;
    hide Reproduces;
    if groups != [] {
      var init, last := groups[..|groups| - 1], groups[|groups| - 1];
      OneMoreGroup(env, s.entries, groups);
      hide Running;
      hide Failing;
      hide AllMayRun;
      hide Step;
      hide Groups;
      hide GroupOf;
      GroupsBefore(s.entries, s.entries, groups);
      var before := RunAll(env, s, init);
      GroupsBefore(s.entries, before.entries, groups);
      assert RunAll(env, s, groups) == Step(env, before, last);
      hide RunAll;
      StoppedStaysStopped(env, before, last);
      CountersAreGroups(env, s, init);
      StepCounts(env, before, last);
      MayRunAfter(env, s.entries, before.entries, last);
    }
  }

  lemma StoppedStaysStopped(env: Env, s: State, g: Group)
    requires GroupOf(s.entries, g)
    ensures s.aborted ==> Step(env, s, g).aborted
  {
  }

  lemma FailingIsNone(env: Env, entries: seq<Entry>, groups: seq<Group>)
    requires Groups(entries, groups)
    ensures |Failing(env, entries, groups)| == 0 <==>
      forall k :: 0 <= k < |groups| && MayRun(env, entries, groups[k]) ==> Reproduces(env, entries, groups[k])
  {
    hide MayRun;
    hide Reproduces;
    if Failing(env, entries, groups) == {} {
      forall k | 0 <= k < |groups| && MayRun(env, entries, groups[k]) ensures Reproduces(env, entries, groups[k]) {
        assert k !in Failing(env, entries, groups);
      }
    } else {
      var k :| k in Failing(env, entries, groups);
    }
  }
}
