/**
  `--regenerate` of `scripts/check_f6_fixtures.py` as a state machine: what one producer run,
  and a whole sequence of them, may do to the fixture cache and to the record.
 */
module Fixtures {
  import opened Common

  type Content = seq<bv8>
  type Files = map<string, Content>

  datatype Kind = Minfer | LlamaQuantize | ConvertHfToGguf | HfDownload | OtherKind

  /** The fields of an entry that a run never touches. */
  datatype Identity = Identity(
    producer: string, kind: Kind, box: string, alsoOn: seq<string>, minferCommit: string,
    ffpContract: string, authoritative: bool)

  /** One recorded content of a path. */
  datatype Entry = Entry(path: string, sha256: Option<string>, prefix: Option<string>, bytes: Option<int>, date: string, id: Identity)

  /** What running a producer did: `written` is what its output path holds afterwards. */
  datatype Producer = CannotStart | Exited(code: int, written: Option<Content>)

  /** What the box does: whether the old backup can be removed and the fixture moved aside, and the producer. */
  datatype Outcome = Outcome(backupStuck: bool, fixtureStuck: bool, producer: Producer)

  /** Everything a run depends on besides the cache and the record. */
  datatype Env = Env(
    output: Identity -> Option<string>,       // the path the recorded command writes, if it is one
    rightProgram: Identity -> bool,           // it runs a program of its kind
    present: Identity -> bool,                // and that program is here
    recordedCommit: Identity -> Option<string>,
    runningCommit: Option<string>,
    outcome: string -> Outcome,
    sha: Content -> string,
    today: string,
    dryRun: bool)

  function Backup(out: string): string { out + ".regen-before" }

  function Rejected(out: string): string { out + ".regen-rejected" }

  /** The selected entries of one path. */
  datatype Group = Group(path: string, indices: seq<nat>)

  /** The numbers index the entries. */
  predicate Index(entries: seq<Entry>, indices: seq<nat>) {
    forall k :: 0 <= k < |indices| ==> indices[k] < |entries|
  }

  ghost predicate GroupOf(entries: seq<Entry>, g: Group) {
    && g.indices != []
    && Index(entries, g.indices)
    && (forall k :: 0 <= k < |g.indices| ==> entries[g.indices[k]].path == g.path)
    && NoDuplicates(g.indices)
  }

  // ---- Which groups run ------------------------------------------------------------------

  predicate CommitsAgree(a: string, b: string) {
    a <= b || b <= a
  }

  /** The entry names a commit that is not the one that runs here. */
  predicate NamesOtherCommit(env: Env, id: Identity) {
    && env.recordedCommit(id).Some? && env.recordedCommit(id).value != ""
    && env.runningCommit.Some? && env.runningCommit.value != ""
    && !CommitsAgree(env.recordedCommit(id).value, env.runningCommit.value)
  }

  function CountOtherCommits(env: Env, entries: seq<Entry>, indices: seq<nat>): nat
    requires Index(entries, indices)
  {
    if indices == [] then 0
    else
      var last := |indices| - 1;
      CountOtherCommits(env, entries, indices[..last]) + if NamesOtherCommit(env, entries[indices[last]].id) then 1 else 0
  }

  predicate HasDigest(e: Entry) {
    e.sha256.Some? && e.sha256.value != ""
  }

  /** The refusals a group earns; none means that it runs. */
  function Refusals(env: Env, entries: seq<Entry>, g: Group): nat
    requires g.indices != [] && Index(entries, g.indices)
  {
    var first := entries[g.indices[0]].id;
    if env.output(first).None? || !env.rightProgram(first) then 1
    else if exists i :: i in g.indices && !HasDigest(entries[i]) then 1
    else if first.kind == Minfer && CountOtherCommits(env, entries, g.indices) > 0 then CountOtherCommits(env, entries, g.indices)
    else if first.kind == LlamaQuantize || first.kind == ConvertHfToGguf || !env.present(first) then 1
    else 0
  }

  predicate Runs(env: Env, entries: seq<Entry>, g: Group)
    requires g.indices != [] && Index(entries, g.indices)
  {
    Refusals(env, entries, g) == 0
  }

  /** The selected entries whose commit is not the one that runs here. */
  ghost function OtherCommits(env: Env, entries: seq<Entry>, g: Group): set<nat>
    requires Index(entries, g.indices)
  {
    set i | i in g.indices && NamesOtherCommit(env, entries[i].id)
  }

  /** One of the two commits is unknown, or one abbreviates the other. */
  ghost predicate CouldBeHere(env: Env, id: Identity) {
    match (env.recordedCommit(id), env.runningCommit)
    case (Some(a), Some(b)) => a == "" || b == "" || a == b[..if |a| < |b| then |a| else |b|] || b == a[..if |b| < |a| then |b| else |a|]
    case _ => true
  }

  /**
    What it takes to run a group: its command is one, runs a program of its kind that is
    here and may be run here, every selected content is recorded in full, and no entry of a
    minfer group names another commit.
   */
  ghost predicate MayRun(env: Env, entries: seq<Entry>, g: Group)
    requires g.indices != [] && Index(entries, g.indices)
  {
    var first := entries[g.indices[0]].id;
    && env.output(first).Some? && env.rightProgram(first) && env.present(first)
    && first.kind != LlamaQuantize && first.kind != ConvertHfToGguf
    && (forall i :: i in g.indices ==> entries[i].sha256.Some? && entries[i].sha256.value != "")
    && (first.kind == Minfer ==> forall i :: i in g.indices ==> CouldBeHere(env, entries[i].id))
  }

  lemma OneMoreOther(env: Env, entries: seq<Entry>, indices: seq<nat>, i: nat, path: string)
    requires Index(entries, indices) && i < |entries|
    ensures Index(entries, indices + [i]) && OtherCommits(env, entries, Group(path, indices + [i])) ==
      OtherCommits(env, entries, Group(path, indices)) + if NamesOtherCommit(env, entries[i].id) then {i} else {}
  {
    hide NamesOtherCommit;
  }

  lemma {:induction false} CountIsSize(env: Env, entries: seq<Entry>, g: Group)
    requires Index(entries, g.indices) && NoDuplicates(g.indices)
    ensures CountOtherCommits(env, entries, g.indices) == |OtherCommits(env, entries, g)|
    decreases |g.indices|
  {
    hide NamesOtherCommit;
    if g.indices != [] {
      var init, last := g.indices[..|g.indices| - 1], g.indices[|g.indices| - 1];
      assert g.indices == init + [last];
      CountIsSize(env, entries, Group(g.path, init));
      OneMoreOther(env, entries, init, last, g.path);
      assert last !in OtherCommits(env, entries, Group(g.path, init));
      hide OtherCommits;
    }
  }

  /** A group runs if and only if it may; a second refusal is always one more entry of another commit. */
  lemma RunsIffMayRun(env: Env, entries: seq<Entry>, g: Group)
    requires GroupOf(entries, g)
    ensures Runs(env, entries, g) <==> MayRun(env, entries, g)
    ensures Refusals(env, entries, g) > 1 ==>
      entries[g.indices[0]].id.kind == Minfer && Refusals(env, entries, g) == |OtherCommits(env, entries, g)|
  {
    CountIsSize(env, entries, g);
    assert |OtherCommits(env, entries, g)| == 0 <==> forall i :: i in g.indices ==> !NamesOtherCommit(env, entries[i].id) by {
      if i :| i in g.indices && NamesOtherCommit(env, entries[i].id) {
        assert i in OtherCommits(env, entries, g);
      }
    }
  }

  function OutputOf(env: Env, entries: seq<Entry>, g: Group): string
    requires g.indices != [] && Index(entries, g.indices)
    requires Runs(env, entries, g)
  {
    env.output(entries[g.indices[0]].id).value
  }

  // ---- What one run leaves behind ---------------------------------------------------------

  function Lookup(files: Files, path: string): Option<Content> {
    if path in files then Some(files[path]) else None
  }

  function Put(files: Files, path: string, content: Option<Content>): Files {
    if content.Some? then files[path := content.value] else files - {path}
  }

  /** The digests a group's entries record. */
  ghost function Digests(entries: seq<Entry>, g: Group): set<string>
    requires Index(entries, g.indices)
  {
    set i | i in g.indices && entries[i].sha256.Some? :: entries[i].sha256.value
  }

  predicate Succeeded(run: Producer) {
    run.Exited? && run.code == 0 && run.written.Some?
  }

  function Written(run: Producer): Option<Content> {
    if run.Exited? then run.written else None
  }

  /** The run is kept: it succeeded, and what it wrote is recorded for the path. */
  ghost predicate Accepted(env: Env, entries: seq<Entry>, g: Group, run: Producer)
    requires Index(entries, g.indices)
  {
    Succeeded(run) && env.sha(run.written.value) in Digests(entries, g)
  }

  /** The fixture cannot be moved aside, so nothing runs any more. */
  predicate Aborts(files: Files, out: string, outcome: Outcome) {
    out in files && (outcome.fixtureStuck || (outcome.backupStuck && Backup(out) in files))
  }

  /**
    The cache after one run: kept content replaces the fixture; otherwise the fixture is what
    it was, and what the run wrote lies beside it. The backup is gone either way.
   */
  function Settled(files: Files, out: string, written: Option<Content>, accepted: bool): Files {
    var fixture := if accepted then written else if out in files then Some(files[out]) else Lookup(files, Backup(out));
    var rejected := if !accepted && written.Some? then written else Lookup(files, Rejected(out));
    Put(Put(files - {Backup(out)}, out, fixture), Rejected(out), rejected)
  }

  /** The cache when the move fails: at most a stale backup is gone. */
  function Stuck(files: Files, out: string, outcome: Outcome): Files {
    if outcome.backupStuck && Backup(out) in files then files else files - {Backup(out)}
  }

  function Rerecorded(e: Entry, digest: string, size: int, today: string): Entry {
    if e.sha256 == Some(digest) then e.(bytes := Some(size), date := today) else e
  }

  /** The record after a kept run: only `bytes` and `date` of the reproduced entries. */
  function RerecordAll(entries: seq<Entry>, indices: seq<nat>, digest: string, size: int, today: string): (after: seq<Entry>)
    ensures |after| == |entries|
  {
    seq(|entries|, i requires 0 <= i < |entries| => if i in indices then Rerecorded(entries[i], digest, size, today) else entries[i])
  }

  function CountChanged(entries: seq<Entry>, after: seq<Entry>, indices: seq<nat>): nat
    requires |after| == |entries| && Index(entries, indices)
  {
    if indices == [] then 0
    else
      var last := indices[|indices| - 1];
      CountChanged(entries, after, indices[..|indices| - 1]) + if entries[last] != after[last] then 1 else 0
  }

  // ---- Whole runs ---------------------------------------------------------------------------

  datatype State = State(
    files: Files, entries: seq<Entry>, runs: nat, refusals: nat, findings: nat, changes: nat, aborted: bool)

  ghost function Step(env: Env, s: State, g: Group): (after: State)
    requires GroupOf(s.entries, g)
    ensures SameRecord(s.entries, after.entries)
  {
    if s.aborted then s
    else if !Runs(env, s.entries, g) then s.(refusals := s.refusals + Refusals(env, s.entries, g))
    else if env.dryRun then s.(runs := s.runs + 1)
    else
      var out, outcome := OutputOf(env, s.entries, g), env.outcome(g.path);
      if Aborts(s.files, out, outcome) then s.(files := Stuck(s.files, out, outcome), runs := s.runs + 1, aborted := true)
      else if Accepted(env, s.entries, g, outcome.producer) then
        var content := outcome.producer.written.value;
        var after := RerecordAll(s.entries, g.indices, env.sha(content), |content|, env.today);
        s.(files := Settled(s.files, out, Some(content), true), entries := after,
           runs := s.runs + 1, changes := s.changes + CountChanged(s.entries, after, g.indices))
      else s.(files := Settled(s.files, out, Written(outcome.producer), false), runs := s.runs + 1, findings := s.findings + 1)
  }

  lemma GroupsKept(entries: seq<Entry>, after: seq<Entry>, g: Group)
    requires GroupOf(entries, g) && SameRecord(entries, after)
    ensures GroupOf(after, g)
  {
  }

  /** Re-recording moves only `bytes` and `date`. */
  ghost predicate SameRecord(entries: seq<Entry>, after: seq<Entry>) {
    && |after| == |entries|
    && forall i :: 0 <= i < |entries| ==> after[i] == entries[i].(bytes := after[i].bytes, date := after[i].date)
  }

  function Start(files: Files, entries: seq<Entry>): State {
    State(files, entries, 0, 0, 0, 0, false)
  }

  /** The groups of a run: one per path. */
  ghost predicate Groups(entries: seq<Entry>, groups: seq<Group>) {
    && (forall k :: 0 <= k < |groups| ==> GroupOf(entries, groups[k]))
    && (forall j, k :: 0 <= j < k < |groups| ==> groups[j].path != groups[k].path)
  }

  lemma GroupsBefore(entries: seq<Entry>, after: seq<Entry>, groups: seq<Group>)
    requires groups != [] && Groups(entries, groups)
    ensures Groups(entries, groups[..|groups| - 1])
    ensures SameRecord(entries, after) ==> GroupOf(after, groups[|groups| - 1])
  {
  }

  /** The groups run in order. */
  ghost function RunAll(env: Env, s: State, groups: seq<Group>): (after: State)
    requires Groups(s.entries, groups)
    ensures SameRecord(s.entries, after.entries)
    decreases |groups|
  {
    if groups == [] then s
    else
      var init, last := groups[..|groups| - 1], groups[|groups| - 1];
      GroupsBefore(s.entries, s.entries, groups);
      var before := RunAll(env, s, init);
      GroupsBefore(s.entries, before.entries, groups);
      Step(env, before, last)
  }

  // ---- What a sequence of runs guarantees ----------------------------------------------------

  /** The paths a run of the group may touch. */
  ghost predicate Touches(env: Env, entries: seq<Entry>, g: Group, path: string)
    requires GroupOf(entries, g)
  {
    Runs(env, entries, g) &&
    var out := OutputOf(env, entries, g);
    path == out || path == Backup(out) || path == Rejected(out)
  }

  /** No group that runs touches a path that another one touches. */
  ghost predicate Separate(env: Env, entries: seq<Entry>, groups: seq<Group>)
    requires Groups(entries, groups)
  {
    forall j, k, path :: 0 <= j < |groups| && 0 <= k < |groups| && Touches(env, entries, groups[j], path) && Touches(env, entries, groups[k], path) ==> j == k
  }

  /** The names of the output and of what lies beside it. */
  predicate IsNameOf(out: string, path: string) {
    path == out || path == Backup(out) || path == Rejected(out)
  }

  lemma NamesCollide(a: string, b: string, path: string)
    requires IsNameOf(a, path) && IsNameOf(b, path)
    ensures IsNameOf(a, b) || IsNameOf(b, a)
  {
    if path == Backup(a) && path == Backup(b) {
      assert a == path[..|path| - 13] == b;
    } else if path == Rejected(a) && path == Rejected(b) {
      assert a == path[..|path| - 15] == b;
    } else {
      LastCharacters(a);
      LastCharacters(b);
    }
  }

  lemma LastCharacters(out: string)
    ensures Backup(out)[|Backup(out)| - 1] == 'e' && Rejected(out)[|Rejected(out)| - 1] == 'd'
  {
  }

  /** No output of one group that runs is the output of another, its backup or its rejected copy. */
  ghost predicate NamesApartIn(env: Env, entries: seq<Entry>, groups: seq<Group>)
    requires Groups(entries, groups)
  {
    forall j, k :: 0 <= j < |groups| && 0 <= k < |groups| && j != k && Runs(env, entries, groups[j]) && Runs(env, entries, groups[k]) ==>
      !IsNameOf(OutputOf(env, entries, groups[j]), OutputOf(env, entries, groups[k]))
  }

  /** It is enough to look at the outputs. */
  lemma SeparateIffNamesApart(env: Env, entries: seq<Entry>, groups: seq<Group>)
    requires Groups(entries, groups)
    ensures Separate(env, entries, groups) <==> NamesApartIn(env, entries, groups)
  {
    hide Runs;
    hide IsNameOf;
    forall j, k | 0 <= j < |groups| && 0 <= k < |groups| && Runs(env, entries, groups[j]) && Runs(env, entries, groups[k])
      ensures forall path :: Touches(env, entries, groups[j], path) && Touches(env, entries, groups[k], path) ==>
                IsNameOf(OutputOf(env, entries, groups[j]), OutputOf(env, entries, groups[k]))
                || IsNameOf(OutputOf(env, entries, groups[k]), OutputOf(env, entries, groups[j]))
      ensures IsNameOf(OutputOf(env, entries, groups[j]), OutputOf(env, entries, groups[k])) ==>
                && Touches(env, entries, groups[j], OutputOf(env, entries, groups[k]))
                && Touches(env, entries, groups[k], OutputOf(env, entries, groups[k]))
    {
      TwoGroups(env, entries, groups[j], groups[k]);
    }
  }

  lemma TwoGroups(env: Env, entries: seq<Entry>, g: Group, h: Group)
    requires GroupOf(entries, g) && GroupOf(entries, h) && Runs(env, entries, g) && Runs(env, entries, h)
    ensures var a, b := OutputOf(env, entries, g), OutputOf(env, entries, h);
      && (forall path :: Touches(env, entries, g, path) && Touches(env, entries, h, path) ==> IsNameOf(a, b) || IsNameOf(b, a))
      && (IsNameOf(a, b) ==> Touches(env, entries, g, b) && Touches(env, entries, h, b))
  {
    hide Runs;
    var a, b := OutputOf(env, entries, g), OutputOf(env, entries, h);
    forall path | Touches(env, entries, g, path) && Touches(env, entries, h, path) ensures IsNameOf(a, b) || IsNameOf(b, a) {
      NamesCollide(a, b, path);
    }
  }

  lemma SameRunsAfter(env: Env, entries: seq<Entry>, after: seq<Entry>, g: Group)
    requires GroupOf(entries, g) && SameRecord(entries, after)
    ensures GroupOf(after, g)
    ensures Refusals(env, after, g) == Refusals(env, entries, g) && Runs(env, after, g) == Runs(env, entries, g)
    ensures Runs(env, entries, g) ==> OutputOf(env, after, g) == OutputOf(env, entries, g)
    ensures Digests(after, g) == Digests(entries, g)
  {
    SameCommits(env, entries, after, g.indices);
    assert forall i :: i in g.indices ==> i < |entries| && after[i].sha256 == entries[i].sha256;
  }

  lemma {:induction false} SameCommits(env: Env, entries: seq<Entry>, after: seq<Entry>, indices: seq<nat>)
    requires Index(entries, indices) && SameRecord(entries, after)
    ensures CountOtherCommits(env, after, indices) == CountOtherCommits(env, entries, indices)
  {
    if indices != [] {
      SameCommits(env, entries, after, indices[..|indices| - 1]);
    }
  }

  /** One run touches only its three paths. */
  lemma StepTouches(env: Env, s: State, g: Group, path: string)
    requires GroupOf(s.entries, g) && !Touches(env, s.entries, g, path)
    ensures Lookup(Step(env, s, g).files, path) == Lookup(s.files, path)
  {
    hide Runs;
  }

  lemma NamesApart(out: string)
    ensures out != Backup(out) && out != Rejected(out) && Backup(out) != Rejected(out)
  {
    assert |Backup(out)| == |out| + 13 && |Rejected(out)| == |out| + 15;
  }

  /** Untouched by every group: not an output, a backup or a rejected copy of a group that runs. */
  ghost predicate Untouched(env: Env, entries: seq<Entry>, groups: seq<Group>, path: string)
    requires Groups(entries, groups)
  {
    forall k :: 0 <= k < |groups| ==> !Touches(env, entries, groups[k], path)
  }

  lemma {:induction false} RunTouches(env: Env, s: State, groups: seq<Group>, path: string)
    requires Groups(s.entries, groups) && Untouched(env, s.entries, groups, path)
    ensures Lookup(RunAll(env, s, groups).files, path) == Lookup(s.files, path)
    decreases |groups|
  {
    if groups != [] {
      var init, last := groups[..|groups| - 1], groups[|groups| - 1];
      GroupsBefore(s.entries, s.entries, groups);
      RunTouches(env, s, init, path);
      var before := RunAll(env, s, init);
      GroupsBefore(s.entries, before.entries, groups);
      SameRunsAfter(env, s.entries, before.entries, last);
      assert !Touches(env, s.entries, last, path);
      StepTouches(env, before, last, path);
    }
  }

  lemma SeparateBefore(env: Env, entries: seq<Entry>, groups: seq<Group>)
    requires groups != [] && Groups(entries, groups) && Separate(env, entries, groups)
    ensures Groups(entries, groups[..|groups| - 1]) && Separate(env, entries, groups[..|groups| - 1])
  {
  }

  /** A dry run changes nothing. */
  lemma {:induction false} DryRunChangesNothing(env: Env, s: State, groups: seq<Group>)
    requires Groups(s.entries, groups) && env.dryRun
    ensures var t := RunAll(env, s, groups); t.files == s.files && t.entries == s.entries && t.changes == s.changes
    decreases |groups|
  {
    if groups != [] {
      GroupsBefore(s.entries, s.entries, groups);
      DryRunChangesNothing(env, s, groups[..|groups| - 1]);
    }
  }

  // ---- The record, and running again ---------------------------------------------------------

  /** Nothing on the box gets in the way of moving files. */
  ghost predicate MovesWork(env: Env) {
    !env.dryRun && forall path :: !env.outcome(path).backupStuck && !env.outcome(path).fixtureStuck
  }

  /** What a group's own run establishes: kept content is in place and on record, rejected content lies beside it. */
  ghost predicate Reproduced(env: Env, files: Files, entries: seq<Entry>, g: Group)
    requires GroupOf(entries, g) && Runs(env, entries, g)
  {
    var out, run := OutputOf(env, entries, g), env.outcome(g.path).producer;
    && Backup(out) !in files
    && if Accepted(env, entries, g, run) then
         && Lookup(files, out) == run.written
         && forall k :: 0 <= k < |g.indices| && entries[g.indices[k]].sha256 == Some(env.sha(run.written.value)) ==>
              entries[g.indices[k]].bytes == Some(|run.written.value|) && entries[g.indices[k]].date == env.today
       else Written(run).Some? ==> Lookup(files, Rejected(out)) == Written(run)
  }

  lemma StepReproduces(env: Env, s: State, g: Group)
    requires GroupOf(s.entries, g) && Runs(env, s.entries, g) && MovesWork(env) && !s.aborted
    ensures var t := Step(env, s, g);
      !t.aborted && GroupOf(t.entries, g) && Runs(env, t.entries, g) && Reproduced(env, t.files, t.entries, g)
  {
    hide Refusals;
    hide CountChanged;
    var t := Step(env, s, g);
    SameRunsAfter(env, s.entries, t.entries, g);
    hide Digests;
    NamesApart(OutputOf(env, s.entries, g));
    hide Runs;
    hide Backup;
    hide Rejected;
    forall k | 0 <= k < |g.indices| ensures g.indices[k] in g.indices {
    }
  }

  lemma {:induction false} NothingChanged(entries: seq<Entry>, indices: seq<nat>)
    requires Index(entries, indices)
    ensures CountChanged(entries, entries, indices) == 0
  {
    if indices != [] {
      NothingChanged(entries, indices[..|indices| - 1]);
    }
  }

  /** A run of a group that is already reproduced changes neither the cache nor the record. */
  lemma StepAgain(env: Env, s: State, g: Group)
    requires GroupOf(s.entries, g) && MovesWork(env) && !s.aborted
    requires Runs(env, s.entries, g) ==> Reproduced(env, s.files, s.entries, g)
    ensures var t := Step(env, s, g);
      t.files == s.files && t.entries == s.entries && t.changes == s.changes && !t.aborted
  {
    hide Runs;
    if Runs(env, s.entries, g) {
      var out, run := OutputOf(env, s.entries, g), env.outcome(g.path).producer;
      NamesApart(out);
      if Accepted(env, s.entries, g, run) {
        assert Settled(s.files, out, run.written, true) == s.files;
        RecordedAgain(env, s.entries, g, run.written.value);
        NothingChanged(s.entries, g.indices);
      } else {
        assert Settled(s.files, out, Written(run), false) == s.files;
      }
    }
  }

  lemma RecordedAgain(env: Env, entries: seq<Entry>, g: Group, content: Content)
    requires GroupOf(entries, g)
    requires forall k :: 0 <= k < |g.indices| && entries[g.indices[k]].sha256 == Some(env.sha(content)) ==>
      entries[g.indices[k]].bytes == Some(|content|) && entries[g.indices[k]].date == env.today
    ensures RerecordAll(entries, g.indices, env.sha(content), |content|, env.today) == entries
  {
  }

  /** A later group leaves an earlier one reproduced. */
  lemma StaysReproduced(env: Env, s: State, g: Group, later: Group)
    requires GroupOf(s.entries, g) && GroupOf(s.entries, later) && g.path != later.path
    requires Runs(env, s.entries, g) && Reproduced(env, s.files, s.entries, g)
    requires forall path :: !(Touches(env, s.entries, g, path) && Touches(env, s.entries, later, path))
    ensures var t := Step(env, s, later);
      GroupOf(t.entries, g) && Runs(env, t.entries, g) && Reproduced(env, t.files, t.entries, g)
  {
    var t, out := Step(env, s, later), OutputOf(env, s.entries, g);
    SameRunsAfter(env, s.entries, t.entries, g);
    assert Touches(env, s.entries, g, out) && Touches(env, s.entries, g, Backup(out)) && Touches(env, s.entries, g, Rejected(out));
    StepTouches(env, s, later, out);
    StepTouches(env, s, later, Backup(out));
    StepTouches(env, s, later, Rejected(out));
    forall k | 0 <= k < |g.indices| ensures t.entries[g.indices[k]] == s.entries[g.indices[k]] {
      StepKeepsOtherPaths(env, s, later, g.indices[k]);
    }
    hide Runs;
    hide Step;
  }

  lemma StepKeepsOtherPaths(env: Env, s: State, g: Group, i: nat)
    requires GroupOf(s.entries, g) && i < |s.entries| && s.entries[i].path != g.path
    ensures Step(env, s, g).entries[i] == s.entries[i]
  {
    hide Runs;
    assert i !in g.indices;
  }

  lemma {:induction false} AllReproduced(env: Env, s: State, groups: seq<Group>, k: nat)
    requires Groups(s.entries, groups) && Separate(env, s.entries, groups) && MovesWork(env) && !s.aborted
    requires k < |groups|
    ensures var t := RunAll(env, s, groups);
      && !t.aborted && GroupOf(t.entries, groups[k])
      && (Runs(env, t.entries, groups[k]) ==> Reproduced(env, t.files, t.entries, groups[k]))
    decreases |groups|
  {
    hide Refusals;
    hide Step;
    hide Digests;
    hide MovesWork;
    hide Reproduced;
    var init, last, g := groups[..|groups| - 1], groups[|groups| - 1], groups[k];
    SeparateBefore(env, s.entries, groups);
    NeverAborts(env, s, init);
    var before := RunAll(env, s, init);
    var t := RunAll(env, s, groups);
    GroupsBefore(s.entries, before.entries, groups);
    SameRunsAfter(env, s.entries, before.entries, last);
    SameRunsAfter(env, s.entries, before.entries, g);
    SameRunsAfter(env, s.entries, t.entries, g);
    NeverAborts(env, s, groups);
    if Runs(env, s.entries, g) {
      if k < |init| {
        AllReproduced(env, s, init, k);
        forall path ensures !(Touches(env, before.entries, g, path) && Touches(env, before.entries, last, path)) {
          assert !(Touches(env, s.entries, g, path) && Touches(env, s.entries, last, path));
        }
        StaysReproduced(env, before, g, last);
      } else {
        StepReproduces(env, before, last);
      }
    }
  }

  lemma {:induction false} NeverAborts(env: Env, s: State, groups: seq<Group>)
    requires Groups(s.entries, groups) && MovesWork(env) && !s.aborted
    ensures !RunAll(env, s, groups).aborted
    decreases |groups|
  {
    if groups != [] {
      GroupsBefore(s.entries, s.entries, groups);
      NeverAborts(env, s, groups[..|groups| - 1]);
    }
  }

  /** A second run on the same day, with producers that write the same, changes nothing at all. */
  lemma SecondRunChangesNothing(env: Env, files: Files, entries: seq<Entry>, groups: seq<Group>)
    requires Groups(entries, groups) && Separate(env, entries, groups) && MovesWork(env)
    ensures var t := RunAll(env, Start(files, entries), groups);
      && Groups(t.entries, groups)
      && var u := RunAll(env, Start(t.files, t.entries), groups);
        u.files == t.files && u.entries == t.entries && u.changes == 0
  {
    var t := RunAll(env, Start(files, entries), groups);
    forall k | 0 <= k < |groups|
      ensures GroupOf(t.entries, groups[k]) && (Runs(env, t.entries, groups[k]) ==> Reproduced(env, t.files, t.entries, groups[k]))
    {
      AllReproduced(env, Start(files, entries), groups, k);
    }
    RunAgain(env, t.files, t.entries, groups);
  }

  lemma {:induction false} RunAgain(env: Env, files: Files, entries: seq<Entry>, groups: seq<Group>)
    requires Groups(entries, groups) && MovesWork(env)
    requires forall k :: 0 <= k < |groups| && Runs(env, entries, groups[k]) ==> Reproduced(env, files, entries, groups[k])
    ensures var u := RunAll(env, Start(files, entries), groups);
      u.files == files && u.entries == entries && u.changes == 0 && !u.aborted
    decreases |groups|
  {
    if groups != [] {
      var init, last := groups[..|groups| - 1], groups[|groups| - 1];
      GroupsBefore(entries, entries, groups);
      RunAgain(env, files, entries, init);
      StepAgain(env, RunAll(env, Start(files, entries), init), last);
    }
  }

  // ---- Names -----------------------------------------------------------------------------------------------------

  lemma NamesBeside(out: string)
    ensures Backup(out) == out + ".regen-before" && Rejected(out) == out + ".regen-rejected"
  {
  }
}
