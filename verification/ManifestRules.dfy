/** Rules S3, S4 and S6 of `check_manifest` in `scripts/check_f6_fixtures.py`: what the record may say about one path. */
module ManifestRules {
  import opened Common
  import opened Fixtures

  /** An explained divergence. */
  datatype Note = Note(cause: string, paths: seq<string>, explanation: string)

  function OnPath(path: string): Entry -> bool {
    (e: Entry) => e.path == path
  }

  function Recorded(entries: seq<Entry>, path: string): seq<Entry> {
    Filter(entries, OnPath(path))
  }

  /** The full digest, or else the truncated one. */
  function IdentityOf(e: Entry): Option<string> {
    if e.sha256.Some? && e.sha256.value != "" then e.sha256 else e.prefix
  }

  /** `e` is a truncated form of the content `f` records in full. */
  predicate Truncates(e: Entry, f: Entry) {
    e.prefix.Some? && e.prefix.value != "" && HasDigest(f) && e.prefix.value <= f.sha256.value
  }

  // ---- The rules ----------------------------------------------------------------------------

  /** S3: the contents of one path are different contents. */
  ghost predicate DifferentContents(es: seq<Entry>) {
    && (forall i, j :: 0 <= i < j < |es| ==> IdentityOf(es[i]) != IdentityOf(es[j]))
    && (forall i, j :: 0 <= i < |es| && 0 <= j < |es| ==> !Truncates(es[i], es[j]))
  }

  /** S6: a path with a quantized reference has exactly one authoritative one, and no other path has any. */
  ghost predicate OneReference(es: seq<Entry>) {
    && (forall i :: 0 <= i < |es| && es[i].id.authoritative ==> es[i].id.kind == LlamaQuantize && es[i].id.ffpContract == "fast")
    && (forall i, j :: 0 <= i < j < |es| ==> !(es[i].id.authoritative && es[j].id.authoritative))
    && ((exists i :: 0 <= i < |es| && es[i].id.kind == LlamaQuantize) ==> exists j :: 0 <= j < |es| && es[j].id.authoritative)
  }

  /** S4: notes are complete and name recorded paths. */
  ghost predicate NotesAreReal(entries: seq<Entry>, notes: seq<Note>) {
    forall n :: n in notes ==>
      && n.cause != "" && n.paths != [] && n.explanation != ""
      && forall p :: p in n.paths ==> Recorded(entries, p) != []
  }

  /** S4: a path with more than one recorded content is explained. */
  ghost predicate Explained(es: seq<Entry>, path: string, notes: seq<Note>) {
    |es| > 1 ==> exists n :: n in notes && path in n.paths
  }

  ghost predicate PathIsClean(entries: seq<Entry>, notes: seq<Note>, path: string) {
    var es := Recorded(entries, path);
    DifferentContents(es) && OneReference(es) && Explained(es, path, notes)
  }

  ghost predicate Clean(entries: seq<Entry>, notes: seq<Note>) {
    NotesAreReal(entries, notes) && forall p :: PathIsClean(entries, notes, p)
  }

  // ---- The program ---------------------------------------------------------------------------

  method CheckContents(es: seq<Entry>) returns (problems: nat)
    ensures problems == 0 <==> DifferentContents(es)
  {
    problems := 0;
    var seen: set<Option<string>> := {};
    for i := 0 to |es|
      invariant forall x :: x in seen <==> exists k :: 0 <= k < i && IdentityOf(es[k]) == x
      invariant problems == 0 <==> forall k, j :: 0 <= k < j < i ==> IdentityOf(es[k]) != IdentityOf(es[j])
    {
      if IdentityOf(es[i]) in seen {
        problems := problems + 1;
      }
      seen := seen + {IdentityOf(es[i])};
    }
    ghost var duplicates := problems;
    for i := 0 to |es|
      invariant problems >= duplicates
      invariant problems == duplicates <==> forall k, j :: 0 <= k < i && 0 <= j < |es| ==> !Truncates(es[k], es[j])
    {
      if exists f :: f in es && Truncates(es[i], f) {
        problems := problems + 1;
      }
    }
  }

  method CheckReference(es: seq<Entry>) returns (problems: nat)
    ensures problems == 0 <==> OneReference(es)
  {
    problems := 0;
    var marks := Filter(es, Authoritative());
    FilterIn(es, Authoritative());
    OneMarkOnly(es);
    hide Filter;
    if marks == [] {
      if exists e :: e in es && e.id.kind == LlamaQuantize {
        problems := 1;
      }
      assert forall i :: 0 <= i < |es| ==> es[i] !in marks;
      return;
    }
    assert marks[0] in marks;
    var wrong := CheckMarks(marks);
    problems := wrong + if |marks| > 1 then 1 else 0;
  }

  method CheckMarks(marks: seq<Entry>) returns (problems: nat)
    ensures problems == 0 <==> forall e :: e in marks ==> e.id.kind == LlamaQuantize && e.id.ffpContract == "fast"
  {
    problems := 0;
    for i := 0 to |marks|
      invariant problems == 0 <==> forall k :: 0 <= k < i ==> marks[k].id.kind == LlamaQuantize && marks[k].id.ffpContract == "fast"
    {
      if marks[i].id.kind != LlamaQuantize {
        problems := problems + 1;
      }
      if marks[i].id.ffpContract != "fast" {
        problems := problems + 1;
      }
    }
  }

  function Authoritative(): Entry -> bool {
    (e: Entry) => e.id.authoritative
  }

  lemma {:induction false} OneMarkOnly(es: seq<Entry>)
    ensures |Filter(es, Authoritative())| <= 1 <==> forall i, j :: 0 <= i < j < |es| ==> !(es[i].id.authoritative && es[j].id.authoritative)
  {
    if es != [] {
      OneMarkOnly(es[1..]);
      FilterIn(es[1..], Authoritative());
      var rest := Filter(es[1..], Authoritative());
      assert rest != [] ==> rest[0] in es[1..];
      assert forall i :: 1 <= i < |es| ==> es[i] == es[1..][i - 1];
      assert forall i :: 1 <= i < |es| && es[i].id.authoritative ==> es[i] in rest;
    }
  }

  /** A note's own problems, and the paths it explains. */
  method CheckNote(entries: seq<Entry>, note: Note) returns (problems: nat)
    ensures problems == 0 <==> NotesAreReal(entries, [note])
  {
    problems := 0;
    if note.cause == "" {
      problems := problems + 1;
    }
    if note.paths == [] {
      problems := problems + 1;
    }
    if note.explanation == "" {
      problems := problems + 1;
    }
    ghost var fields := problems;
    for i := 0 to |note.paths|
      invariant problems >= fields
      invariant problems == fields <==> forall p :: p in note.paths[..i] ==> Recorded(entries, p) != []
    {
      assert note.paths[..i + 1] == note.paths[..i] + [note.paths[i]];
      if Recorded(entries, note.paths[i]) == [] {
        problems := problems + 1;
      }
    }
    assert note.paths[..|note.paths|] == note.paths;
    assert note in [note];
  }

  method CheckNotes(entries: seq<Entry>, notes: seq<Note>) returns (problems: nat, explained: set<string>)
    ensures problems == 0 <==> NotesAreReal(entries, notes)
    ensures forall p :: p in explained <==> exists n :: n in notes && p in n.paths
  {
    problems, explained := 0, {};
    for i := 0 to |notes|
      invariant problems == 0 <==> NotesAreReal(entries, notes[..i])
      invariant forall p :: p in explained <==> exists n :: n in notes[..i] && p in n.paths
    {
      assert notes[..i + 1] == notes[..i] + [notes[i]];
      var found := CheckNote(entries, notes[i]);
      assert notes[i] in [notes[i]];
      problems := problems + found;
      explained := explained + set p | p in notes[i].paths;
    }
    assert notes[..|notes|] == notes;
  }

  method CheckExplained(entries: seq<Entry>, notes: seq<Note>, explained: set<string>, paths: seq<string>) returns (problems: nat)
    requires forall p :: p in explained <==> exists n :: n in notes && p in n.paths
    ensures problems == 0 <==> forall k :: 0 <= k < |paths| ==> Explained(Recorded(entries, paths[k]), paths[k], notes)
  {
    hide Recorded;
    problems := 0;
    for i := 0 to |paths|
      invariant problems == 0 <==> forall k :: 0 <= k < i ==> Explained(Recorded(entries, paths[k]), paths[k], notes)
    {
      if |Recorded(entries, paths[i])| > 1 && paths[i] !in explained {
        problems := problems + 1;
      }
    }
  }

  /** The rules in the program's order: contents, notes, explanations, references. `paths` are the recorded paths. */
  method CheckManifest(entries: seq<Entry>, notes: seq<Note>, paths: seq<string>) returns (problems: nat)
    requires forall p :: p in paths <==> Recorded(entries, p) != []
    ensures problems == 0 <==> Clean(entries, notes)
  {
    hide DifferentContents;
    hide OneReference;
    hide Explained;
    hide NotesAreReal;
    hide Recorded;
    problems := 0;
    for i := 0 to |paths|
      invariant problems == 0 <==> forall k :: 0 <= k < i ==> DifferentContents(Recorded(entries, paths[k]))
    {
      var found := CheckContents(Recorded(entries, paths[i]));
      problems := problems + found;
    }
    var inNotes, explained := CheckNotes(entries, notes);
    problems := problems + inNotes;
    var unexplained := CheckExplained(entries, notes, explained, paths);
    problems := problems + unexplained;
    ghost var explainedAll := problems;
    for i := 0 to |paths|
      invariant problems >= explainedAll
      invariant problems == explainedAll <==> forall k :: 0 <= k < i ==> OneReference(Recorded(entries, paths[k]))
    {
      var found := CheckReference(Recorded(entries, paths[i]));
      problems := problems + found;
    }
    EveryPath(entries, notes, paths);
  }

  /** A path without entries breaks no rule, so the recorded ones are all there is to check. */
  lemma EveryPath(entries: seq<Entry>, notes: seq<Note>, paths: seq<string>)
    requires forall p :: p in paths <==> Recorded(entries, p) != []
    ensures (forall p :: PathIsClean(entries, notes, p)) <==> forall k :: 0 <= k < |paths| ==> PathIsClean(entries, notes, paths[k])
  {
    forall p | p !in paths ensures PathIsClean(entries, notes, p) {
      assert Recorded(entries, p) == [];
    }
  }

  // ---- Re-recording keeps the rules -----------------------------------------------------------

  lemma {:induction false} RecordedSame(entries: seq<Entry>, after: seq<Entry>, path: string)
    requires SameRecord(entries, after)
    ensures SameRecord(Recorded(entries, path), Recorded(after, path))
    decreases |entries|
  {
    if entries != [] {
      assert SameRecord(entries[1..], after[1..]);
      RecordedSame(entries[1..], after[1..], path);
    }
  }

  lemma SameContents(es: seq<Entry>, after: seq<Entry>)
    requires SameRecord(es, after)
    ensures DifferentContents(es) <==> DifferentContents(after)
  {
    forall i | 0 <= i < |es| ensures IdentityOf(after[i]) == IdentityOf(es[i]) {
    }
    forall i, j | 0 <= i < |es| && 0 <= j < |es| ensures Truncates(after[i], after[j]) == Truncates(es[i], es[j]) {
    }
  }

  lemma SameReference(es: seq<Entry>, after: seq<Entry>)
    requires SameRecord(es, after)
    ensures OneReference(es) <==> OneReference(after)
  {
    assert forall i :: 0 <= i < |es| ==> after[i].id == es[i].id;
  }

  lemma PathKeepsRules(entries: seq<Entry>, after: seq<Entry>, notes: seq<Note>, path: string)
    requires SameRecord(entries, after)
    ensures PathIsClean(entries, notes, path) <==> PathIsClean(after, notes, path)
    ensures Recorded(entries, path) != [] <==> Recorded(after, path) != []
  {
    RecordedSame(entries, after, path);
    SameContents(Recorded(entries, path), Recorded(after, path));
    SameReference(Recorded(entries, path), Recorded(after, path));
    hide DifferentContents;
    hide OneReference;
    hide Recorded;
  }

  /** What re-recording can change is nothing the rules look at. */
  lemma RerecordingKeepsRules(entries: seq<Entry>, after: seq<Entry>, notes: seq<Note>)
    requires SameRecord(entries, after)
    ensures Clean(entries, notes) <==> Clean(after, notes)
  {
    hide PathIsClean;
    hide Recorded;
    hide SameRecord;
    forall p ensures (PathIsClean(entries, notes, p) <==> PathIsClean(after, notes, p)) && (Recorded(entries, p) != [] <==> Recorded(after, p) != []) {
      PathKeepsRules(entries, after, notes, p);
    }
  }

  /** A clean record stays clean under any sequence of runs. */
  lemma RunsKeepRules(env: Env, s: State, groups: seq<Group>, notes: seq<Note>)
    requires Groups(s.entries, groups)
    ensures Clean(RunAll(env, s, groups).entries, notes) <==> Clean(s.entries, notes)
  {
    RerecordingKeepsRules(s.entries, RunAll(env, s, groups).entries, notes);
  }

  // ---- Identities ------------------------------------------------------------------------------------------------

  /** An entry goes by its full digest, or by the truncated one where it has no full one. */
  lemma IdentityIs(e: Entry, digest: string)
    ensures e.sha256 == Some(digest) && digest != "" ==> IdentityOf(e) == Some(digest)
    ensures e.sha256.None? || e.sha256 == Some("") ==> IdentityOf(e) == e.prefix
  {
  }

  /** A truncated digest records a content twice where some full digest goes on from it. */
  lemma TruncatesIff(e: Entry, f: Entry)
    ensures Truncates(e, f) <==> exists rest, prefix :: prefix != "" && e.prefix == Some(prefix) && f.sha256 == Some(prefix + rest)
  {
    if Truncates(e, f) {
      var prefix, full := e.prefix.value, f.sha256.value;
      assert full == prefix + full[|prefix|..];
    }
  }

  /** Rule S3 on full digests: no two entries of a path record the same, and none extends a truncated one. */
  lemma DifferentFullDigests(es: seq<Entry>)
    requires forall i :: 0 <= i < |es| ==> es[i].sha256.Some? && es[i].sha256.value != ""
    ensures DifferentContents(es) <==>
      && (forall i, j :: 0 <= i < j < |es| ==> es[i].sha256 != es[j].sha256)
      && (forall i, j :: 0 <= i < |es| && 0 <= j < |es| ==> !Truncates(es[i], es[j]))
  {
    assert forall i :: 0 <= i < |es| ==> IdentityOf(es[i]) == es[i].sha256;
  }
}
