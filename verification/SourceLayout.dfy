/**
  The layout rules of `scripts/check_source_layout.py`: no test module inline, and every source
  file declared. The matches of the regular expressions are given; the walk is the subject.
 */
module SourceLayout {
  import opened Common
  import opened CfgPredicate
  import opened Paths

  /** An inline module: the cfg predicates in front of it, its name, its line. */
  datatype Inline = Inline(preds: seq<string>, name: string, line: nat)

  /** What the expressions find in a file: `mod name;`, `mod name {` and `#[path =`. */
  datatype Source = Source(mods: seq<string>, inlines: seq<Inline>, pathLines: seq<nat>)

  /** The source files: the sorted listing, and what each holds. */
  datatype Tree = Tree(files: seq<string>, sources: map<string, Source>) {

    ghost predicate Valid() {
      && NoDuplicates(files)
      && (forall f :: f in files <==> f in sources)
      && forall f :: f in files ==> IsSourcePath(f)
    }

    function Mods(f: string): seq<string> {
      if f in sources then sources[f].mods else []
    }
  }

  /** A Rust file somewhere under the root. */
  predicate IsSourcePath(f: string) {
    '/' in f && |f| >= 3 && f[|f| - 3..] == ".rs"
  }

  // ---- Paths ----------------------------------------------------------------------------------------

  /** The directory that holds the children of the module in `path`. */
  function ModuleDir(path: string): string {
    var k := BaseAt(path);
    if path[k..] in {"main.rs", "mod.rs", "lib.rs"} then if k == 0 then "" else path[..k - 1]
    else if |path| < 3 then ""
    else path[..|path| - 3]
  }

  function FileModule(d: string, name: string): string {
    d + "/" + (name + ".rs")
  }

  function DirModule(d: string, name: string): string {
    d + "/" + name + "/mod.rs"
  }

  // ---- Reachability ----------------------------------------------------------------------------------

  /** The file `mod name;` in `f` stands for; the file module goes before the directory module. */
  function Target(t: Tree, f: string, name: string): Option<string> {
    var d := ModuleDir(f);
    if FileModule(d, name) in t.sources then Some(FileModule(d, name))
    else if DirModule(d, name) in t.sources then Some(DirModule(d, name))
    else None
  }

  /** One of the first `n` declarations in `f` names `g`. */
  ghost predicate DeclaresWithin(t: Tree, f: string, n: nat, g: string)
    requires n <= |t.Mods(f)|
  {
    exists i :: 0 <= i < n && Target(t, f, t.Mods(f)[i]) == Some(g)
  }

  ghost predicate Declares(t: Tree, f: string, g: string) {
    DeclaresWithin(t, f, |t.Mods(f)|, g)
  }

  lemma DeclaresOneMore(t: Tree, f: string, n: nat)
    requires n < |t.Mods(f)|
    ensures forall g :: DeclaresWithin(t, f, n + 1, g) <==> DeclaresWithin(t, f, n, g) || Target(t, f, t.Mods(f)[n]) == Some(g)
  {
    hide Target;
  }

  lemma NothingWithin(t: Tree, f: string)
    ensures forall g :: !DeclaresWithin(t, f, 0, g)
  {
  }

  lemma DeclaredIsKnown(t: Tree, f: string, g: string)
    requires Declares(t, f, g)
    ensures g in t.sources
  {
  }

  /** A chain of declarations. */
  ghost predicate IsChain(t: Tree, chain: seq<string>) {
    |chain| > 0 && forall i :: 0 < i < |chain| ==> Declares(t, chain[i - 1], chain[i])
  }

  ghost predicate Reachable(t: Tree, root: string, f: string) {
    exists chain :: IsChain(t, chain) && chain[0] == root && chain[|chain| - 1] == f
  }

  lemma RootIsReachable(t: Tree, root: string)
    ensures Reachable(t, root, root)
  {
    assert IsChain(t, [root]);
  }

  lemma DeclaredIsReachable(t: Tree, root: string, f: string, g: string)
    requires Reachable(t, root, f) && Declares(t, f, g)
    ensures Reachable(t, root, g)
  {
    var chain :| IsChain(t, chain) && chain[0] == root && chain[|chain| - 1] == f;
    var longer := chain + [g];
    forall i | 0 < i < |longer| ensures Declares(t, longer[i - 1], longer[i]) {
      if i < |chain| {
        assert Declares(t, chain[i - 1], chain[i]);
      }
    }
    assert IsChain(t, longer);
  }

  /** A set that holds the root and whatever its members declare holds every chain. */
  lemma {:induction false} ClosedHoldsChain(t: Tree, closed: set<string>, chain: seq<string>, i: nat)
    requires IsChain(t, chain) && i < |chain| && chain[0] in closed
    requires forall f, g :: f in closed && Declares(t, f, g) ==> g in closed
    ensures chain[i] in closed
  {
    if i > 0 {
      ClosedHoldsChain(t, closed, chain, i - 1);
      assert Declares(t, chain[i - 1], chain[i]);
    }
  }

  lemma ClosedHoldsReachable(t: Tree, root: string, closed: set<string>)
    requires root in closed
    requires forall f, g :: f in closed && Declares(t, f, g) ==> g in closed
    ensures forall f :: Reachable(t, root, f) ==> f in closed
  {
    forall f | Reachable(t, root, f) ensures f in closed {
      var chain :| IsChain(t, chain) && chain[0] == root && chain[|chain| - 1] == f;
      ClosedHoldsChain(t, closed, chain, |chain| - 1);
    }
  }

  // ---- The same, spelt out in paths ---------------------------------------------------------------------

  /** Names that no ordinary module file may bear. */
  predicate IsReserved(name: string) {
    name == "main" || name == "mod" || name == "lib"
  }

  /**
    The children of the module in `f` are looked up in `m`: for a crate root or a directory
    module that is where the file is, for any other file the path without `.rs`.
   */
  ghost predicate ChildrenIn(f: string, m: string) {
    || f == m + "/main.rs" || f == m + "/mod.rs" || f == m + "/lib.rs"
    || (f == m + ".rs" && exists d, name :: m == d + "/" + name && '/' !in name && !IsReserved(name))
  }

  lemma BaseAtIs(d: string, x: string)
    requires '/' !in x
    ensures BaseAt(d + "/" + x) == |d| + 1
  {
    hide BaseAt;
    SlashStands(d, x);
    BaseIsBehind(d + "/" + x, |d|, BaseAt(d + "/" + x));
  }

  lemma SlashStands(d: string, x: string)
    requires '/' !in x
    ensures var path := d + "/" + x;
      path[|d|] == '/' && forall j :: |d| < j < |path| ==> path[j] != '/'
  {
    var path := d + "/" + x;
    forall j | |d| < j < |path| ensures path[j] != '/' {
      assert path[j] == x[j - |d| - 1];
    }
  }

  /** The last slash fixes where the last component begins. */
  lemma BaseIsBehind(path: string, slash: nat, k: nat)
    requires slash < |path| && path[slash] == '/' && forall j :: slash < j < |path| ==> path[j] != '/'
    requires k <= |path| && '/' !in path[k..] && (k > 0 ==> path[k - 1] == '/')
    ensures k == slash + 1
  {
    var rest := path[k..];
    assert forall j :: k <= j < |path| ==> path[j] == rest[j - k];
  }

  lemma DirOf(d: string, x: string)
    requires '/' !in x && (x in {"main.rs", "mod.rs", "lib.rs"} || |x| >= 3)
    ensures ModuleDir(d + "/" + x) == if x in {"main.rs", "mod.rs", "lib.rs"} then d else d + "/" + x[..|x| - 3]
  {
    BaseAtIs(d, x);
    var path := d + "/" + x;
    assert path[|d| + 1..] == x && path[..|d|] == d;
    assert path[..|path| - 3] == d + "/" + x[..if |x| >= 3 then |x| - 3 else 0] || |x| < 3;
  }

  lemma WithSuffix(d: string, name: string)
    ensures d + "/" + name + ".rs" == d + "/" + (name + ".rs") && (name + ".rs")[..|name|] == name
    ensures name + ".rs" in {"main.rs", "mod.rs", "lib.rs"} <==> IsReserved(name)
    ensures '/' in name + ".rs" <==> '/' in name
    ensures d + "/" + "main.rs" == d + "/main.rs" && d + "/" + "mod.rs" == d + "/mod.rs" && d + "/" + "lib.rs" == d + "/lib.rs"
  {
    var x := name + ".rs";
    assert x[|name|..] == ".rs" && "main.rs"[4..] == "mod.rs"[3..] == "lib.rs"[3..] == ".rs";
    assert "main.rs"[..4] == "main" && "mod.rs"[..3] == "mod" && "lib.rs"[..3] == "lib";
    assert x == "main.rs" ==> |name| == 4 && name == x[..4];
    assert x == "mod.rs" || x == "lib.rs" ==> |name| == 3 && name == x[..3];
    assert forall i :: 0 <= i < |name| ==> x[i] == name[i];
    assert forall i :: |name| <= i < |x| ==> x[i] == ".rs"[i - |name|];
  }

  /** `ModuleDir` is exactly that directory. */
  lemma ModuleDirIff(f: string, m: string)
    requires IsSourcePath(f)
    ensures ModuleDir(f) == m <==> ChildrenIn(f, m)
  {
    if ChildrenIn(f, m) {
      ChildrenAreFound(f, m);
    }
    assert f[0..] == f;
    var k := BaseAt(f);
    var d, x := f[..k - 1], f[k..];
    assert f == d + "/" + x;
    SuffixOfBase(d, x);
    var name := x[..|x| - 3];
    assert x == name + ".rs";
    WithSuffix(d, name);
    DirOf(d, x);
    if !IsReserved(name) {
      assert ModuleDir(f) == d + "/" + name && f == d + "/" + name + ".rs";
    }
  }

  lemma SuffixOfBase(d: string, x: string)
    requires '/' !in x && IsSourcePath(d + "/" + x)
    ensures |x| >= 3 && x[|x| - 3..] == ".rs"
  {
    var f := d + "/" + x;
    var e := f[|f| - 3..];
    assert f[|d|] == '/' && f[|f| - 3] == e[0] && f[|f| - 2] == e[1] && f[|f| - 1] == e[2];
    assert |x| >= 3;
    assert e == x[|x| - 3..];
  }

  lemma ChildrenAreFound(f: string, m: string)
    requires ChildrenIn(f, m)
    ensures ModuleDir(f) == m
  {
    if f == m + "/main.rs" || f == m + "/mod.rs" || f == m + "/lib.rs" {
      var x := if f == m + "/main.rs" then "main.rs" else if f == m + "/mod.rs" then "mod.rs" else "lib.rs";
      WithSuffix(m, "");
      assert f == m + "/" + x && '/' !in x;
      DirOf(m, x);
    } else {
      var d, name :| m == d + "/" + name && '/' !in name && !IsReserved(name);
      WithSuffix(d, name);
      DirOf(d, name + ".rs");
    }
  }

  /** Some `mod n;` in `f` stands for `g`: `m/n.rs` where there is one, else `m/n/mod.rs`, `m` being where the children of `f` are. */
  ghost predicate NamesFile(t: Tree, f: string, g: string) {
    exists m, i :: ChildrenIn(f, m) && 0 <= i < |t.Mods(f)| && StandsFor(t, m, t.Mods(f)[i], g)
  }

  ghost predicate StandsFor(t: Tree, m: string, n: string, g: string) {
    && g in t.sources
    && (g == m + "/" + n + ".rs" || (m + "/" + n + ".rs" !in t.sources && g == m + "/" + n + "/mod.rs"))
  }

  lemma NamesIffDeclares(t: Tree, f: string, g: string)
    requires t.Valid()
    ensures Declares(t, f, g) <==> NamesFile(t, f, g)
  {
    if f in t.sources {
      var d := ModuleDir(f);
      forall m ensures ChildrenIn(f, m) <==> m == d {
        ModuleDirIff(f, m);
      }
      hide ModuleDir;
      hide ChildrenIn;
      forall i | 0 <= i < |t.Mods(f)| ensures Target(t, f, t.Mods(f)[i]) == Some(g) <==> StandsFor(t, d, t.Mods(f)[i], g) {
        TargetStands(t, f, d, t.Mods(f)[i], g);
      }
      hide Target;
      hide StandsFor;
      if i :| 0 <= i < |t.Mods(f)| && Target(t, f, t.Mods(f)[i]) == Some(g) {
        assert ChildrenIn(f, d) && StandsFor(t, d, t.Mods(f)[i], g);
      }
      if m, i :| ChildrenIn(f, m) && 0 <= i < |t.Mods(f)| && StandsFor(t, m, t.Mods(f)[i], g) {
        assert Target(t, f, t.Mods(f)[i]) == Some(g);
      }
    }
  }

  lemma TargetStands(t: Tree, f: string, d: string, n: string, g: string)
    requires d == ModuleDir(f)
    ensures Target(t, f, n) == Some(g) <==> StandsFor(t, d, n, g)
  {
    hide ModuleDir;
    assert d + "/" + n + ".rs" == d + "/" + (n + ".rs");
    assert |d + "/" + n + ".rs"| != |d + "/" + n + "/mod.rs"|;
  }

  /** A chain of `mod` declarations leads from the root to `f`. */
  ghost predicate Reached(t: Tree, root: string, f: string) {
    exists chain: seq<string> ::
      |chain| > 0 && chain[0] == root && chain[|chain| - 1] == f && forall i :: 0 < i < |chain| ==> NamesFile(t, chain[i - 1], chain[i])
  }

  lemma ReachedIffReachable(t: Tree, root: string, f: string)
    requires t.Valid()
    ensures Reached(t, root, f) <==> Reachable(t, root, f)
  {
    forall g, h ensures Declares(t, g, h) <==> NamesFile(t, g, h) {
      NamesIffDeclares(t, g, h);
    }
    hide NamesFile;
    hide Declares;
    if chain :| IsChain(t, chain) && chain[0] == root && chain[|chain| - 1] == f {
      assert forall i :: 0 < i < |chain| ==> Declares(t, chain[i - 1], chain[i]);
    }
    if Reached(t, root, f) {
      var chain: seq<string> :|
        |chain| > 0 && chain[0] == root && chain[|chain| - 1] == f && forall i :: 0 < i < |chain| ==> NamesFile(t, chain[i - 1], chain[i]);
      assert IsChain(t, chain);
    }
  }

  // ---- The walk ----------------------------------------------------------------------------------------

  /** What the walk keeps: it has seen and stacked reachable files only, and forgotten none. */
  ghost predicate WalkKeeps(t: Tree, root: string, seen: set<string>, stack: seq<string>) {
    && seen <= t.sources.Keys
    && (forall f :: f in stack ==> f in t.sources && Reachable(t, root, f))
    && (forall f :: f in seen ==> Reachable(t, root, f))
    && (root in seen || root in stack)
  }

  ghost predicate Settled(t: Tree, f: string, seen: set<string>, stack: seq<string>) {
    forall g :: Declares(t, f, g) ==> g in seen || g in stack
  }

  /** The files the declarations lead to from the crate root, whatever cycles they form. */
  method Walk(t: Tree, root: string) returns (seen: set<string>)
    requires root in t.sources
    ensures forall f :: f in seen <==> Reachable(t, root, f)
    ensures t.Valid() ==> forall f :: f in seen <==> Reached(t, root, f)
    ensures seen <= t.sources.Keys
  {
    hide Reachable;
    hide Reached;
    hide Declares;
    seen := {};
    var stack := [root];
    RootIsReachable(t, root);
    while stack != []
      invariant WalkKeeps(t, root, seen, stack)
      invariant forall f :: f in seen ==> Settled(t, f, seen, stack)
      decreases |t.sources.Keys - seen|, |stack|
    {
      var f := stack[|stack| - 1];
      var rest := stack[..|stack| - 1];
      assert stack == rest + [f];
      stack := rest;
      if f in seen {
        continue;
      }
      assert t.sources.Keys - (seen + {f}) < t.sources.Keys - seen by {
        assert f in t.sources.Keys - seen;
      }
      SmallerSet(t.sources.Keys - (seen + {f}), t.sources.Keys - seen);
      seen := seen + {f};
      stack := PushDeclared(t, root, f, stack);
    }
    ClosedHoldsReachable(t, root, seen);
    AllReachedIff(t, root);
  }

  lemma AllReachedIff(t: Tree, root: string)
    ensures t.Valid() ==> forall f :: Reached(t, root, f) <==> Reachable(t, root, f)
  {
    if t.Valid() {
      forall f ensures Reached(t, root, f) <==> Reachable(t, root, f) {
        ReachedIffReachable(t, root, f);
      }
    }
  }

  lemma SmallerSet(a: set<string>, b: set<string>)
    requires a < b
    ensures |a| < |b|
  {
    assert b == a + (b - a);
  }

  method PushDeclared(t: Tree, root: string, f: string, before: seq<string>) returns (stack: seq<string>)
    requires f in t.sources && Reachable(t, root, f)
    ensures forall g :: g in stack <==> g in before || Declares(t, f, g)
    ensures forall g :: Declares(t, f, g) ==> g in t.sources && Reachable(t, root, g)
  {
    hide DeclaresWithin;
    hide Reachable;
    stack := before;
    var mods := t.sources[f].mods;
    NothingWithin(t, f);
    for n := 0 to |mods|
      invariant forall g :: g in stack <==> g in before || DeclaresWithin(t, f, n, g)
    {
      DeclaresOneMore(t, f, n);
      var d := ModuleDir(f);
      var cand := FileModule(d, mods[n]);
      if cand in t.sources {
        stack := stack + [cand];
      } else {
        cand := DirModule(d, mods[n]);
        if cand in t.sources {
          stack := stack + [cand];
        }
      }
    }
    forall g | Declares(t, f, g) ensures g in t.sources && Reachable(t, root, g) {
      DeclaredIsReachable(t, root, f, g);
      DeclaredIsKnown(t, f, g);
    }
  }

  // ---- The check -----------------------------------------------------------------------------------------

  datatype Problem = InlineTest(file: string, line: nat, name: string, gate: string) | PathAttribute(file: string, line: nat)

  datatype Findings = NoFiles | NoCrateRoot(faults: seq<Problem>) | Checked(faults: seq<Problem>, unreached: seq<string>)

  /** The first gate among the predicates of an inline module. */
  ghost predicate FirstGate(preds: seq<string>, gate: string) {
    exists i :: 0 <= i < |preds| && preds[i] == gate && IsGate(gate) && forall j :: 0 <= j < i ==> !IsGate(preds[j])
  }

  ghost predicate IsFault(t: Tree, p: Problem) {
    && p.file in t.sources
    && match p
       case InlineTest(f, line, name, gate) =>
         exists m <- t.sources[f].inlines :: m.line == line && m.name == name && FirstGate(m.preds, gate)
       case PathAttribute(f, line) => line in t.sources[f].pathLines
  }

  method FileFaults(t: Tree, f: string) returns (faults: seq<Problem>)
    requires f in t.sources
    ensures forall p :: p in faults <==> p.file == f && IsFault(t, p)
  {
    hide IsGate;
    faults := [];
    var inlines, pathLines := t.sources[f].inlines, t.sources[f].pathLines;
    for n := 0 to |inlines|
      invariant forall p :: p in faults <==> (p.InlineTest? && p.file == f
                && exists i :: 0 <= i < n && inlines[i].line == p.line && inlines[i].name == p.name && FirstGate(inlines[i].preds, p.gate))
    {
      var m := inlines[n];
      var gate := TestGate(m.preds);
      if gate.Some? {
        faults := faults + [InlineTest(f, m.line, m.name, m.preds[gate.value])];
      }
    }
    ghost var tests := faults;
    for n := 0 to |pathLines|
      invariant forall p :: p in faults <==> p in tests || (p.PathAttribute? && p.file == f && p.line in pathLines[..n])
    {
      faults := faults + [PathAttribute(f, pathLines[n])];
    }
    assert pathLines[..|pathLines|] == pathLines;
  }

  ghost function Unreachable(t: Tree, root: string): string -> bool {
    f => !Reached(t, root, f)
  }

  /**
    Every inline test module and every path attribute is reported and nothing else is; of the
    files, in their order, exactly those that no chain of declarations from the crate root names.
   */
  method Check(t: Tree, root: string) returns (r: Findings)
    requires t.Valid()
    ensures r.NoFiles? <==> t.files == []
    ensures r.NoCrateRoot? <==> t.files != [] && root !in t.files
    ensures !r.NoFiles? ==> forall p :: p in r.faults <==> IsFault(t, p)
    ensures r.Checked? ==> r.unreached == Filter(t.files, Unreachable(t, root))
  {
    if t.files == [] {
      return NoFiles;
    }
    var faults := AllFaults(t);
    if root !in t.sources {
      return NoCrateRoot(faults);
    }
    var seen := Walk(t, root);
    var unreached := NotIn(t.files, seen);
    hide Reachable;
    hide Reached;
    FilterSame(t.files, Outside(seen), Unreachable(t, root));
    return Checked(faults, unreached);
  }

  method AllFaults(t: Tree) returns (faults: seq<Problem>)
    requires t.Valid()
    ensures forall p: Problem :: p in faults <==> IsFault(t, p)
  {
    faults := [];
    assert forall p: Problem :: IsFault(t, p) ==> p.file in t.files;
    hide IsFault;
    for n := 0 to |t.files|
      invariant forall p :: p in faults <==> p.file in t.files[..n] && IsFault(t, p)
    {
      assert t.files[..n + 1] == t.files[..n] + [t.files[n]];
      var more := FileFaults(t, t.files[n]);
      faults := faults + more;
    }
    assert t.files[..|t.files|] == t.files;
  }

  function Outside(seen: set<string>): string -> bool {
    f => f !in seen
  }

  method NotIn(files: seq<string>, seen: set<string>) returns (unreached: seq<string>)
    ensures unreached == Filter(files, Outside(seen))
  {
    unreached := [];
    for n := 0 to |files|
      invariant unreached == Filter(files[..n], Outside(seen))
    {
      assert files[..n + 1] == files[..n] + [files[n]];
      FilterAppend(files[..n], [files[n]], Outside(seen));
      if files[n] !in seen {
        unreached := unreached + [files[n]];
      }
    }
    assert files[..|files|] == files;
  }

  // ---- A directory module behind a file module ----------------------------------------------------------------

  lemma SlashWithin(a: string, x: string, b: string, y: string)
    requires a + "/" + x == b + "/" + y && |a| < |b|
    ensures '/' in x
  {
    assert x[|b| - |a| - 1] == (a + "/" + x)[|b|] == (b + "/" + y)[|b|];
  }

  lemma LastComponent(a: string, x: string, b: string, y: string)
    requires a + "/" + x == b + "/" + y && '/' !in x && '/' !in y
    ensures a == b && x == y
  {
    var s := a + "/" + x;
    if |a| < |b| {
      SlashWithin(a, x, b, y);
    } else if |b| < |a| {
      SlashWithin(b, y, a, x);
    }
    assert a == s[..|a|] == b && x == s[|a| + 1..] == y;
  }

  /**
    Where both `d/name.rs` and `d/name/mod.rs` exist, the second is reported, unless it is the
    crate root or some file declares a module that is itself called `mod`.
   */
  lemma ShadowedModuleIsReported(t: Tree, root: string, d: string, name: string)
    requires '/' !in name && FileModule(d, name) in t.sources && root != DirModule(d, name)
    requires forall f, i :: 0 <= i < |t.Mods(f)| ==> '/' !in t.Mods(f)[i] && t.Mods(f)[i] != "mod"
    ensures !Reachable(t, root, DirModule(d, name))
  {
    var shadowed := DirModule(d, name);
    if Reachable(t, root, shadowed) {
      var chain :| IsChain(t, chain) && chain[0] == root && chain[|chain| - 1] == shadowed;
      var k := |chain| - 1;
      assert Declares(t, chain[k - 1], chain[k]);
      var i :| 0 <= i < |t.Mods(chain[k - 1])| && Target(t, chain[k - 1], t.Mods(chain[k - 1])[i]) == Some(shadowed);
      NotTheTarget(t, chain[k - 1], t.Mods(chain[k - 1])[i], d, name);
    }
  }

  lemma NotTheTarget(t: Tree, f: string, n: string, d: string, name: string)
    requires '/' !in name && FileModule(d, name) in t.sources && '/' !in n && n != "mod"
    ensures Target(t, f, n) != Some(DirModule(d, name))
  {
    var e := ModuleDir(f);
    assert n == (n + ".rs")[..|n|] && |n| == |n + ".rs"| - 3;
    if FileModule(e, n) == DirModule(d, name) {
      assert d + "/" + name + "/mod.rs" == (d + "/" + name) + "/" + "mod.rs";
      assert '/' !in "mod.rs";
      LastComponent(e, n + ".rs", d + "/" + name, "mod.rs");
    }
    if DirModule(e, n) == DirModule(d, name) {
      assert '/' !in "mod.rs";
      assert DirModule(e, n) == e + "/" + n + "/" + "mod.rs" && DirModule(d, name) == d + "/" + name + "/" + "mod.rs";
      LastComponent(e + "/" + n, "mod.rs", d + "/" + name, "mod.rs");
      LastComponent(e, n, d, name);
    }
  }
}
