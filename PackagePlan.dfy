/**
 * What renaming a package computes (renamePackage, renamePackageClause,
 * renameImports), stated as functions.
 *
 * The functions build a plan: the sequence of file visits the Go loops make,
 * one per (file, import path) pair that the seen set lets through, each with
 * what it writes. Realize turns a plan into the edits map, in the same order
 * the loops append edits. The imperative version in PackageRename.dfy is
 * proved to compute Realize of this plan; the lemmas below say what the plan
 * contains.
 */
module PackagePlan {
  import opened Text
  import opened Model
  import opened Synthesis
  import opened SymbolRename
  import opened Seen

  // ---------------------------------------------------------------------
  // Import-path arithmetic
  // ---------------------------------------------------------------------

  /** A package is affected by renaming oldPath when oldPath is a `/`-delimited prefix of its path. */
  predicate IsAffected(p: string, oldPath: string) {
    HasPrefix(p + "/", oldPath + "/")
  }

  /** Join(Dir(oldPath), newName): the new import path of the renamed package. */
  function NewPathPrefix(oldPath: string, newName: string): string {
    Join(Dir(oldPath), newName)
  }

  /** The new import path of package path p: the new prefix followed by what p has beyond oldPath. */
  function NewImportPath(oldPath: string, newName: string, p: string): string {
    NewPathPrefix(oldPath, newName) + TrimPrefix(p, oldPath)
  }

  // ---------------------------------------------------------------------
  // Sorting a file's edits by range (sort.Slice with protocol.CompareRange)
  // ---------------------------------------------------------------------

  /** a's range does not come after b's: ranges compare by start, then by end. */
  predicate RangeLeq(a: Edit, b: Edit) {
    a.start < b.start || (a.start == b.start && a.end <= b.end)
  }

  predicate SortedByRange(s: seq<Edit>) {
    forall i, j :: 0 <= i < j < |s| ==> RangeLeq(s[i], s[j])
  }

  function InsertByRange(e: Edit, s: seq<Edit>): seq<Edit>
    decreases |s|
  {
    if s == [] then [e]
    else if RangeLeq(e, s[0]) then [e] + s
    else [s[0]] + InsertByRange(e, s[1..])
  }

  lemma SortedCons(x: Edit, t: seq<Edit>)
    requires SortedByRange(t)
    requires forall k :: 0 <= k < |t| ==> RangeLeq(x, t[k])
    ensures SortedByRange([x] + t)
  {
    var r := [x] + t;
    forall a, b | 0 <= a < b < |r| ensures RangeLeq(r[a], r[b]) {
      assert r[b] == t[b - 1];
      if a > 0 {
        assert r[a] == t[a - 1];
      }
    }
  }

  lemma {:induction false} InsertByRangeOk(e: Edit, s: seq<Edit>)
    requires SortedByRange(s)
    ensures multiset(InsertByRange(e, s)) == multiset(s) + multiset{e}
    ensures SortedByRange(InsertByRange(e, s))
    decreases |s|
  {
    if s == [] {
    } else if RangeLeq(e, s[0]) {
      SortedCons(e, s);
    } else {
      var t := InsertByRange(e, s[1..]);
      InsertByRangeOk(e, s[1..]);
      assert s == [s[0]] + s[1..];
      forall k | 0 <= k < |t| ensures RangeLeq(s[0], t[k]) {
        assert t[k] in multiset(t);
        if t[k] != e {
          assert t[k] in multiset(s[1..]);
          var j :| 0 <= j < |s[1..]| && s[1..][j] == t[k];
          assert s[j + 1] == t[k];
        }
      }
      SortedCons(s[0], t);
    }
  }

  /** The edits of s ordered by range; edits with equal ranges keep their relative order. */
  function SortByRange(s: seq<Edit>): (r: seq<Edit>)
    ensures multiset(r) == multiset(s)
    ensures SortedByRange(r)
    decreases |s|
  {
    if s == [] then []
    else
      var t := SortByRange(s[1..]);
      InsertByRangeOk(s[0], t);
      assert s == [s[0]] + s[1..];
      InsertByRange(s[0], t)
  }

  /**
   * `v := changes[u]; sort v; changes[u] = v[1:]`: drops the lexically first
   * edit of file u. Slicing an empty list panics in Go; here it is an error.
   */
  function DropFirstEdit(changes: FileEdits, u: Uri): Result<FileEdits> {
    var v := EditsOf(changes, u);
    if v == [] then Err(AliasEditMissing(u))
    else Ok(changes[u := SortByRange(v)[1..]])
  }

  // ---------------------------------------------------------------------
  // Plans
  // ---------------------------------------------------------------------

  /** The local name an import receives and the edits renaming it (renameObj's result, possibly with one edit dropped). */
  datatype Alias = Alias(local: string, changes: FileEdits)

  /** One import of the renamed package found in a file: the new path literal, and the local renaming if any. */
  datatype ImportStep = ImportStep(imp: ImportDecl, newPath: string, alias: Option<Alias>)

  datatype Visit =
      /** A file of package m whose package clause becomes `text`. */
    | ClauseVisit(m: Metadata, f: GoFile, text: string)
      /** A file of reverse dependency dep whose imports of package m are rewritten. */
    | ImportVisit(m: Metadata, dep: Package, f: GoFile, steps: seq<ImportStep>)

  /** The seen-set key of a visit. */
  function Key(v: Visit): SeenKey {
    SeenKey(v.f.uri, v.m.path)
  }

  /** A fragment of a plan and the seen set after it. */
  datatype PlanSt = PlanSt(visits: seq<Visit>, seen: set<SeenKey>)

  function ThenSt(done: seq<Visit>, r: Result<PlanSt>): Result<PlanSt> {
    match r
    case Err(e) => Err(e)
    case Ok(p) => Ok(PlanSt(done + p.visits, p.seen))
  }

  function ThenVisits(done: seq<Visit>, r: Result<seq<Visit>>): Result<seq<Visit>> {
    match r
    case Err(e) => Err(e)
    case Ok(vs) => Ok(done + vs)
  }

  function ThenSteps(done: seq<ImportStep>, r: Result<seq<ImportStep>>): Result<seq<ImportStep>> {
    match r
    case Err(e) => Err(e)
    case Ok(ss) => Ok(done + ss)
  }

  // ----- renamePackageClause -----

  /** The files files[i..] of package m that the seen set lets through. */
  function ClauseFrom(m: Metadata, files: seq<GoFile>, i: nat, text: string, seen: set<SeenKey>): PlanSt
    decreases |files| - i
  {
    if i >= |files| then PlanSt([], seen)
    else
      var key := SeenKey(files[i].uri, m.path);
      if key in seen then ClauseFrom(m, files, i + 1, text, seen)
      else
        var r := ClauseFrom(m, files, i + 1, text, seen + {key});
        PlanSt([ClauseVisit(m, files[i], text)] + r.visits, r.seen)
  }

  /** renamePackageClause: the workspace package of m must be available. */
  function ClausePlan(s: Snapshot, m: Metadata, text: string, seen: set<SeenKey>): Result<PlanSt> {
    if m.id !in s.packages then Err(PackageUnavailable(m.id))
    else Ok(ClauseFrom(m, s.packages[m.id].files, 0, text, seen))
  }

  // ----- renameImports -----

  /**
   * The local renaming of an unnamed import of m in file f of dep, when the
   * package name changes: a fresh local name, the edits renaming the
   * implicit PkgName to it, and without the inserted explicit name when the
   * local name is the package's new name.
   */
  function AliasFor(m: Metadata, dep: Package, f: GoFile, imp: ImportDecl, newName: string): Result<Option<Alias>> {
    if newName == m.name || imp.named then Ok(None)
    else
      var local := FreshLocalName(newName, f.scope, dep.scope);
      match RenameObjSpec(local, imp.implicit, imp.implicitRefs, false)
      case Err(e) => Err(e)
      case Ok(ch) =>
        if local == newName then
          (match DropFirstEdit(ch, f.uri)
           case Err(e) => Err(e)
           case Ok(ch') => Ok(Some(Alias(local, ch'))))
        else Ok(Some(Alias(local, ch)))
  }

  /** The imports f.imports[k..] of m's path, each with its rewrite. */
  function StepsFrom(m: Metadata, dep: Package, f: GoFile, k: nat, newPath: string, newName: string): Result<seq<ImportStep>>
    decreases |f.imports| - k
  {
    if k >= |f.imports| then Ok([])
    else
      var imp := f.imports[k];
      if imp.path != m.path then StepsFrom(m, dep, f, k + 1, newPath, newName)
      else
        match AliasFor(m, dep, f, imp, newName)
        case Err(e) => Err(e)
        case Ok(a) => ThenSteps([ImportStep(imp, newPath, a)], StepsFrom(m, dep, f, k + 1, newPath, newName))
  }

  /** The files dep.files[i..] that the seen set lets through, each with its imports of m. */
  function FilesFrom(m: Metadata, dep: Package, i: nat, newPath: string, newName: string, seen: set<SeenKey>): Result<PlanSt>
    decreases |dep.files| - i
  {
    if i >= |dep.files| then Ok(PlanSt([], seen))
    else
      var f := dep.files[i];
      var key := SeenKey(f.uri, m.path);
      if key in seen then FilesFrom(m, dep, i + 1, newPath, newName, seen)
      else
        match StepsFrom(m, dep, f, 0, newPath, newName)
        case Err(e) => Err(e)
        case Ok(steps) => ThenSt([ImportVisit(m, dep, f, steps)], FilesFrom(m, dep, i + 1, newPath, newName, seen + {key}))
  }

  /** The reverse dependencies deps[j..]; those not fully parsed are skipped. */
  function DepsFrom(m: Metadata, deps: seq<Package>, j: nat, newPath: string, newName: string, seen: set<SeenKey>): Result<PlanSt>
    decreases |deps| - j
  {
    if j >= |deps| then Ok(PlanSt([], seen))
    else if !deps[j].fullParse then DepsFrom(m, deps, j + 1, newPath, newName, seen)
    else
      match FilesFrom(m, deps[j], 0, newPath, newName, seen)
      case Err(e) => Err(e)
      case Ok(r) => ThenSt(r.visits, DepsFrom(m, deps, j + 1, newPath, newName, r.seen))
  }

  /** renameImports: the reverse dependencies of m must be available. */
  function ImportsPlan(s: Snapshot, m: Metadata, newPath: string, newName: string, seen: set<SeenKey>): Result<PlanSt> {
    if m.id !in s.rdeps then Err(ReverseDepsUnavailable(m.id))
    else DepsFrom(m, s.rdeps[m.id], 0, newPath, newName, seen)
  }

  // ----- renamePackage -----

  /**
   * The work for one metadata entry: the package clause of the external
   * test variant; nothing for an unaffected package; an error when an
   * affected package lacks module information; nothing for an affected
   * package of another module; otherwise the package clause (for the
   * renamed package itself) and the imports of the package.
   */
  function MetaStep(s: Snapshot, modulePath: string, oldPath: string, newName: string, m: Metadata, seen: set<SeenKey>): Result<PlanSt> {
    if m.path == oldPath + "_test" then ClausePlan(s, m, newName + "_test", seen)
    else if !IsAffected(m.path, oldPath) then Ok(PlanSt([], seen))
    else if m.modulePath.None? then Err(MissingModuleInfo(m.path))
    else if modulePath != m.modulePath.value then Ok(PlanSt([], seen))
    else
      var newPath := NewImportPath(oldPath, newName, m.path);
      if m.path == oldPath then
        match ClausePlan(s, m, newName, seen)
        case Err(e) => Err(e)
        case Ok(c) => ThenSt(c.visits, ImportsPlan(s, m, newPath, newName, c.seen))
      else ImportsPlan(s, m, newPath, m.name, seen)
  }

  /** The work for the metadata entries metas[i..]. */
  function MetaFrom(s: Snapshot, modulePath: string, oldPath: string, newName: string, metas: seq<Metadata>, i: nat, seen: set<SeenKey>): Result<seq<Visit>>
    decreases |metas| - i
  {
    if i >= |metas| then Ok([])
    else
      match MetaStep(s, modulePath, oldPath, newName, metas[i], seen)
      case Err(e) => Err(e)
      case Ok(r) => ThenVisits(r.visits, MetaFrom(s, modulePath, oldPath, newName, metas, i + 1, r.seen))
  }

  /** renamePackage's plan: nothing when the package is the module root, else the walk over all metadata. */
  function Plan(s: Snapshot, modulePath: string, oldPath: string, newName: string, metas: seq<Metadata>): Result<seq<Visit>> {
    if modulePath == oldPath then Err(ModuleIsPackage(modulePath))
    else MetaFrom(s, modulePath, oldPath, newName, metas, 0, {})
  }

  // ---------------------------------------------------------------------
  // From a plan to the edits map
  // ---------------------------------------------------------------------

  /** The edit rewriting an import's path literal. */
  function PathEdit(st: ImportStep): Edit {
    Edit(st.imp.pathRange.start, st.imp.pathRange.end, Quote(st.newPath))
  }

  /** The path edit, appended to file u, then the local renaming merged in. */
  function ApplyStep(acc: FileEdits, u: Uri, st: ImportStep): FileEdits {
    var a := AddEdit(acc, u, PathEdit(st));
    if st.alias.Some? then MergeEdits(a, st.alias.value.changes) else a
  }

  function ApplySteps(acc: FileEdits, u: Uri, steps: seq<ImportStep>): FileEdits
    decreases |steps|
  {
    if steps == [] then acc else ApplySteps(ApplyStep(acc, u, steps[0]), u, steps[1..])
  }

  function ApplyVisit(acc: FileEdits, v: Visit): FileEdits {
    match v
    case ClauseVisit(m, f, text) =>
      if f.clause.Some? then AddEdit(acc, f.uri, Edit(f.clause.value.start, f.clause.value.end, text)) else acc
    case ImportVisit(m, dep, f, steps) => ApplySteps(acc, f.uri, steps)
  }

  function RealizeFrom(acc: FileEdits, vs: seq<Visit>): FileEdits
    decreases |vs|
  {
    if vs == [] then acc else RealizeFrom(ApplyVisit(acc, vs[0]), vs[1..])
  }

  /** What renamePackage returns. */
  function RenamePackageSpec(s: Snapshot, modulePath: string, oldPath: string, newName: string, metas: seq<Metadata>): Result<FileEdits> {
    match Plan(s, modulePath, oldPath, newName, metas)
    case Err(e) => Err(e)
    case Ok(vs) => Ok(RealizeFrom(map[], vs))
  }

  lemma {:induction false} RealizeSnoc(acc: FileEdits, vs: seq<Visit>, v: Visit)
    ensures RealizeFrom(acc, vs + [v]) == ApplyVisit(RealizeFrom(acc, vs), v)
    decreases |vs|
  {
    if vs == [] {
      assert [v][1..] == [];
    } else {
      assert (vs + [v])[0] == vs[0];
      assert (vs + [v])[1..] == vs[1..] + [v];
      RealizeSnoc(ApplyVisit(acc, vs[0]), vs[1..], v);
    }
  }

  lemma {:induction false} RealizeAppend(acc: FileEdits, a: seq<Visit>, b: seq<Visit>)
    ensures RealizeFrom(acc, a + b) == RealizeFrom(RealizeFrom(acc, a), b)
    decreases |a|
  {
    if a == [] {
      assert a + b == b;
    } else {
      assert (a + b)[0] == a[0];
      assert (a + b)[1..] == a[1..] + b;
      RealizeAppend(ApplyVisit(acc, a[0]), a[1..], b);
    }
  }

  lemma {:induction false} ApplyStepsSnoc(acc: FileEdits, u: Uri, ss: seq<ImportStep>, st: ImportStep)
    ensures ApplySteps(acc, u, ss + [st]) == ApplyStep(ApplySteps(acc, u, ss), u, st)
    decreases |ss|
  {
    if ss == [] {
      assert [st][1..] == [];
    } else {
      assert (ss + [st])[0] == ss[0];
      assert (ss + [st])[1..] == ss[1..] + [st];
      ApplyStepsSnoc(ApplyStep(acc, u, ss[0]), u, ss[1..], st);
    }
  }
}
