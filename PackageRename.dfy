/**
 * Renaming a package, as the Go loops do it (renamePackage,
 * renamePackageClause, renameImports): a shared edits map and a shared
 * seenPackageRename set are updated in place while walking the metadata, the
 * files and the imports. Each method is proved against the plan functions of
 * PackagePlan.dfy.
 */
module PackageRename {
  import opened Text
  import opened Model
  import opened SymbolRename
  import opened Seen
  import opened PackagePlan

  /** The edits map renamePackage fills in. */
  class WorkspaceEdits {
    var byFile: FileEdits

    constructor ()
      ensures byFile == map[]
    {
      byFile := map[];
    }

    /** `edits[u] = append(edits[u], e)` */
    method Append(u: Uri, e: Edit)
      modifies this
      ensures byFile == AddEdit(old(byFile), u, e)
    {
      byFile := AddEdit(byFile, u, e);
    }

    /** `for uri, es := range ch { edits[uri] = append(edits[uri], es...) }`, in any order of the files. */
    method AppendAll(ch: FileEdits)
      modifies this
      ensures byFile == MergeEdits(old(byFile), ch)
    {
      var todo := ch.Keys;
      ghost var d: FileEdits := map[];
      MergeNothing(byFile);
      while todo != {}
        invariant todo <= ch.Keys
        invariant d.Keys == ch.Keys - todo
        invariant forall v :: v in d ==> d[v] == ch[v]
        invariant byFile == MergeEdits(old(byFile), d)
        decreases |todo|
      {
        var u :| u in todo;
        MergeSnoc(old(byFile), d, u, ch[u]);
        byFile := byFile[u := EditsOf(byFile, u) + ch[u]];
        d := d[u := ch[u]];
        todo := todo - {u};
      }
      assert d == ch;
    }
  }

  /** The try++ loop: the new name, or the new name followed by 1, 2, ... until neither scope binds it. */
  method ChooseLocalName(newName: string, fileScope: set<string>, pkgScope: set<string>) returns (localName: string)
    ensures localName == FreshLocalName(newName, fileScope, pkgScope)
  {
    ghost var taken := fileScope + pkgScope;
    localName := newName;
    var attempt: nat := 0;
    assert Candidate(newName, 0) == newName;
    while localName in fileScope || localName in pkgScope
      invariant localName == Candidate(newName, attempt)
      invariant FreshFrom(newName, taken, 0) == FreshFrom(newName, taken, attempt)
      decreases |TakenFrom(newName, taken, attempt)|
    {
      TakenFromShrinks(newName, taken, attempt);
      attempt := attempt + 1;
      localName := newName + Dec(attempt);
    }
  }

  /** The local renaming of one import (the body of the import loop after the path edit). */
  method RenameAlias(m: Metadata, dep: Package, f: GoFile, imp: ImportDecl, newName: string) returns (a: Result<Option<Alias>>)
    ensures a == AliasFor(m, dep, f, imp, newName)
  {
    if newName == m.name || imp.named {
      return Ok(None);
    }
    var localName := ChooseLocalName(newName, f.scope, dep.scope);
    var changes := RenameObj(localName, imp.implicit, imp.implicitRefs, false);
    if changes.Err? {
      return Err(changes.error);
    }
    var ch := changes.value;
    if localName == newName {
      var v := EditsOf(ch, f.uri);
      if |v| == 0 {
        return Err(AliasEditMissing(f.uri));
      }
      var sorted := SortByRange(v);
      ch := ch[f.uri := sorted[1..]];
    }
    return Ok(Some(Alias(localName, ch)));
  }

  /** One file of renamePackageClause: mark it seen, and rewrite its package clause the first time. */
  method RenameClauseInFile(m: Metadata, f: GoFile, text: string, seen: SeenPackageRename, edits: WorkspaceEdits)
    returns (wasSeen: bool)
    modifies seen, edits
    ensures wasSeen <==> SeenKey(f.uri, m.path) in old(seen.Keys())
    ensures seen.Keys() == old(seen.Keys()) + {SeenKey(f.uri, m.path)}
    ensures wasSeen ==> seen.Keys() == old(seen.Keys()) && edits.byFile == old(edits.byFile)
    ensures !wasSeen ==> edits.byFile == ApplyVisit(old(edits.byFile), ClauseVisit(m, f, text))
  {
    wasSeen := seen.Add(f.uri, m.path);
    if !wasSeen && f.clause.Some? {
      edits.Append(f.uri, Edit(f.clause.value.start, f.clause.value.end, text));
    }
  }

  /** renamePackageClause. */
  method RenamePackageClause(s: Snapshot, m: Metadata, text: string, seen: SeenPackageRename, edits: WorkspaceEdits)
    returns (err: Option<Error>)
    modifies seen, edits
    ensures var p := ClausePlan(s, m, text, old(seen.Keys()));
            && (p.Err? ==> err == Some(p.error))
            && (p.Ok? ==> err.None? && seen.Keys() == p.value.seen && edits.byFile == RealizeFrom(old(edits.byFile), p.value.visits))
  {
    if m.id !in s.packages {
      return Some(PackageUnavailable(m.id));
    }
    var files := s.packages[m.id].files;
    ghost var e0 := edits.byFile;
    ghost var done: seq<Visit> := [];
    ghost var cur := seen.Keys();
    var i := 0;
    while i < |files|
      invariant 0 <= i <= |files|
      invariant seen.Keys() == cur
      invariant var r := ClauseFrom(m, files, i, text, cur);
                ClauseFrom(m, files, 0, text, old(seen.Keys())) == PlanSt(done + r.visits, r.seen)
      invariant edits.byFile == RealizeFrom(e0, done)
    {
      var f := files[i];
      ghost var key := SeenKey(f.uri, m.path);
      var v := ClauseVisit(m, f, text);
      var wasSeen := RenameClauseInFile(m, f, text, seen, edits);
      if wasSeen {
        assert key in cur;
        assert ClauseFrom(m, files, i, text, cur) == ClauseFrom(m, files, i + 1, text, cur);
      } else {
        assert key !in cur;
        ghost var r := ClauseFrom(m, files, i + 1, text, cur + {key});
        assert ClauseFrom(m, files, i, text, cur) == PlanSt([v] + r.visits, r.seen);
        assert done + ([v] + r.visits) == (done + [v]) + r.visits;
        RealizeSnoc(e0, done, v);
        done := done + [v];
        cur := cur + {key};
      }
      i := i + 1;
    }
    assert done + [] == done;
    return None;
  }

  /** One import of m's path: rewrite the path, then add the alias when one is needed. */
  method RenameImport(m: Metadata, dep: Package, f: GoFile, imp: ImportDecl, newPath: string, newName: string, edits: WorkspaceEdits)
    returns (a: Result<Option<Alias>>)
    modifies edits
    ensures a == AliasFor(m, dep, f, imp, newName)
    ensures a.Ok? ==> edits.byFile == ApplyStep(old(edits.byFile), f.uri, ImportStep(imp, newPath, a.value))
  {
    edits.Append(f.uri, Edit(imp.pathRange.start, imp.pathRange.end, Quote(newPath)));
    a := RenameAlias(m, dep, f, imp, newName);
    if a.Ok? && a.value.Some? {
      edits.AppendAll(a.value.value.changes);
    }
  }

  /** The import loop over one file: each import of m's path gets its path rewritten and, when needed, a local renaming. */
  method RenameImportsInFile(m: Metadata, dep: Package, f: GoFile, newPath: string, newName: string, edits: WorkspaceEdits)
    returns (err: Option<Error>)
    modifies edits
    ensures var p := StepsFrom(m, dep, f, 0, newPath, newName);
            && (p.Err? ==> err == Some(p.error))
            && (p.Ok? ==> err.None? && edits.byFile == ApplySteps(old(edits.byFile), f.uri, p.value))
  {
    ghost var e0 := edits.byFile;
    ghost var done: seq<ImportStep> := [];
    var k := 0;
    assert StepsFrom(m, dep, f, 0, newPath, newName) == ThenSteps(done, StepsFrom(m, dep, f, 0, newPath, newName)) by {
      ThenStepsNil(StepsFrom(m, dep, f, 0, newPath, newName));
    }
    while k < |f.imports|
      invariant 0 <= k <= |f.imports|
      invariant StepsFrom(m, dep, f, 0, newPath, newName) == ThenSteps(done, StepsFrom(m, dep, f, k, newPath, newName))
      invariant edits.byFile == ApplySteps(e0, f.uri, done)
    {
      var imp := f.imports[k];
      if imp.path != m.path {
        k := k + 1;
        continue;
      }
      var a := RenameImport(m, dep, f, imp, newPath, newName, edits);
      if a.Err? {
        return Some(a.error);
      }
      var st := ImportStep(imp, newPath, a.value);
      ApplyStepsSnoc(e0, f.uri, done, st);
      ThenStepsThenSteps(done, [st], StepsFrom(m, dep, f, k + 1, newPath, newName));
      done := done + [st];
      k := k + 1;
    }
    assert done + [] == done;
    return None;
  }

  /** The file loop over one reverse dependency. */
  method RenameImportsInPackage(m: Metadata, dep: Package, newPath: string, newName: string, seen: SeenPackageRename, edits: WorkspaceEdits)
    returns (err: Option<Error>)
    modifies seen, edits
    ensures var p := FilesFrom(m, dep, 0, newPath, newName, old(seen.Keys()));
            && (p.Err? ==> err == Some(p.error))
            && (p.Ok? ==> err.None? && seen.Keys() == p.value.seen && edits.byFile == RealizeFrom(old(edits.byFile), p.value.visits))
  {
    ghost var e0 := edits.byFile;
    ghost var done: seq<Visit> := [];
    var i := 0;
    ThenStNil(FilesFrom(m, dep, 0, newPath, newName, seen.Keys()));
    while i < |dep.files|
      invariant 0 <= i <= |dep.files|
      invariant FilesFrom(m, dep, 0, newPath, newName, old(seen.Keys())) == ThenSt(done, FilesFrom(m, dep, i, newPath, newName, seen.Keys()))
      invariant edits.byFile == RealizeFrom(e0, done)
    {
      var f := dep.files[i];
      ghost var keys := seen.Keys();
      var wasSeen := seen.Add(f.uri, m.path);
      if wasSeen {
        i := i + 1;
        continue;
      }
      ghost var before := edits.byFile;
      err := RenameImportsInFile(m, dep, f, newPath, newName, edits);
      if err.Some? {
        return;
      }
      var v := ImportVisit(m, dep, f, StepsFrom(m, dep, f, 0, newPath, newName).value);
      RealizeSnoc(e0, done, v);
      ThenStThenSt(done, [v], FilesFrom(m, dep, i + 1, newPath, newName, keys + {SeenKey(f.uri, m.path)}));
      done := done + [v];
      i := i + 1;
    }
    assert done + [] == done;
    return None;
  }

  /** renameImports. */
  method RenameImports(s: Snapshot, m: Metadata, newPath: string, newName: string, seen: SeenPackageRename, edits: WorkspaceEdits)
    returns (err: Option<Error>)
    modifies seen, edits
    ensures var p := ImportsPlan(s, m, newPath, newName, old(seen.Keys()));
            && (p.Err? ==> err == Some(p.error))
            && (p.Ok? ==> err.None? && seen.Keys() == p.value.seen && edits.byFile == RealizeFrom(old(edits.byFile), p.value.visits))
  {
    if m.id !in s.rdeps {
      return Some(ReverseDepsUnavailable(m.id));
    }
    var deps := s.rdeps[m.id];
    ghost var e0 := edits.byFile;
    ghost var done: seq<Visit> := [];
    var j := 0;
    ThenStNil(DepsFrom(m, deps, 0, newPath, newName, seen.Keys()));
    while j < |deps|
      invariant 0 <= j <= |deps|
      invariant DepsFrom(m, deps, 0, newPath, newName, old(seen.Keys())) == ThenSt(done, DepsFrom(m, deps, j, newPath, newName, seen.Keys()))
      invariant edits.byFile == RealizeFrom(e0, done)
    {
      var dep := deps[j];
      if !dep.fullParse {
        j := j + 1;
        continue;
      }
      ghost var p := FilesFrom(m, dep, 0, newPath, newName, seen.Keys());
      ghost var before := edits.byFile;
      err := RenameImportsInPackage(m, dep, newPath, newName, seen, edits);
      if err.Some? {
        return;
      }
      RealizeAppend(e0, done, p.value.visits);
      ThenStThenSt(done, p.value.visits, DepsFrom(m, deps, j + 1, newPath, newName, p.value.seen));
      done := done + p.value.visits;
      j := j + 1;
    }
    assert done + [] == done;
    return None;
  }

  /** The body of renamePackage's loop for one metadata entry. */
  method RenameForMetadata(s: Snapshot, modulePath: string, oldPath: string, newName: string, m: Metadata,
                           seen: SeenPackageRename, edits: WorkspaceEdits)
    returns (err: Option<Error>)
    modifies seen, edits
    ensures var p := MetaStep(s, modulePath, oldPath, newName, m, old(seen.Keys()));
            && (p.Err? ==> err == Some(p.error))
            && (p.Ok? ==> err.None? && seen.Keys() == p.value.seen && edits.byFile == RealizeFrom(old(edits.byFile), p.value.visits))
  {
    if m.path == oldPath + "_test" {
      err := RenamePackageClause(s, m, newName + "_test", seen, edits);
      return;
    }
    if !HasPrefix(m.path + "/", oldPath + "/") {
      return None;
    }
    if m.modulePath.None? {
      return Some(MissingModuleInfo(m.path));
    }
    if modulePath != m.modulePath.value {
      return None;
    }
    var suffix := TrimPrefix(m.path, oldPath);
    var newPath := Join(Dir(oldPath), newName) + suffix;
    assert newPath == NewImportPath(oldPath, newName, m.path);
    var pkgName := m.name;
    ghost var c: Result<PlanSt> := Ok(PlanSt([], seen.Keys()));
    if m.path == oldPath {
      pkgName := newName;
      c := ClausePlan(s, m, newName, seen.Keys());
      err := RenamePackageClause(s, m, newName, seen, edits);
      if err.Some? {
        return;
      }
    }
    ghost var mid := edits.byFile;
    err := RenameImports(s, m, newPath, pkgName, seen, edits);
    if err.None? {
      ghost var r := ImportsPlan(s, m, newPath, pkgName, c.value.seen);
      RealizeAppend(old(edits.byFile), c.value.visits, r.value.visits);
      if m.path != oldPath {
        assert [] + r.value.visits == r.value.visits;
      }
    }
  }

  /** renamePackage: the edits renaming the package at oldPath to newName, given all valid metadata. */
  method RenamePackage(s: Snapshot, modulePath: string, oldPath: string, newName: string, metas: seq<Metadata>)
    returns (res: Result<FileEdits>)
    ensures res == RenamePackageSpec(s, modulePath, oldPath, newName, metas)
  {
    if modulePath == oldPath {
      return Err(ModuleIsPackage(modulePath));
    }
    var edits := new WorkspaceEdits();
    var seen := new SeenPackageRename();
    ghost var done: seq<Visit> := [];
    var i := 0;
    ThenVisitsNil(MetaFrom(s, modulePath, oldPath, newName, metas, 0, {}));
    while i < |metas|
      invariant 0 <= i <= |metas|
      invariant MetaFrom(s, modulePath, oldPath, newName, metas, 0, {}) == ThenVisits(done, MetaFrom(s, modulePath, oldPath, newName, metas, i, seen.Keys()))
      invariant edits.byFile == RealizeFrom(map[], done)
    {
      ghost var p := MetaStep(s, modulePath, oldPath, newName, metas[i], seen.Keys());
      var err := RenameForMetadata(s, modulePath, oldPath, newName, metas[i], seen, edits);
      if err.Some? {
        return Err(err.value);
      }
      RealizeAppend(map[], done, p.value.visits);
      ThenVisitsThenVisits(done, p.value.visits, MetaFrom(s, modulePath, oldPath, newName, metas, i + 1, p.value.seen));
      done := done + p.value.visits;
      i := i + 1;
    }
    assert done + [] == done;
    return Ok(edits.byFile);
  }

  lemma MergeSnoc(m: FileEdits, d: FileEdits, u: Uri, es: seq<Edit>)
    requires u !in d
    ensures MergeEdits(m, d[u := es]) == MergeEdits(m, d)[u := EditsOf(MergeEdits(m, d), u) + es]
  {
    var mid := MergeEdits(m, d);
    var lhs := MergeEdits(m, d[u := es]);
    var rhs := mid[u := EditsOf(mid, u) + es];
    forall v ensures (v in lhs <==> v in rhs) && EditsOf(lhs, v) == EditsOf(rhs, v) {
      if v == u {
        assert EditsOf(d, u) == [];
        assert EditsOf(m, u) + [] == EditsOf(m, u);
      } else {
        assert EditsOf(d[u := es], v) == EditsOf(d, v);
      }
    }
    SameFileEdits(lhs, rhs);
  }

  /** Two edit maps with the same files and the same edits of each file are equal. */
  lemma SameFileEdits(a: FileEdits, b: FileEdits)
    requires forall v :: (v in a <==> v in b) && EditsOf(a, v) == EditsOf(b, v)
    ensures a == b
  {
    forall v | v in a ensures a[v] == b[v] {
      assert a[v] == EditsOf(a, v);
    }
    assert a.Keys == b.Keys;
  }

  lemma MergeNothing(m: FileEdits)
    ensures MergeEdits(m, map[]) == m
  {
    forall u | u in m ensures MergeEdits(m, map[])[u] == m[u] {
      assert EditsOf(m, u) + [] == m[u];
    }
  }

  lemma ThenStepsNil(r: Result<seq<ImportStep>>)
    ensures ThenSteps([], r) == r
  {
    if r.Ok? {
      assert [] + r.value == r.value;
    }
  }

  lemma ThenStepsThenSteps(a: seq<ImportStep>, b: seq<ImportStep>, r: Result<seq<ImportStep>>)
    ensures ThenSteps(a, ThenSteps(b, r)) == ThenSteps(a + b, r)
  {
    if r.Ok? {
      assert a + (b + r.value) == (a + b) + r.value;
    }
  }

  lemma ThenStNil(r: Result<PlanSt>)
    ensures ThenSt([], r) == r
  {
    if r.Ok? {
      assert [] + r.value.visits == r.value.visits;
    }
  }

  lemma ThenStThenSt(a: seq<Visit>, b: seq<Visit>, r: Result<PlanSt>)
    ensures ThenSt(a, ThenSt(b, r)) == ThenSt(a + b, r)
  {
    if r.Ok? {
      assert a + (b + r.value.visits) == (a + b) + r.value.visits;
    }
  }

  lemma ThenVisitsNil(r: Result<seq<Visit>>)
    ensures ThenVisits([], r) == r
  {
    if r.Ok? {
      assert [] + r.value == r.value;
    }
  }

  lemma ThenVisitsThenVisits(a: seq<Visit>, b: seq<Visit>, r: Result<seq<Visit>>)
    ensures ThenVisits(a, ThenVisits(b, r)) == ThenVisits(a + b, r)
  {
    if r.Ok? {
      assert a + (b + r.value) == (a + b) + r.value;
    }
  }
}
