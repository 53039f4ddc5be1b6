/**
 * What the package-rename plan of PackagePlan.dfy guarantees: which
 * packages are affected and what their new paths are, that every
 * (file, import path) pair is visited at most once and every pair that must
 * be visited is, what each visit rewrites, which errors can stop the rename,
 * and what the dropped alias edit is.
 */
module PackageProps {
  import opened Text
  import opened Model
  import opened Synthesis
  import opened SymbolRename
  import opened Seen
  import opened PackagePlan

  // ---------------------------------------------------------------------
  // Affected packages and their new import paths
  // ---------------------------------------------------------------------

  /** The `/`-delimited prefix test: the path itself or a path below it. */
  lemma AffectedIff(p: string, oldPath: string)
    ensures IsAffected(p, oldPath) <==> p == oldPath || HasPrefix(p, oldPath + "/")
  {
    var q := oldPath + "/";
    if IsAffected(p, oldPath) {
      if |p| == |oldPath| {
        assert p == (p + "/")[..|p|] == q[..|oldPath|] == oldPath;
      } else {
        assert p[..|q|] == (p + "/")[..|q|] == q;
      }
    }
    if HasPrefix(p, q) {
      assert (p + "/")[..|q|] == p[..|q|];
    }
    if p == oldPath {
      assert (p + "/")[..|q|] == q;
    }
  }

  /** A path that extends oldPath by anything but a `/` is not affected. */
  lemma NotAffectedWithoutSlash(p: string, oldPath: string)
    requires HasPrefix(p, oldPath) && |p| > |oldPath| && p[|oldPath|] != '/'
    ensures !IsAffected(p, oldPath)
  {
    AffectedIff(p, oldPath);
    assert (oldPath + "/")[|oldPath|] == '/';
  }

  /** The external test variant is not affected: it is handled only by its package clause. */
  lemma TestVariantNotAffected(oldPath: string)
    ensures !IsAffected(oldPath + "_test", oldPath)
  {
    var p := oldPath + "_test";
    assert p[..|oldPath|] == oldPath;
    assert p[|oldPath|] == '_';
    NotAffectedWithoutSlash(p, oldPath);
  }

  /** Renaming a/old leaves a/oldx alone, but not a/old/sub. */
  lemma SiblingNotAffected()
    ensures !IsAffected("a/oldx", "a/old")
    ensures IsAffected("a/old/sub", "a/old")
  {
    NotAffectedWithoutSlash("a/oldx", "a/old");
    AffectedIff("a/old/sub", "a/old");
    assert "a/old/sub"[..6] == "a/old/";
  }

  /** The renamed package's own new path, and the new path of a package below it. */
  lemma NewImportPathShape(oldPath: string, newName: string, rest: string)
    ensures NewImportPath(oldPath, newName, oldPath) == Join(Dir(oldPath), newName)
    ensures NewImportPath(oldPath, newName, oldPath + "/" + rest) == Join(Dir(oldPath), newName) + "/" + rest
  {
    assert HasPrefix(oldPath, oldPath);
    assert TrimPrefix(oldPath, oldPath) == "";
    var p := oldPath + "/" + rest;
    assert p[..|oldPath|] == oldPath;
    assert TrimPrefix(p, oldPath) == "/" + rest;
  }

  /** For instance, renaming a/old to n moves a/old/sub to a/n/sub. */
  lemma NewImportPathExample()
    ensures NewImportPath("a/old", "n", "a/old/sub") == "a/n/sub"
    ensures NewImportPath("old", "n", "old") == "n"
  {
    NewImportPathShape("a/old", "n", "sub");
    NewImportPathShape("old", "n", "");
    assert LastSlash("a/old") == 1 by {
      assert "a/old"[..4] == "a/ol";
      assert "a/ol"[..3] == "a/o";
      assert "a/o"[..2] == "a/";
    }
    assert "a/old"[..1] == "a";
    assert LastSlash("old") == -1 by {
      assert "old"[..2] == "ol";
      assert "ol"[..1] == "o";
      assert "o"[..0] == "";
    }
  }

  // ---------------------------------------------------------------------
  // Dropping the explicit name inserted by the local renaming
  // ---------------------------------------------------------------------

  /** r is ch with one RangeLeq-least edit of file u removed, and every other file unchanged. */
  ghost predicate DropsOneLeast(ch: FileEdits, r: FileEdits, u: Uri) {
    && r.Keys == ch.Keys
    && (forall w :: w != u ==> EditsOf(r, w) == EditsOf(ch, w))
    && exists e :: e in EditsOf(ch, u)
         && (forall x :: x in EditsOf(ch, u) ==> RangeLeq(e, x))
         && multiset(EditsOf(r, u)) + multiset{e} == multiset(EditsOf(ch, u))
  }

  lemma DropFirstEditOk(ch: FileEdits, u: Uri)
    ensures DropFirstEdit(ch, u).Err? <==> EditsOf(ch, u) == []
    ensures DropFirstEdit(ch, u).Err? ==> DropFirstEdit(ch, u).error == AliasEditMissing(u)
    ensures DropFirstEdit(ch, u).Ok? ==> DropsOneLeast(ch, DropFirstEdit(ch, u).value, u)
  {
    var v := EditsOf(ch, u);
    if v != [] {
      var t := SortByRange(v);
      var r := ch[u := t[1..]];
      assert u in ch;
      assert |t| > 0 by {
        assert v[0] in multiset(v);
      }
      var e := t[0];
      assert t == [e] + t[1..];
      assert multiset(t[1..]) + multiset{e} == multiset(v);
      assert e in v by {
        assert e in multiset(t);
      }
      forall x | x in v ensures RangeLeq(e, x) {
        assert x in multiset(t);
        var j :| 0 <= j < |t| && t[j] == x;
      }
      assert EditsOf(r, u) == t[1..];
      assert DropsOneLeast(ch, r, u);
    }
  }

  /**
   * The local renaming of an import: present exactly when the package name
   * changes and the import has no explicit name; its name is the fresh name;
   * its edits are renameObj's, minus the least edit of the file when the
   * fresh name is the new name itself.
   */
  lemma AliasForOk(m: Metadata, dep: Package, f: GoFile, imp: ImportDecl, newName: string)
    requires AliasFor(m, dep, f, imp, newName).Ok?
    ensures var a := AliasFor(m, dep, f, imp, newName).value;
            && (a.Some? <==> newName != m.name && !imp.named)
            && (a.Some? ==> a.value.local == FreshLocalName(newName, f.scope, dep.scope))
            && (a.Some? ==> a.value.local !in f.scope && a.value.local !in dep.scope)
            && (a.Some? ==> exists ch ::
                  && RenameObjSpec(a.value.local, imp.implicit, imp.implicitRefs, false) == Ok(ch)
                  && (a.value.local != newName ==> a.value.changes == ch)
                  && (a.value.local == newName ==> DropsOneLeast(ch, a.value.changes, f.uri)))
  {
    if newName != m.name && !imp.named {
      var local := FreshLocalName(newName, f.scope, dep.scope);
      var ch := RenameObjSpec(local, imp.implicit, imp.implicitRefs, false).value;
      if local == newName {
        DropFirstEditOk(ch, f.uri);
      }
    }
  }

  // ---------------------------------------------------------------------
  // Each (file, import path) pair is visited at most once
  // ---------------------------------------------------------------------

  function KeysOf(vs: seq<Visit>): set<SeenKey> {
    set i | 0 <= i < |vs| :: Key(vs[i])
  }

  /** The visits' keys are pairwise distinct and none was already seen. */
  predicate FreshKeys(vs: seq<Visit>, seen: set<SeenKey>) {
    && (forall i :: 0 <= i < |vs| ==> Key(vs[i]) !in seen)
    && (forall i, j :: 0 <= i < j < |vs| ==> Key(vs[i]) != Key(vs[j]))
  }

  /** A plan fragment that starts from `seen`: fresh keys, and the seen set grows by exactly them. */
  predicate Extends(seen: set<SeenKey>, p: PlanSt) {
    FreshKeys(p.visits, seen) && p.seen == seen + KeysOf(p.visits)
  }

  lemma KeysOfAppend(a: seq<Visit>, b: seq<Visit>)
    ensures KeysOf(a + b) == KeysOf(a) + KeysOf(b)
  {
    var ab := a + b;
    forall k | k in KeysOf(ab) ensures k in KeysOf(a) + KeysOf(b) {
      var i :| 0 <= i < |ab| && Key(ab[i]) == k;
      if i >= |a| {
        assert ab[i] == b[i - |a|];
      }
    }
    forall k | k in KeysOf(a) + KeysOf(b) ensures k in KeysOf(ab) {
      if k in KeysOf(a) {
        var i :| 0 <= i < |a| && Key(a[i]) == k;
        assert ab[i] == a[i];
      } else {
        var i :| 0 <= i < |b| && Key(b[i]) == k;
        assert ab[|a| + i] == b[i];
      }
    }
  }

  lemma FreshAppend(seen: set<SeenKey>, p: PlanSt, rest: seq<Visit>)
    requires Extends(seen, p) && FreshKeys(rest, p.seen)
    ensures FreshKeys(p.visits + rest, seen)
  {
    var a := p.visits;
    var ab := a + rest;
    forall i | 0 <= i < |ab| ensures Key(ab[i]) !in seen {
      if i >= |a| {
        assert ab[i] == rest[i - |a|];
      }
    }
    forall i, j | 0 <= i < j < |ab| ensures Key(ab[i]) != Key(ab[j]) {
      if j >= |a| {
        assert ab[j] == rest[j - |a|];
        if i < |a| {
          assert Key(ab[i]) in KeysOf(a);
        } else {
          assert ab[i] == rest[i - |a|];
        }
      }
    }
  }

  lemma ExtendsAppend(seen: set<SeenKey>, a: PlanSt, b: PlanSt)
    requires Extends(seen, a) && Extends(a.seen, b)
    ensures Extends(seen, PlanSt(a.visits + b.visits, b.seen))
  {
    FreshAppend(seen, a, b.visits);
    KeysOfAppend(a.visits, b.visits);
  }

  lemma ExtendsCons(seen: set<SeenKey>, v: Visit, p: PlanSt)
    requires Key(v) !in seen && Extends(seen + {Key(v)}, p)
    ensures Extends(seen, PlanSt([v] + p.visits, p.seen))
  {
    var a := PlanSt([v], seen + {Key(v)});
    assert KeysOf([v]) == {Key(v)} by {
      assert Key([v][0]) in KeysOf([v]);
    }
    ExtendsAppend(seen, a, p);
  }

  lemma {:induction false} ClauseFromExtends(m: Metadata, files: seq<GoFile>, i: nat, text: string, seen: set<SeenKey>)
    ensures Extends(seen, ClauseFrom(m, files, i, text, seen))
    decreases |files| - i
  {
    if i < |files| {
      var key := SeenKey(files[i].uri, m.path);
      if key in seen {
        ClauseFromExtends(m, files, i + 1, text, seen);
      } else {
        ClauseFromExtends(m, files, i + 1, text, seen + {key});
        ExtendsCons(seen, ClauseVisit(m, files[i], text), ClauseFrom(m, files, i + 1, text, seen + {key}));
      }
    }
  }

  lemma {:induction false} FilesFromExtends(m: Metadata, dep: Package, i: nat, newPath: string, newName: string, seen: set<SeenKey>)
    ensures FilesFrom(m, dep, i, newPath, newName, seen).Ok? ==> Extends(seen, FilesFrom(m, dep, i, newPath, newName, seen).value)
    decreases |dep.files| - i
  {
    if i < |dep.files| {
      var f := dep.files[i];
      var key := SeenKey(f.uri, m.path);
      if key in seen {
        FilesFromExtends(m, dep, i + 1, newPath, newName, seen);
      } else if StepsFrom(m, dep, f, 0, newPath, newName).Ok? {
        var steps := StepsFrom(m, dep, f, 0, newPath, newName).value;
        var rest := FilesFrom(m, dep, i + 1, newPath, newName, seen + {key});
        FilesFromExtends(m, dep, i + 1, newPath, newName, seen + {key});
        if rest.Ok? {
          ExtendsCons(seen, ImportVisit(m, dep, f, steps), rest.value);
        }
      }
    }
  }

  lemma {:induction false} DepsFromExtends(m: Metadata, deps: seq<Package>, j: nat, newPath: string, newName: string, seen: set<SeenKey>)
    ensures DepsFrom(m, deps, j, newPath, newName, seen).Ok? ==> Extends(seen, DepsFrom(m, deps, j, newPath, newName, seen).value)
    decreases |deps| - j
  {
    if j < |deps| {
      if !deps[j].fullParse {
        DepsFromExtends(m, deps, j + 1, newPath, newName, seen);
      } else {
        var r := FilesFrom(m, deps[j], 0, newPath, newName, seen);
        FilesFromExtends(m, deps[j], 0, newPath, newName, seen);
        if r.Ok? {
          var rest := DepsFrom(m, deps, j + 1, newPath, newName, r.value.seen);
          DepsFromExtends(m, deps, j + 1, newPath, newName, r.value.seen);
          if rest.Ok? {
            ExtendsAppend(seen, r.value, rest.value);
          }
        }
      }
    }
  }

  lemma MetaStepExtends(s: Snapshot, modulePath: string, oldPath: string, newName: string, m: Metadata, seen: set<SeenKey>)
    ensures MetaStep(s, modulePath, oldPath, newName, m, seen).Ok? ==> Extends(seen, MetaStep(s, modulePath, oldPath, newName, m, seen).value)
  {
    if m.path == oldPath + "_test" {
      if m.id in s.packages {
        ClauseFromExtends(m, s.packages[m.id].files, 0, newName + "_test", seen);
      }
    } else if IsAffected(m.path, oldPath) && m.modulePath.Some? && modulePath == m.modulePath.value {
      var newPath := NewImportPath(oldPath, newName, m.path);
      if m.path == oldPath {
        if m.id in s.packages {
          var c := ClausePlan(s, m, newName, seen).value;
          ClauseFromExtends(m, s.packages[m.id].files, 0, newName, seen);
          if m.id in s.rdeps {
            var r := DepsFrom(m, s.rdeps[m.id], 0, newPath, newName, c.seen);
            DepsFromExtends(m, s.rdeps[m.id], 0, newPath, newName, c.seen);
            if r.Ok? {
              ExtendsAppend(seen, c, r.value);
            }
          }
        }
      } else if m.id in s.rdeps {
        DepsFromExtends(m, s.rdeps[m.id], 0, newPath, m.name, seen);
      }
    }
  }

  lemma {:induction false} MetaFromFresh(s: Snapshot, modulePath: string, oldPath: string, newName: string, metas: seq<Metadata>, i: nat, seen: set<SeenKey>)
    ensures MetaFrom(s, modulePath, oldPath, newName, metas, i, seen).Ok? ==>
              FreshKeys(MetaFrom(s, modulePath, oldPath, newName, metas, i, seen).value, seen)
    decreases |metas| - i
  {
    if i < |metas| {
      var p := MetaStep(s, modulePath, oldPath, newName, metas[i], seen);
      if p.Ok? {
        MetaStepExtends(s, modulePath, oldPath, newName, metas[i], seen);
        var rest := MetaFrom(s, modulePath, oldPath, newName, metas, i + 1, p.value.seen);
        MetaFromFresh(s, modulePath, oldPath, newName, metas, i + 1, p.value.seen);
        if rest.Ok? {
          FreshAppend(seen, p.value, rest.value);
        }
      }
    }
  }

  /** renamePackage never visits a (file, import path) pair twice. */
  lemma PlanKeysDistinct(s: Snapshot, modulePath: string, oldPath: string, newName: string, metas: seq<Metadata>)
    requires Plan(s, modulePath, oldPath, newName, metas).Ok?
    ensures var vs := Plan(s, modulePath, oldPath, newName, metas).value;
            forall i, j :: 0 <= i < j < |vs| ==> Key(vs[i]) != Key(vs[j])
  {
    MetaFromFresh(s, modulePath, oldPath, newName, metas, 0, {});
  }

  // ---------------------------------------------------------------------
  // What each visit rewrites
  // ---------------------------------------------------------------------

  /** The imports of a sequence of steps. */
  function ImportsOf(steps: seq<ImportStep>): seq<ImportDecl>
    decreases |steps|
  {
    if steps == [] then [] else [steps[0].imp] + ImportsOf(steps[1..])
  }

  /** The imports among imps whose path is `path`, in order. */
  function ImportsOfPath(imps: seq<ImportDecl>, path: string): seq<ImportDecl>
    decreases |imps|
  {
    if imps == [] then []
    else (if imps[0].path == path then [imps[0]] else []) + ImportsOfPath(imps[1..], path)
  }

  /** The local renaming of a step is present exactly when the package name changes and the import is unnamed. */
  predicate AliasOk(m: Metadata, dep: Package, f: GoFile, st: ImportStep, wanted: string) {
    && (st.alias.Some? <==> wanted != m.name && !st.imp.named)
    && (st.alias.Some? ==> st.alias.value.local == FreshLocalName(wanted, f.scope, dep.scope))
  }

  /** The steps of a file: each import of m's path, in order, given the new path and local renaming. */
  predicate StepsOk(m: Metadata, dep: Package, f: GoFile, steps: seq<ImportStep>, newPath: string, wanted: string) {
    && ImportsOf(steps) == ImportsOfPath(f.imports, m.path)
    && forall k :: 0 <= k < |steps| ==> steps[k].newPath == newPath && AliasOk(m, dep, f, steps[k], wanted)
  }

  /**
   * A visit of renamePackage: a package clause is renamed to newName only in
   * the renamed package of the module, and to newName_test only in its
   * external test variant; imports are rewritten only for affected packages
   * of the module, in files of fully parsed reverse dependencies, to the new
   * import path.
   */
  predicate VisitOk(s: Snapshot, modulePath: string, oldPath: string, newName: string, v: Visit) {
    match v
    case ClauseVisit(m, f, text) =>
      && m.id in s.packages && f in s.packages[m.id].files
      && ((m.path == oldPath && m.modulePath == Some(modulePath) && text == newName) ||
          (m.path == oldPath + "_test" && text == newName + "_test"))
    case ImportVisit(m, dep, f, steps) =>
      && IsAffected(m.path, oldPath) && m.modulePath == Some(modulePath)
      && m.id in s.rdeps && dep in s.rdeps[m.id] && dep.fullParse && f in dep.files
      && StepsOk(m, dep, f, steps, NewImportPath(oldPath, newName, m.path), if m.path == oldPath then newName else m.name)
  }

  lemma {:induction false} ClauseFromSound(m: Metadata, files: seq<GoFile>, i: nat, text: string, seen: set<SeenKey>)
    ensures forall v :: v in ClauseFrom(m, files, i, text, seen).visits ==>
              v.ClauseVisit? && v.m == m && v.f in files && v.text == text
    decreases |files| - i
  {
    if i < |files| {
      var key := SeenKey(files[i].uri, m.path);
      if key in seen {
        ClauseFromSound(m, files, i + 1, text, seen);
      } else {
        ClauseFromSound(m, files, i + 1, text, seen + {key});
      }
    }
  }

  lemma {:induction false} StepsFromSound(m: Metadata, dep: Package, f: GoFile, k: nat, newPath: string, newName: string)
    requires k <= |f.imports|
    ensures var r := StepsFrom(m, dep, f, k, newPath, newName);
            r.Ok? ==>
              && ImportsOf(r.value) == ImportsOfPath(f.imports[k..], m.path)
              && forall j :: 0 <= j < |r.value| ==> r.value[j].newPath == newPath && AliasOk(m, dep, f, r.value[j], newName)
    decreases |f.imports| - k
  {
    var imps := f.imports[k..];
    if k < |f.imports| {
      assert imps[0] == f.imports[k];
      assert imps[1..] == f.imports[k + 1..];
      var imp := f.imports[k];
      StepsFromSound(m, dep, f, k + 1, newPath, newName);
      var rest := StepsFrom(m, dep, f, k + 1, newPath, newName);
      if imp.path != m.path {
        assert ImportsOfPath(imps, m.path) == ImportsOfPath(imps[1..], m.path);
      } else {
        var a := AliasFor(m, dep, f, imp, newName);
        if a.Ok? && rest.Ok? {
          AliasForOk(m, dep, f, imp, newName);
          var st := ImportStep(imp, newPath, a.value);
          var ss := [st] + rest.value;
          assert ss[1..] == rest.value;
          assert ImportsOf(ss) == [imp] + ImportsOf(rest.value);
        }
      }
    }
  }

  lemma {:induction false} FilesFromSound(m: Metadata, dep: Package, i: nat, newPath: string, newName: string, seen: set<SeenKey>)
    ensures var r := FilesFrom(m, dep, i, newPath, newName, seen);
            r.Ok? ==> forall v :: v in r.value.visits ==>
              v.ImportVisit? && v.m == m && v.dep == dep && v.f in dep.files && StepsOk(m, dep, v.f, v.steps, newPath, newName)
    decreases |dep.files| - i
  {
    if i < |dep.files| {
      var f := dep.files[i];
      var key := SeenKey(f.uri, m.path);
      if key in seen {
        FilesFromSound(m, dep, i + 1, newPath, newName, seen);
      } else {
        FilesFromSound(m, dep, i + 1, newPath, newName, seen + {key});
        StepsFromSound(m, dep, f, 0, newPath, newName);
        assert f.imports[0..] == f.imports;
      }
    }
  }

  lemma {:induction false} DepsFromSound(m: Metadata, deps: seq<Package>, j: nat, newPath: string, newName: string, seen: set<SeenKey>)
    ensures var r := DepsFrom(m, deps, j, newPath, newName, seen);
            r.Ok? ==> forall v :: v in r.value.visits ==>
              v.ImportVisit? && v.m == m && v.dep in deps && v.dep.fullParse && v.f in v.dep.files &&
              StepsOk(m, v.dep, v.f, v.steps, newPath, newName)
    decreases |deps| - j
  {
    if j < |deps| {
      if !deps[j].fullParse {
        DepsFromSound(m, deps, j + 1, newPath, newName, seen);
      } else {
        var r := FilesFrom(m, deps[j], 0, newPath, newName, seen);
        FilesFromSound(m, deps[j], 0, newPath, newName, seen);
        if r.Ok? {
          DepsFromSound(m, deps, j + 1, newPath, newName, r.value.seen);
        }
      }
    }
  }

  lemma MetaStepSound(s: Snapshot, modulePath: string, oldPath: string, newName: string, m: Metadata, seen: set<SeenKey>)
    ensures var p := MetaStep(s, modulePath, oldPath, newName, m, seen);
            p.Ok? ==> forall v :: v in p.value.visits ==> v.m == m && VisitOk(s, modulePath, oldPath, newName, v)
  {
    if m.path == oldPath + "_test" {
      if m.id in s.packages {
        ClauseFromSound(m, s.packages[m.id].files, 0, newName + "_test", seen);
      }
    } else if IsAffected(m.path, oldPath) && m.modulePath.Some? && modulePath == m.modulePath.value {
      var newPath := NewImportPath(oldPath, newName, m.path);
      if m.path == oldPath {
        if m.id in s.packages {
          var c := ClausePlan(s, m, newName, seen).value;
          ClauseFromSound(m, s.packages[m.id].files, 0, newName, seen);
          if m.id in s.rdeps {
            DepsFromSound(m, s.rdeps[m.id], 0, newPath, newName, c.seen);
          }
        }
      } else if m.id in s.rdeps {
        DepsFromSound(m, s.rdeps[m.id], 0, newPath, m.name, seen);
      }
    }
  }

  lemma {:induction false} MetaFromSound(s: Snapshot, modulePath: string, oldPath: string, newName: string, metas: seq<Metadata>, i: nat, seen: set<SeenKey>)
    ensures var r := MetaFrom(s, modulePath, oldPath, newName, metas, i, seen);
            r.Ok? ==> forall v :: v in r.value ==> v.m in metas && VisitOk(s, modulePath, oldPath, newName, v)
    decreases |metas| - i
  {
    if i < |metas| {
      var p := MetaStep(s, modulePath, oldPath, newName, metas[i], seen);
      if p.Ok? {
        MetaStepSound(s, modulePath, oldPath, newName, metas[i], seen);
        MetaFromSound(s, modulePath, oldPath, newName, metas, i + 1, p.value.seen);
      }
    }
  }

  // ---------------------------------------------------------------------
  // Every pair that must be visited is visited
  // ---------------------------------------------------------------------

  /** Every file of `files` has its (file, path) pair in keys. */
  predicate FilesCovered(files: seq<GoFile>, path: string, keys: set<SeenKey>) {
    forall f :: f in files ==> SeenKey(f.uri, path) in keys
  }

  /**
   * The pairs metadata entry m demands: every file of the external test
   * variant; for an affected package of the module, every file of the
   * renamed package itself and every file of each fully parsed reverse
   * dependency.
   */
  predicate Covered(s: Snapshot, modulePath: string, oldPath: string, m: Metadata, keys: set<SeenKey>) {
    && (m.path == oldPath + "_test" && m.id in s.packages ==> FilesCovered(s.packages[m.id].files, m.path, keys))
    && (m.path != oldPath + "_test" && IsAffected(m.path, oldPath) && m.modulePath == Some(modulePath) ==>
          && (m.path == oldPath && m.id in s.packages ==> FilesCovered(s.packages[m.id].files, m.path, keys))
          && (m.id in s.rdeps ==> forall dep :: dep in s.rdeps[m.id] && dep.fullParse ==> FilesCovered(dep.files, m.path, keys)))
  }

  lemma {:induction false} ClauseFromCovers(m: Metadata, files: seq<GoFile>, i: nat, text: string, seen: set<SeenKey>)
    ensures var r := ClauseFrom(m, files, i, text, seen);
            seen <= r.seen && forall j :: i <= j < |files| ==> SeenKey(files[j].uri, m.path) in r.seen
    decreases |files| - i
  {
    if i < |files| {
      var key := SeenKey(files[i].uri, m.path);
      if key in seen {
        ClauseFromCovers(m, files, i + 1, text, seen);
      } else {
        ClauseFromCovers(m, files, i + 1, text, seen + {key});
      }
    }
  }

  lemma ClausePlanCovers(s: Snapshot, m: Metadata, text: string, seen: set<SeenKey>)
    requires ClausePlan(s, m, text, seen).Ok?
    ensures seen <= ClausePlan(s, m, text, seen).value.seen
    ensures FilesCovered(s.packages[m.id].files, m.path, ClausePlan(s, m, text, seen).value.seen)
  {
    var files := s.packages[m.id].files;
    ClauseFromCovers(m, files, 0, text, seen);
    forall f | f in files ensures SeenKey(f.uri, m.path) in ClausePlan(s, m, text, seen).value.seen {
      var j :| 0 <= j < |files| && files[j] == f;
    }
  }

  lemma {:induction false} FilesFromCovers(m: Metadata, dep: Package, i: nat, newPath: string, newName: string, seen: set<SeenKey>)
    ensures var r := FilesFrom(m, dep, i, newPath, newName, seen);
            r.Ok? ==> seen <= r.value.seen && forall j :: i <= j < |dep.files| ==> SeenKey(dep.files[j].uri, m.path) in r.value.seen
    decreases |dep.files| - i
  {
    if i < |dep.files| {
      var key := SeenKey(dep.files[i].uri, m.path);
      if key in seen {
        FilesFromCovers(m, dep, i + 1, newPath, newName, seen);
      } else {
        FilesFromCovers(m, dep, i + 1, newPath, newName, seen + {key});
      }
    }
  }

  lemma {:induction false} DepsFromCovers(m: Metadata, deps: seq<Package>, j: nat, newPath: string, newName: string, seen: set<SeenKey>)
    ensures var r := DepsFrom(m, deps, j, newPath, newName, seen);
            r.Ok? ==> (seen <= r.value.seen &&
                       forall k :: j <= k < |deps| && deps[k].fullParse ==> FilesCovered(deps[k].files, m.path, r.value.seen))
    decreases |deps| - j
  {
    if j < |deps| {
      if !deps[j].fullParse {
        DepsFromCovers(m, deps, j + 1, newPath, newName, seen);
      } else {
        var r := FilesFrom(m, deps[j], 0, newPath, newName, seen);
        FilesFromCovers(m, deps[j], 0, newPath, newName, seen);
        if r.Ok? {
          DepsFromCovers(m, deps, j + 1, newPath, newName, r.value.seen);
          var rest := DepsFrom(m, deps, j + 1, newPath, newName, r.value.seen);
          if rest.Ok? {
            forall f | f in deps[j].files ensures SeenKey(f.uri, m.path) in rest.value.seen {
              var k :| 0 <= k < |deps[j].files| && deps[j].files[k] == f;
            }
          }
        }
      }
    }
  }

  lemma ImportsPlanCovers(s: Snapshot, m: Metadata, newPath: string, newName: string, seen: set<SeenKey>)
    requires ImportsPlan(s, m, newPath, newName, seen).Ok?
    ensures seen <= ImportsPlan(s, m, newPath, newName, seen).value.seen
    ensures forall dep :: dep in s.rdeps[m.id] && dep.fullParse ==>
              FilesCovered(dep.files, m.path, ImportsPlan(s, m, newPath, newName, seen).value.seen)
  {
    var deps := s.rdeps[m.id];
    DepsFromCovers(m, deps, 0, newPath, newName, seen);
    forall dep | dep in deps && dep.fullParse
      ensures FilesCovered(dep.files, m.path, ImportsPlan(s, m, newPath, newName, seen).value.seen)
    {
      var k :| 0 <= k < |deps| && deps[k] == dep;
    }
  }

  lemma CoveredMono(s: Snapshot, modulePath: string, oldPath: string, m: Metadata, a: set<SeenKey>, b: set<SeenKey>)
    requires Covered(s, modulePath, oldPath, m, a) && a <= b
    ensures Covered(s, modulePath, oldPath, m, b)
  {
  }

  lemma MetaStepCovers(s: Snapshot, modulePath: string, oldPath: string, newName: string, m: Metadata, seen: set<SeenKey>)
    requires MetaStep(s, modulePath, oldPath, newName, m, seen).Ok?
    ensures seen <= MetaStep(s, modulePath, oldPath, newName, m, seen).value.seen
    ensures Covered(s, modulePath, oldPath, m, MetaStep(s, modulePath, oldPath, newName, m, seen).value.seen)
  {
    if m.path == oldPath + "_test" {
      ClausePlanCovers(s, m, newName + "_test", seen);
    } else if IsAffected(m.path, oldPath) && m.modulePath.Some? && modulePath == m.modulePath.value {
      var newPath := NewImportPath(oldPath, newName, m.path);
      if m.path == oldPath {
        var c := ClausePlan(s, m, newName, seen).value;
        ClausePlanCovers(s, m, newName, seen);
        ImportsPlanCovers(s, m, newPath, newName, c.seen);
      } else {
        ImportsPlanCovers(s, m, newPath, m.name, seen);
      }
    }
  }

  lemma {:induction false} MetaFromCovers(s: Snapshot, modulePath: string, oldPath: string, newName: string, metas: seq<Metadata>, i: nat, seen: set<SeenKey>)
    ensures var r := MetaFrom(s, modulePath, oldPath, newName, metas, i, seen);
            r.Ok? ==> forall j :: i <= j < |metas| ==> Covered(s, modulePath, oldPath, metas[j], seen + KeysOf(r.value))
    decreases |metas| - i
  {
    if i < |metas| {
      var p := MetaStep(s, modulePath, oldPath, newName, metas[i], seen);
      if p.Ok? {
        var rest := MetaFrom(s, modulePath, oldPath, newName, metas, i + 1, p.value.seen);
        MetaFromCovers(s, modulePath, oldPath, newName, metas, i + 1, p.value.seen);
        if rest.Ok? {
          MetaStepCovers(s, modulePath, oldPath, newName, metas[i], seen);
          MetaStepExtends(s, modulePath, oldPath, newName, metas[i], seen);
          KeysOfAppend(p.value.visits, rest.value);
          var all := seen + KeysOf(p.value.visits + rest.value);
          assert p.value.seen + KeysOf(rest.value) == all;
          CoveredMono(s, modulePath, oldPath, metas[i], p.value.seen, all);
        }
      }
    }
  }

  /**
   * renamePackage's plan: no pair is visited twice; every visit rewrites what
   * its package's role demands (VisitOk); and every pair some metadata entry
   * demands is visited.
   */
  lemma PlanOk(s: Snapshot, modulePath: string, oldPath: string, newName: string, metas: seq<Metadata>)
    requires Plan(s, modulePath, oldPath, newName, metas).Ok?
    ensures var vs := Plan(s, modulePath, oldPath, newName, metas).value;
            && (forall i, j :: 0 <= i < j < |vs| ==> Key(vs[i]) != Key(vs[j]))
            && (forall v :: v in vs ==> v.m in metas && VisitOk(s, modulePath, oldPath, newName, v))
            && (forall m :: m in metas ==> Covered(s, modulePath, oldPath, m, KeysOf(vs)))
  {
    var vs := Plan(s, modulePath, oldPath, newName, metas).value;
    PlanKeysDistinct(s, modulePath, oldPath, newName, metas);
    MetaFromSound(s, modulePath, oldPath, newName, metas, 0, {});
    MetaFromCovers(s, modulePath, oldPath, newName, metas, 0, {});
    assert {} + KeysOf(vs) == KeysOf(vs);
    forall m | m in metas ensures Covered(s, modulePath, oldPath, m, KeysOf(vs)) {
      var j :| 0 <= j < |metas| && metas[j] == m;
    }
  }

  // ---------------------------------------------------------------------
  // Why a package rename can fail
  // ---------------------------------------------------------------------

  /** The errors renameObj reports. */
  predicate ObjError(e: Error) {
    e.EmbeddedField? || e.BlankIdentifier? || e.SameNames? || e.InvalidIdentifier? ||
    e.Conflict? || e.NoEnclosingPath? || e.NotAnImportSpec?
  }

  lemma RenameObjErrors(newName: string, obj: Symbol, refs: seq<Ref>, renameImpls: bool)
    ensures RenameObjSpec(newName, obj, refs, renameImpls).Err? ==> ObjError(RenameObjSpec(newName, obj, refs, renameImpls).error)
  {
    if UpdateFrom(refs, 0, {}, obj.name, newName).Err? {
      UpdateErrorIsPkgName(refs, 0, {}, obj.name, newName);
    }
  }

  /** The errors of rewriting the imports of one file: renameObj's, or no edit to drop. */
  predicate StepError(e: Error) {
    ObjError(e) || e.AliasEditMissing?
  }

  lemma {:induction false} StepsFromErrors(m: Metadata, dep: Package, f: GoFile, k: nat, newPath: string, newName: string)
    ensures StepsFrom(m, dep, f, k, newPath, newName).Err? ==> StepError(StepsFrom(m, dep, f, k, newPath, newName).error)
    decreases |f.imports| - k
  {
    if k < |f.imports| {
      var imp := f.imports[k];
      StepsFromErrors(m, dep, f, k + 1, newPath, newName);
      if imp.path == m.path && newName != m.name && !imp.named {
        var local := FreshLocalName(newName, f.scope, dep.scope);
        RenameObjErrors(local, imp.implicit, imp.implicitRefs, false);
        var ch := RenameObjSpec(local, imp.implicit, imp.implicitRefs, false);
        if ch.Ok? && local == newName {
          DropFirstEditOk(ch.value, f.uri);
        }
      }
    }
  }

  lemma {:induction false} FilesFromErrors(m: Metadata, dep: Package, i: nat, newPath: string, newName: string, seen: set<SeenKey>)
    ensures FilesFrom(m, dep, i, newPath, newName, seen).Err? ==> StepError(FilesFrom(m, dep, i, newPath, newName, seen).error)
    decreases |dep.files| - i
  {
    if i < |dep.files| {
      var key := SeenKey(dep.files[i].uri, m.path);
      StepsFromErrors(m, dep, dep.files[i], 0, newPath, newName);
      FilesFromErrors(m, dep, i + 1, newPath, newName, seen);
      FilesFromErrors(m, dep, i + 1, newPath, newName, seen + {key});
    }
  }

  lemma {:induction false} DepsFromErrors(m: Metadata, deps: seq<Package>, j: nat, newPath: string, newName: string, seen: set<SeenKey>)
    ensures DepsFrom(m, deps, j, newPath, newName, seen).Err? ==> StepError(DepsFrom(m, deps, j, newPath, newName, seen).error)
    decreases |deps| - j
  {
    if j < |deps| {
      DepsFromErrors(m, deps, j + 1, newPath, newName, seen);
      var r := FilesFrom(m, deps[j], 0, newPath, newName, seen);
      FilesFromErrors(m, deps[j], 0, newPath, newName, seen);
      if r.Ok? {
        DepsFromErrors(m, deps, j + 1, newPath, newName, r.value.seen);
      }
    }
  }

  /**
   * The errors of the metadata walk, each traced to an entry that causes
   * it: an affected package without module information; a renamed package
   * (or its test variant) missing from the workspace; an affected package
   * of the module without reverse dependencies; or an error of renaming an
   * import locally.
   */
  predicate MetaError(s: Snapshot, modulePath: string, oldPath: string, metas: seq<Metadata>, i: nat, e: Error) {
    || StepError(e)
    || (e.MissingModuleInfo? && exists j :: i <= j < |metas| && LacksModuleInfo(oldPath, metas[j], e.path))
    || (e.PackageUnavailable? && exists j :: i <= j < |metas| && LacksPackage(s, modulePath, oldPath, metas[j], e.id))
    || (e.ReverseDepsUnavailable? && exists j :: i <= j < |metas| && LacksReverseDeps(s, modulePath, oldPath, metas[j], e.id))
  }

  /** m is an affected package, at `path`, without module information. */
  predicate LacksModuleInfo(oldPath: string, m: Metadata, path: string) {
    m.path == path && m.path != oldPath + "_test" && IsAffected(m.path, oldPath) && m.modulePath.None?
  }

  /** m, with id `id`, is the renamed package or its test variant, and is not in the workspace. */
  predicate LacksPackage(s: Snapshot, modulePath: string, oldPath: string, m: Metadata, id: PkgId) {
    m.id == id && m.id !in s.packages &&
    (m.path == oldPath + "_test" || (m.path == oldPath && m.modulePath == Some(modulePath)))
  }

  /** m, with id `id`, is an affected package of the module whose reverse dependencies are unknown. */
  predicate LacksReverseDeps(s: Snapshot, modulePath: string, oldPath: string, m: Metadata, id: PkgId) {
    m.id == id && m.id !in s.rdeps && m.path != oldPath + "_test" &&
    IsAffected(m.path, oldPath) && m.modulePath == Some(modulePath)
  }

  lemma {:induction false} MetaFromErrors(s: Snapshot, modulePath: string, oldPath: string, newName: string, metas: seq<Metadata>, i: nat, seen: set<SeenKey>)
    ensures var r := MetaFrom(s, modulePath, oldPath, newName, metas, i, seen);
            r.Err? ==> MetaError(s, modulePath, oldPath, metas, i, r.error)
    decreases |metas| - i
  {
    if i < |metas| {
      var m := metas[i];
      var p := MetaStep(s, modulePath, oldPath, newName, m, seen);
      if p.Ok? {
        var rest := MetaFrom(s, modulePath, oldPath, newName, metas, i + 1, p.value.seen);
        MetaFromErrors(s, modulePath, oldPath, newName, metas, i + 1, p.value.seen);
        if rest.Err? {
          var e := rest.error;
          if e.MissingModuleInfo? && !StepError(e) {
            var j :| i + 1 <= j < |metas| && LacksModuleInfo(oldPath, metas[j], e.path);
          } else if e.PackageUnavailable? && !StepError(e) {
            var j :| i + 1 <= j < |metas| && LacksPackage(s, modulePath, oldPath, metas[j], e.id);
          } else if e.ReverseDepsUnavailable? && !StepError(e) {
            var j :| i + 1 <= j < |metas| && LacksReverseDeps(s, modulePath, oldPath, metas[j], e.id);
          }
        }
      } else if m.path != oldPath + "_test" && IsAffected(m.path, oldPath) && m.modulePath.Some? && modulePath == m.modulePath.value {
        var newPath := NewImportPath(oldPath, newName, m.path);
        if m.path == oldPath && m.id in s.packages {
          var c := ClausePlan(s, m, newName, seen).value;
          if m.id in s.rdeps {
            DepsFromErrors(m, s.rdeps[m.id], 0, newPath, newName, c.seen);
          }
        } else if m.path != oldPath && m.id in s.rdeps {
          DepsFromErrors(m, s.rdeps[m.id], 0, newPath, m.name, seen);
        }
      }
    }
  }

  /**
   * renamePackage fails with ModuleIsPackage exactly when the package is the
   * module root, and then before any edit; every other failure is traced to
   * a metadata entry as MetaError says (in particular missing module
   * information is reported only for an affected package).
   */
  lemma RenamePackageErrors(s: Snapshot, modulePath: string, oldPath: string, newName: string, metas: seq<Metadata>)
    ensures var r := RenamePackageSpec(s, modulePath, oldPath, newName, metas);
            && (modulePath == oldPath ==> r == Err(ModuleIsPackage(modulePath)))
            && (modulePath != oldPath && r.Err? ==> !r.error.ModuleIsPackage? && MetaError(s, modulePath, oldPath, metas, 0, r.error))
  {
    MetaFromErrors(s, modulePath, oldPath, newName, metas, 0, {});
  }
}
