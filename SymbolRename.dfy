/**
 * Renaming one symbol (checkRenamable, renameObj): the checks on the target
 * and the new name, the changeMethods flag, the conflict loop that stops at
 * the first conflict, and the edit synthesis of renamer.update.
 *
 * The references and the conflict checker are inputs: each reference carries
 * the queries for which the checker reports a conflict on its symbol.
 */
module SymbolRename {
  import opened Text
  import opened Model
  import opened Synthesis

  // ---------------------------------------------------------------------
  // Specification
  // ---------------------------------------------------------------------

  /** checkRenamable: an embedded field cannot be renamed, nor can `_`; the field check comes first. */
  function CheckRenamable(obj: Symbol): (r: Option<Error>)
    ensures r == Some(EmbeddedField) <==> obj.kind.VarObj? && obj.kind.embedded
    ensures r == Some(BlankIdentifier) <==> !(obj.kind.VarObj? && obj.kind.embedded) && obj.name == "_"
    ensures r.None? <==> !(obj.kind.VarObj? && obj.kind.embedded) && obj.name != "_"
  {
    if obj.kind.VarObj? && obj.kind.embedded then Some(EmbeddedField)
    else if obj.name == "_" then Some(BlankIdentifier)
    else None
  }

  /** A method whose receiver is an interface type. */
  predicate IsInterfaceMethod(s: Symbol) {
    s.kind.FuncObj? && s.kind.recv.Receiver? && s.kind.recv.isInterface
  }

  /** Abstract and concrete methods are renamed together when asked to, or when some reference is an interface method. */
  predicate ChangeMethods(refs: seq<Ref>, renameImpls: bool) {
    renameImpls || exists i :: 0 <= i < |refs| && IsInterfaceMethod(refs[i].obj)
  }

  /** The packages the references belong to (the keys of r.packages). */
  function PackagesOf(refs: seq<Ref>): set<PkgId> {
    set i | 0 <= i < |refs| :: refs[i].pkg
  }

  /** The index of the first of refs[i..] on which the checker reports a conflict for q. */
  function FirstConflictFrom(refs: seq<Ref>, i: nat, q: CheckQuery): (r: Option<nat>)
    ensures r.Some? ==> i <= r.value < |refs| && q in refs[r.value].conflicts
    ensures r.Some? ==> forall j :: i <= j < r.value ==> q !in refs[j].conflicts
    ensures r.None? <==> forall j :: i <= j < |refs| ==> q !in refs[j].conflicts
    decreases |refs| - i
  {
    if i >= |refs| then None
    else if q in refs[i].conflicts then Some(i)
    else FirstConflictFrom(refs, i + 1, q)
  }

  /** What renameObj returns for the symbol obj with references refs. */
  function RenameObjSpec(newName: string, obj: Symbol, refs: seq<Ref>, renameImpls: bool): Result<FileEdits> {
    if CheckRenamable(obj).Some? then Err(CheckRenamable(obj).value)
    else if obj.name == newName then Err(SameNames(newName))
    else if !IsValidIdentifier(newName) then Err(InvalidIdentifier(newName))
    else
      match FirstConflictFrom(refs, 0, CheckQuery(newName, ChangeMethods(refs, renameImpls)))
      case Some(k) => Err(Conflict(k))
      case None => UpdateResult(refs, obj.name, newName)
  }

  // ---------------------------------------------------------------------
  // Properties
  // ---------------------------------------------------------------------

  /**
   * The validation order: an embedded field, then `_`, then an unchanged
   * name, then an invalid identifier; each failure is reported by its own
   * error and nothing else is computed.
   */
  lemma RenameObjValidation(newName: string, obj: Symbol, refs: seq<Ref>, renameImpls: bool)
    ensures obj.kind.VarObj? && obj.kind.embedded ==> RenameObjSpec(newName, obj, refs, renameImpls) == Err(EmbeddedField)
    ensures !(obj.kind.VarObj? && obj.kind.embedded) && obj.name == "_" ==>
              RenameObjSpec(newName, obj, refs, renameImpls) == Err(BlankIdentifier)
    ensures CheckRenamable(obj).None? && obj.name == newName ==>
              RenameObjSpec(newName, obj, refs, renameImpls) == Err(SameNames(newName))
    ensures CheckRenamable(obj).None? && obj.name != newName && !IsValidIdentifier(newName) ==>
              RenameObjSpec(newName, obj, refs, renameImpls) == Err(InvalidIdentifier(newName))
  {
  }

  /**
   * Once a reference reports a conflict the result is an error naming the
   * first such reference, and no edits are returned; conversely a conflict
   * error means the checks passed and that reference is the first to conflict.
   */
  lemma {:induction false} RenameObjConflict(newName: string, obj: Symbol, refs: seq<Ref>, renameImpls: bool, k: nat)
    ensures RenameObjSpec(newName, obj, refs, renameImpls) == Err(Conflict(k)) <==>
              && CheckRenamable(obj).None? && obj.name != newName && IsValidIdentifier(newName)
              && k < |refs| && CheckQuery(newName, ChangeMethods(refs, renameImpls)) in refs[k].conflicts
              && forall j :: 0 <= j < k ==> CheckQuery(newName, ChangeMethods(refs, renameImpls)) !in refs[j].conflicts
  {
    var q := CheckQuery(newName, ChangeMethods(refs, renameImpls));
    var fc := FirstConflictFrom(refs, 0, q);
    if CheckRenamable(obj).None? && obj.name != newName && IsValidIdentifier(newName) {
      if fc.None? {
        var u := UpdateResult(refs, obj.name, newName);
        if u.Err? {
          UpdateErrorIsPkgName(refs, 0, {}, obj.name, newName);
        }
      } else if k < |refs| && q in refs[k].conflicts && forall j :: 0 <= j < k ==> q !in refs[j].conflicts {
        assert !(fc.value < k) && !(k < fc.value);
      }
    }
  }

  /** renamer.update fails only on an import-name declaration whose import spec cannot be found. */
  lemma {:induction false} UpdateErrorIsPkgName(refs: seq<Ref>, i: nat, seen: set<Span>, from: string, to: string)
    requires UpdateFrom(refs, i, seen, from, to).Err?
    ensures UpdateFrom(refs, i, seen, from, to).error.NoEnclosingPath? ||
            UpdateFrom(refs, i, seen, from, to).error.NotAnImportSpec?
    decreases |refs| - i
  {
    if refs[i].span in seen {
      UpdateErrorIsPkgName(refs, i + 1, seen, from, to);
    } else if RefContribs(refs[i], from, to).Ok? {
      UpdateErrorIsPkgName(refs, i + 1, seen + {refs[i].span}, from, to);
    }
  }

  /**
   * A successful renaming passed every check, no reference conflicts, and
   * its edits are, file by file and in order, the identifier, import-name
   * and doc-comment edits of the references, with one non-doc edit per
   * distinct reference span.
   */
  lemma RenameObjOk(newName: string, obj: Symbol, refs: seq<Ref>, renameImpls: bool)
    requires RenameObjSpec(newName, obj, refs, renameImpls).Ok?
    ensures CheckRenamable(obj).None? && obj.name != newName && IsValidIdentifier(newName)
    ensures forall j :: 0 <= j < |refs| ==> CheckQuery(newName, ChangeMethods(refs, renameImpls)) !in refs[j].conflicts
    ensures exists cs: seq<Contrib> ::
              && (forall u :: EditsOf(RenameObjSpec(newName, obj, refs, renameImpls).value, u) == EditsFor(cs, u))
              && (forall x :: x in cs ==> x.ref in refs && ContribOk(x, obj.name, newName))
              && NoDuplicates(PrimarySpans(cs))
              && (set s | s in PrimarySpans(cs)) == (set r | r in refs :: r.span)
              && (IsWord(obj.name) ==> DocWordsCovered(refs, cs, obj.name, newName))
  {
    var cs := UpdateFrom(refs, 0, {}, obj.name, newName).value;
    GroupIsPerFile(cs);
    UpdateFromOk(refs, 0, {}, obj.name, newName);
    assert refs[0..] == refs;
    UpdateDedup(refs, obj.name, newName);
    if IsWord(obj.name) {
      UpdateComplete(refs, obj.name, newName);
    }
  }

  /**
   * A successful renaming rewrites every whole-word occurrence of the old
   * name in a non-directive comment of the doc comment of each declaring
   * reference (the first one with its span) in that comment's file.
   */
  lemma RenameObjDocComplete(newName: string, obj: Symbol, refs: seq<Ref>, renameImpls: bool, r: nat, ci: nat, li: nat, k: nat)
    requires RenameObjSpec(newName, obj, refs, renameImpls).Ok?
    requires IsWord(obj.name) && FirstDocWordAt(refs, r, ci, li, k, obj.name)
    ensures DocWordRewritten(RenameObjSpec(newName, obj, refs, renameImpls).value, refs[r], ci, li, k, obj.name, newName)
  {
    RenameObjIsUpdate(newName, obj, refs, renameImpls);
    UpdateResultComplete(refs, obj.name, newName, r, ci, li, k);
  }

  lemma RenameObjIsUpdate(newName: string, obj: Symbol, refs: seq<Ref>, renameImpls: bool)
    requires RenameObjSpec(newName, obj, refs, renameImpls).Ok?
    ensures RenameObjSpec(newName, obj, refs, renameImpls) == UpdateResult(refs, obj.name, newName)
  {
  }

  // ---------------------------------------------------------------------
  // The renamer
  // ---------------------------------------------------------------------

  class Renamer {
    var refs: seq<Ref>
    var from: string
    var to: string
    var changeMethods: bool
    /**
     * The packages of the references, by id (r.packages). updatePkgName
     * looks the declaring package up here, and finds it, because the
     * declaring reference's package is recorded; so Update need not read it.
     */
    var packages: set<PkgId>
    var hadConflicts: bool
    /** The reference whose check reported the conflict (r.errors). */
    var conflictAt: nat

    constructor (refs: seq<Ref>, from: string, to: string)
      ensures this.refs == refs && this.from == from && this.to == to
      ensures !changeMethods && packages == {} && !hadConflicts
    {
      this.refs := refs;
      this.from := from;
      this.to := to;
      changeMethods := false;
      packages := {};
      hadConflicts := false;
      conflictAt := 0;
    }

    /** The question the conflict checker is asked about every reference. */
    function Query(): CheckQuery
      reads this
    {
      CheckQuery(to, changeMethods)
    }

    /** Sets changeMethods when renaming implementations or when a reference is an interface method. */
    method DeriveChangeMethods(renameImpls: bool)
      requires !changeMethods
      modifies this`changeMethods
      ensures changeMethods == ChangeMethods(refs, renameImpls)
    {
      if renameImpls {
        changeMethods := true;
      } else {
        var i := 0;
        while i < |refs|
          invariant 0 <= i <= |refs|
          invariant !changeMethods
          invariant forall j :: 0 <= j < i ==> !IsInterfaceMethod(refs[j].obj)
        {
          if IsInterfaceMethod(refs[i].obj) {
            changeMethods := true;
            break;
          }
          i := i + 1;
        }
      }
    }

    /** Records the package of every reference. */
    method CollectPackages()
      modifies this`packages
      ensures packages == old(packages) + PackagesOf(refs)
    {
      var i := 0;
      while i < |refs|
        invariant 0 <= i <= |refs|
        invariant packages == old(packages) + set j | 0 <= j < i :: refs[j].pkg
      {
        packages := packages + {refs[i].pkg};
        i := i + 1;
      }
    }

    /** r.check(ref.obj) for reference i: records a conflict if the checker reports one. */
    method Check(i: nat)
      requires i < |refs| && !hadConflicts
      modifies this`hadConflicts, this`conflictAt
      ensures hadConflicts <==> Query() in refs[i].conflicts
      ensures hadConflicts ==> conflictAt == i
    {
      if Query() in refs[i].conflicts {
        hadConflicts := true;
        conflictAt := i;
      }
    }

    /** Checks the references in order, stopping at the first conflict. */
    method CheckAll()
      requires !hadConflicts
      modifies this`hadConflicts, this`conflictAt
      ensures hadConflicts <==> FirstConflictFrom(refs, 0, Query()).Some?
      ensures hadConflicts ==> conflictAt == FirstConflictFrom(refs, 0, Query()).value
    {
      var i := 0;
      while i < |refs|
        invariant 0 <= i <= |refs|
        invariant !hadConflicts
        invariant FirstConflictFrom(refs, 0, Query()) == FirstConflictFrom(refs, i, Query())
      {
        Check(i);
        if hadConflicts {
          return;
        }
        i := i + 1;
      }
    }

    /** renamer.update: the edits of every reference, grouped by file. */
    method Update() returns (res: Result<FileEdits>)
      ensures res == UpdateResult(refs, from, to)
    {
      var result: FileEdits := map[];
      var seen: set<Span> := {};
      ghost var done: seq<Contrib> := [];
      var i := 0;
      PrependNil(UpdateFrom(refs, 0, {}, from, to));
      while i < |refs|
        invariant 0 <= i <= |refs|
        invariant result == Group(done)
        invariant UpdateFrom(refs, 0, {}, from, to) == Prepend(done, UpdateFrom(refs, i, seen, from, to))
      {
        var ref := refs[i];
        if ref.span in seen {
          i := i + 1;
          continue;
        }
        UpdateFromStep(refs, i, seen, from, to);
        ghost var before := done;
        var out;
        out, done := RefEdits(ref, result, done);
        if out.Err? {
          return Err(out.error);
        }
        PrependPrepend(before, RefContribs(ref, from, to).value, UpdateFrom(refs, i + 1, seen + {ref.span}, from, to));
        result := out.value;
        seen := seen + {ref.span};
        i := i + 1;
      }
      assert done + [] == done;
      res := Ok(result);
    }

    /** The loop body of update for one reference not seen before: its edits added to result, or the error of updatePkgName. */
    method RefEdits(ref: Ref, result: FileEdits, ghost done: seq<Contrib>) returns (out: Result<FileEdits>, ghost done': seq<Contrib>)
      requires result == Group(done)
      ensures out.Err? <==> RefContribs(ref, from, to).Err?
      ensures out.Err? ==> out.error == RefContribs(ref, from, to).error
      ensures out.Ok? ==> done' == done + RefContribs(ref, from, to).value && out.value == Group(done')
    {
      if IsPkgNameDecl(ref) {
        var e := UpdatePkgName(ref.obj, to);
        if e.Err? {
          return Err(e.error), done;
        }
        var c := Contrib(ref, ref.span.uri, e.value, ImportNameEdit);
        GroupSnoc(done, c);
        return Ok(AddEdit(result, ref.span.uri, e.value)), done + [c];
      }
      var c := IdentContrib(ref, to);
      GroupSnoc(done, c);
      var acc := AddEdit(result, ref.span.uri, c.edit);
      done' := done + [c];
      ghost var docs := DocContribs(ref, from, to);
      if ref.isDecl && ref.ident.Some? {
        var doc := DocComment(ref.ident.value);
        if doc.Some? {
          acc, done' := AddDocEdits(ref, doc.value.list, acc, done');
          assert docs == CommentContribs(ref, doc.value.list, 0, from, to);
        } else {
          assert docs == [];
        }
      } else {
        assert docs == [];
      }
      Assoc(done, [c], docs);
      assert RefContribs(ref, from, to) == Ok([c] + docs);
      out := Ok(acc);
    }

    /** The doc-comment edits for the comments of a declaration's doc group; directives are skipped. */
    method AddDocEdits(ref: Ref, list: seq<Comment>, result: FileEdits, ghost done: seq<Contrib>)
      returns (result': FileEdits, ghost done': seq<Contrib>)
      requires result == Group(done)
      ensures done' == done + CommentContribs(ref, list, 0, from, to)
      ensures result' == Group(done')
      ensures result' == Group(done + CommentContribs(ref, list, 0, from, to))
    {
      result', done' := result, done;
      var ci := 0;
      while ci < |list|
        invariant 0 <= ci <= |list|
        invariant result' == Group(done')
        invariant done' + CommentContribs(ref, list, ci, from, to) == done + CommentContribs(ref, list, 0, from, to)
      {
        ghost var mid := done';
        ghost var step: seq<Contrib> := [];
        if !list[ci].isDirective {
          result', done' := AddLineEdits(ref, list[ci], ci, result', done');
          step := LineContribs(ref, list[ci], ci, 0, from, to);
        } else {
          assert done' == mid + step;
        }
        assert CommentContribs(ref, list, ci, from, to) == step + CommentContribs(ref, list, ci + 1, from, to);
        Assoc(mid, step, CommentContribs(ref, list, ci + 1, from, to));
        ci := ci + 1;
      }
    }

    /** The doc edits for every line of comment c (the ci-th of its group). */
    method AddLineEdits(ref: Ref, c: Comment, ci: nat, result: FileEdits, ghost done: seq<Contrib>)
      returns (result': FileEdits, ghost done': seq<Contrib>)
      requires result == Group(done)
      ensures done' == done + LineContribs(ref, c, ci, 0, from, to)
      ensures result' == Group(done')
      ensures result' == Group(done + LineContribs(ref, c, ci, 0, from, to))
    {
      result', done' := result, done;
      var li := 0;
      while li < |c.lines|
        invariant 0 <= li <= |c.lines|
        invariant result' == Group(done')
        invariant done' + LineContribs(ref, c, ci, li, from, to) == done + LineContribs(ref, c, ci, 0, from, to)
      {
        ghost var mid := done';
        var locs := WholeWordMatches(c.lines[li].text, from);
        result', done' := AddLocEdits(ref, c, ci, li, locs, result', done');
        Assoc(mid, LocContribs(ref, c, ci, li, locs, 0, from, to), LineContribs(ref, c, ci, li + 1, from, to));
        li := li + 1;
      }
    }

    /** The doc edits for the whole-word occurrences locs of line li of comment c. */
    method AddLocEdits(ref: Ref, c: Comment, ci: nat, li: nat, locs: seq<nat>, result: FileEdits, ghost done: seq<Contrib>)
      returns (result': FileEdits, ghost done': seq<Contrib>)
      requires li < |c.lines|
      requires result == Group(done)
      ensures done' == done + LocContribs(ref, c, ci, li, locs, 0, from, to)
      ensures result' == Group(done')
      ensures result' == Group(done + LocContribs(ref, c, ci, li, locs, 0, from, to))
    {
      result', done' := result, done;
      var m := 0;
      while m < |locs|
        invariant 0 <= m <= |locs|
        invariant result' == Group(done')
        invariant done' + LocContribs(ref, c, ci, li, locs, m, from, to) == done + LocContribs(ref, c, ci, li, locs, 0, from, to)
      {
        var x := DocContrib(ref, c, ci, li, locs[m], from, to);
        GroupSnoc(done', x);
        Assoc(done', [x], LocContribs(ref, c, ci, li, locs, m + 1, from, to));
        result' := AddEdit(result', x.uri, x.edit);
        done' := done' + [x];
        m := m + 1;
      }
    }
  }

  lemma Assoc(a: seq<Contrib>, b: seq<Contrib>, c: seq<Contrib>)
    ensures (a + b) + c == a + (b + c)
  {
  }

  lemma PrependNil(r: Result<seq<Contrib>>)
    ensures Prepend([], r) == r
  {
    if r.Ok? {
      assert [] + r.value == r.value;
    }
  }

  /** One step of UpdateFrom on a reference whose span is new. */
  lemma UpdateFromStep(refs: seq<Ref>, i: nat, seen: set<Span>, from: string, to: string)
    requires i < |refs| && refs[i].span !in seen
    ensures RefContribs(refs[i], from, to).Err? ==>
              UpdateFrom(refs, i, seen, from, to) == Err(RefContribs(refs[i], from, to).error)
    ensures RefContribs(refs[i], from, to).Ok? ==>
              UpdateFrom(refs, i, seen, from, to) ==
              Prepend(RefContribs(refs[i], from, to).value, UpdateFrom(refs, i + 1, seen + {refs[i].span}, from, to))
  {
  }

  /** renameObj: the checks, then the renamer's flags, the conflict loop and the edits. */
  method RenameObj(newName: string, obj: Symbol, refs: seq<Ref>, renameImpls: bool) returns (res: Result<FileEdits>)
    ensures res == RenameObjSpec(newName, obj, refs, renameImpls)
  {
    var bad := CheckRenamable(obj);
    if bad.Some? {
      return Err(bad.value);
    }
    if obj.name == newName {
      return Err(SameNames(newName));
    }
    if !IsValidIdentifier(newName) {
      return Err(InvalidIdentifier(newName));
    }
    var r := new Renamer(refs, obj.name, newName);
    r.DeriveChangeMethods(renameImpls);
    r.CollectPackages();
    assert r.changeMethods == ChangeMethods(refs, renameImpls);
    r.CheckAll();
    if r.hadConflicts {
      return Err(Conflict(r.conflictAt));
    }
    res := r.Update();
  }
}
