/**
 * The entry points. PrepareRename decides whether the cursor is on
 * something renamable and what range and text the editor offers; Rename
 * computes the edits, either of a package rename or of a symbol rename, and
 * for an interface method also the optional edits renaming each
 * implementation, each tagged with a change annotation.
 */
module Dispatch {
  import opened Text
  import opened Model
  import opened Synthesis
  import opened SymbolRename
  import opened PackagePlan
  import opened PackageRename
  import opened PackageProps

  // ---------------------------------------------------------------------
  // Requests
  // ---------------------------------------------------------------------

  /** The syntax node a prepare answer covers: its range, and whether it is an import spec. */
  datatype TargetNode = TargetNode(range: Range, isImportSpec: bool)

  /** The object at the cursor (qualifiedObjsAtProtocolPos), its node, and its references. */
  datatype Target = Target(node: TargetNode, obj: Symbol, refs: seq<Ref>)

  /** One implementation of the interface method at the cursor, with its references. */
  datatype Impl = Impl(obj: Symbol, refs: seq<Ref>)

  /**
   * What a request reads from the snapshot: whether the cursor is on the
   * package name (isInPackageName), the metadata of the file's packages,
   * the range of the identifier in the file's package clause, the object at
   * the cursor (None when there is none), and the implementations of that
   * object.
   */
  datatype Request = Request(inPackageName: bool, fileMeta: seq<Metadata>, packageName: Range,
                             target: Option<Target>, impls: seq<Impl>)

  // ---------------------------------------------------------------------
  // PrepareRename
  // ---------------------------------------------------------------------

  datatype PrepareItem = PrepareItem(range: Range, text: string)

  /** computePrepareRenameResp: the node's range, collapsed to its start for an import spec, and the text. */
  function ComputePrepareRenameResp(node: TargetNode, text: string): PrepareItem {
    if node.isImportSpec then PrepareItem(Range(node.range.start, node.range.start), text)
    else PrepareItem(node.range, text)
  }

  /** PrepareRename: the package-name checks, or the object checks, then the answer. */
  function PrepareRename(s: Snapshot, req: Request): Result<PrepareItem> {
    if req.inPackageName then
      if |req.fileMeta| == 0 then Err(NoPackagesForFile)
      else
        var meta := req.fileMeta[0];
        if meta.name == "main" then Err(MainPackage)
        else if HasSuffix(meta.name, "_test") then Err(TestPackage)
        else if meta.modulePath.None? then Err(MissingModuleInfo(meta.path))
        else if meta.modulePath.value == meta.path then Err(ModuleIsPackage(meta.path))
        else if meta.id !in s.packages then Err(PackageUnavailable(meta.id))
        else Ok(ComputePrepareRenameResp(TargetNode(req.packageName, false), s.packages[meta.id].name))
    else if req.target.None? then Err(NoIdentifierFound)
    else if CheckRenamable(req.target.value.obj).Some? then Err(CheckRenamable(req.target.value.obj).value)
    else Ok(ComputePrepareRenameResp(req.target.value.node, req.target.value.obj.name))
  }

  /**
   * A package can be prepared for renaming exactly when the file has
   * package metadata whose first entry is neither `main` nor an `_test`
   * package, has module information, is not the module root, and is in
   * the workspace; the answer is the package clause's identifier with the package's
   * name. Each failed check has its own error, in that order.
   */
  lemma PreparePackageOk(s: Snapshot, req: Request)
    requires req.inPackageName
    ensures PrepareRename(s, req).Ok? <==>
              && |req.fileMeta| > 0 && req.fileMeta[0].name != "main" && !HasSuffix(req.fileMeta[0].name, "_test")
              && req.fileMeta[0].modulePath.Some? && req.fileMeta[0].modulePath.value != req.fileMeta[0].path
              && req.fileMeta[0].id in s.packages
    ensures PrepareRename(s, req).Ok? ==>
              && PrepareRename(s, req).value.text == s.packages[req.fileMeta[0].id].name
              && PrepareRename(s, req).value.range == req.packageName
    ensures |req.fileMeta| == 0 ==> PrepareRename(s, req) == Err(NoPackagesForFile)
    ensures |req.fileMeta| > 0 && req.fileMeta[0].name == "main" ==> PrepareRename(s, req) == Err(MainPackage)
    ensures |req.fileMeta| > 0 && req.fileMeta[0].name != "main" && HasSuffix(req.fileMeta[0].name, "_test") ==>
              PrepareRename(s, req) == Err(TestPackage)
    ensures |req.fileMeta| > 0 && req.fileMeta[0].name != "main" && !HasSuffix(req.fileMeta[0].name, "_test") &&
            req.fileMeta[0].modulePath.None? ==>
              PrepareRename(s, req) == Err(MissingModuleInfo(req.fileMeta[0].path))
    ensures |req.fileMeta| > 0 && req.fileMeta[0].name != "main" && !HasSuffix(req.fileMeta[0].name, "_test") &&
            req.fileMeta[0].modulePath == Some(req.fileMeta[0].path) ==>
              PrepareRename(s, req) == Err(ModuleIsPackage(req.fileMeta[0].path))
    ensures |req.fileMeta| > 0 && req.fileMeta[0].name != "main" && !HasSuffix(req.fileMeta[0].name, "_test") &&
            req.fileMeta[0].modulePath.Some? && req.fileMeta[0].modulePath.value != req.fileMeta[0].path &&
            req.fileMeta[0].id !in s.packages ==>
              PrepareRename(s, req) == Err(PackageUnavailable(req.fileMeta[0].id))
  {
  }

  /**
   * An object can be prepared for renaming exactly when there is one at the
   * cursor and checkRenamable accepts it; the answer is its node (an import
   * spec collapsed to its start) with its name. Otherwise the error is
   * that there is no identifier, or checkRenamable's.
   */
  lemma PrepareObjectOk(s: Snapshot, req: Request)
    requires !req.inPackageName
    ensures PrepareRename(s, req).Ok? <==> req.target.Some? && CheckRenamable(req.target.value.obj).None?
    ensures req.target.None? ==> PrepareRename(s, req) == Err(NoIdentifierFound)
    ensures req.target.Some? && CheckRenamable(req.target.value.obj).Some? ==>
              PrepareRename(s, req) == Err(CheckRenamable(req.target.value.obj).value)
    ensures PrepareRename(s, req).Ok? ==>
              && PrepareRename(s, req).value.text == req.target.value.obj.name
              && PrepareRename(s, req).value.range.start == req.target.value.node.range.start
              && (req.target.value.node.isImportSpec ==> PrepareRename(s, req).value.range.end == req.target.value.node.range.start)
              && (!req.target.value.node.isImportSpec ==> PrepareRename(s, req).value.range == req.target.value.node.range)
  {
  }

  // ---------------------------------------------------------------------
  // The optional edits of an interface rename
  // ---------------------------------------------------------------------

  datatype ChangeAnnotation = ChangeAnnotation(labelText: string, needsConfirmation: bool, description: string)

  /** A text edit carrying the identifier of its change annotation. */
  datatype AnnotatedEdit = AnnotatedEdit(edit: Edit, annotationId: string)

  type AnnotatedEdits = map<Uri, seq<AnnotatedEdit>>

  datatype OptionalEdits = OptionalEdits(edits: AnnotatedEdits, annotations: map<string, ChangeAnnotation>)

  function AnnOf(m: AnnotatedEdits, u: Uri): seq<AnnotatedEdit> {
    if u in m then m[u] else []
  }

  /** The edits es, each tagged with id. */
  function TagEdits(es: seq<Edit>, id: string): (r: seq<AnnotatedEdit>)
    ensures |r| == |es|
    ensures forall j :: 0 <= j < |es| ==> r[j] == AnnotatedEdit(es[j], id)
    decreases |es|
  {
    if es == [] then [] else TagEdits(es[..|es| - 1], id) + [AnnotatedEdit(es[|es| - 1], id)]
  }

  /** The edits of ch tagged with id; a file without edits gets no entry (nothing is appended for it). */
  function Tagged(ch: FileEdits, id: string): AnnotatedEdits {
    map u | u in ch && ch[u] != [] :: TagEdits(ch[u], id)
  }

  function MergeAnn(m: AnnotatedEdits, t: AnnotatedEdits): (r: AnnotatedEdits)
    ensures forall v :: v in r <==> v in m || v in t
    ensures forall u :: AnnOf(r, u) == AnnOf(m, u) + AnnOf(t, u)
  {
    map u | u in m.Keys + t.Keys :: AnnOf(m, u) + AnnOf(t, u)
  }

  /** The annotated edits after the implementations' results subs, the k-th tagged fmt.Sprint(k). */
  function Collect(subs: seq<FileEdits>): AnnotatedEdits
    decreases |subs|
  {
    if subs == [] then map[]
    else MergeAnn(Collect(subs[..|subs| - 1]), Tagged(subs[|subs| - 1], Dec(|subs| - 1)))
  }

  /** The description of an implementation: `Recv.Name` for a method, the bare name otherwise. */
  function ImplDescription(obj: Symbol): string {
    if obj.kind.FuncObj? && obj.kind.recv.Receiver? then obj.kind.recv.typeName + "." + obj.name else obj.name
  }

  function AnnotationFor(k: nat, obj: Symbol): ChangeAnnotation {
    ChangeAnnotation("Rename implementation #" + Dec(k + 1), true, ImplDescription(obj))
  }

  /** The annotations of the first n implementations. */
  function AnnotationsOf(impls: seq<Impl>, n: nat): map<string, ChangeAnnotation>
    requires n <= |impls|
  {
    if n == 0 then map[]
    else AnnotationsOf(impls, n - 1)[Dec(n - 1) := AnnotationFor(n - 1, impls[n - 1].obj)]
  }

  function ThenSubs(done: seq<FileEdits>, r: Result<seq<FileEdits>>): Result<seq<FileEdits>> {
    match r
    case Err(e) => Err(e)
    case Ok(rest) => Ok(done + rest)
  }

  /** renameObj of one implementation, with renameImpls set. */
  function ImplRename(newName: string, impl: Impl): Result<FileEdits> {
    RenameObjSpec(newName, impl.obj, impl.refs, true)
  }

  /** renameObj of each of impls[i..]; the first error ends the fan-out. */
  function ImplResults(newName: string, impls: seq<Impl>, i: nat): Result<seq<FileEdits>>
    decreases |impls| - i
  {
    if i >= |impls| then Ok([])
    else
      match ImplRename(newName, impls[i])
      case Err(e) => Err(e)
      case Ok(ch) => ThenSubs([ch], ImplResults(newName, impls, i + 1))
  }

  /** The optional edits: every implementation's edits, tagged, and one annotation per implementation. */
  function FanOut(newName: string, impls: seq<Impl>): Result<OptionalEdits> {
    match ImplResults(newName, impls, 0)
    case Err(e) => Err(e)
    case Ok(subs) => Ok(OptionalEdits(Collect(subs), AnnotationsOf(impls, |impls|)))
  }

  /** The annotated edits of file u, implementation by implementation. */
  function PerFile(subs: seq<FileEdits>, u: Uri): seq<AnnotatedEdit>
    decreases |subs|
  {
    if subs == [] then []
    else PerFile(subs[..|subs| - 1], u) + TagEdits(EditsOf(subs[|subs| - 1], u), Dec(|subs| - 1))
  }

  // ---------------------------------------------------------------------
  // isInterfaceSignature
  // ---------------------------------------------------------------------

  /**
   * isInterfaceSignature as written: it reads the receiver of every
   * function without checking that there is one, so for a plain function
   * it dereferences nil. None stands for that panic.
   */
  function IsInterfaceSignatureAsWritten(obj: Symbol): Option<bool> {
    if obj.kind.FuncObj? then
      (match obj.kind.recv
       case NoReceiver => None
       case Receiver(_, isInterface) => Some(isInterface))
    else Some(false)
  }

  /** Renaming any plain function reaches the nil dereference. */
  lemma PlainFunctionPanics(name: string)
    ensures IsInterfaceSignatureAsWritten(Symbol(name, FuncObj(NoReceiver))).None?
  {
  }

  /** isInterfaceSignature with the receiver check renameObj makes: false for a plain function. */
  function IsInterfaceSignature(obj: Symbol): (r: bool)
    ensures IsInterfaceSignatureAsWritten(obj).Some? ==> r == IsInterfaceSignatureAsWritten(obj).value
    ensures obj.kind.FuncObj? && obj.kind.recv.NoReceiver? ==> !r
  {
    IsInterfaceMethod(obj)
  }

  // ---------------------------------------------------------------------
  // Rename
  // ---------------------------------------------------------------------

  /** The edits, and the optional annotated edits of an interface rename. */
  datatype Renamed = Renamed(edits: FileEdits, optional: Option<OptionalEdits>)

  /** Rename's results: the outcome, and whether the request was a package rename (reported also on error). */
  datatype RenameOutcome = RenameOutcome(result: Result<Renamed>, isPackageRename: bool)

  function RenamePackageRequest(s: Snapshot, req: Request, newName: string): Result<Renamed> {
    if !IsValidIdentifier(newName) then Err(InvalidIdentifier(newName))
    else if |req.fileMeta| == 0 then Err(NoPackagesForFile)
    else
      var meta := req.fileMeta[0];
      if meta.modulePath.None? then Err(MissingModuleInfo(meta.path))
      else if HasSuffix(newName, "_test") then Err(TestSuffixName)
      else
        match RenamePackageSpec(s, meta.modulePath.value, meta.path, newName, s.allMetadata)
        case Err(e) => Err(e)
        case Ok(edits) => Ok(Renamed(edits, None))
  }

  function RenameSymbolRequest(req: Request, newName: string): Result<Renamed> {
    if req.target.None? then Err(NoIdentifierFound)
    else
      var t := req.target.value;
      match RenameObjSpec(newName, t.obj, t.refs, false)
      case Err(e) => Err(e)
      case Ok(result) =>
        if IsInterfaceSignature(t.obj) then
          (match FanOut(newName, req.impls)
           case Err(e) => Err(e)
           case Ok(opt) => Ok(Renamed(result, Some(opt))))
        else Ok(Renamed(result, None))
  }

  function RenameSpec(s: Snapshot, req: Request, newName: string): RenameOutcome {
    if req.inPackageName then RenameOutcome(RenamePackageRequest(s, req, newName), true)
    else RenameOutcome(RenameSymbolRequest(req, newName), false)
  }

  /** The inner `for _, te := range res` loops: append each file's edits of ch, tagged with id. */
  method AddTagged(acc: AnnotatedEdits, ch: FileEdits, id: string) returns (r: AnnotatedEdits)
    ensures r == MergeAnn(acc, Tagged(ch, id))
  {
    r := acc;
    var todo := ch.Keys;
    ghost var d: FileEdits := map[];
    MergeAnnNothing(acc, id);
    while todo != {}
      invariant todo <= ch.Keys
      invariant d.Keys == ch.Keys - todo
      invariant forall v :: v in d ==> d[v] == ch[v]
      invariant r == MergeAnn(acc, Tagged(d, id))
      decreases |todo|
    {
      var u :| u in todo;
      var res := ch[u];
      AppendTaggedStep(acc, d, u, res, id);
      r := AppendTagged(r, u, res, id);
      assert r == MergeAnn(acc, Tagged(d[u := res], id));
      d := d[u := res];
      todo := todo - {u};
    }
    assert d == ch;
  }

  /** Appending the edits res of file u, tagged with id; nothing changes when there are none. */
  function WithTagged(m: AnnotatedEdits, u: Uri, res: seq<Edit>, id: string): AnnotatedEdits {
    if res == [] then m else m[u := AnnOf(m, u) + TagEdits(res, id)]
  }

  /** `for _, te := range res { te.AnnotationID = id; annotated[u] = append(annotated[u], te) }` */
  method AppendTagged(m: AnnotatedEdits, u: Uri, res: seq<Edit>, id: string) returns (r: AnnotatedEdits)
    ensures r == WithTagged(m, u, res, id)
  {
    r := m;
    for j := 0 to |res|
      invariant r == WithTagged(m, u, res[..j], id)
    {
      WithTaggedSnoc(m, u, res[..j], res[j], id);
      assert res[..j + 1] == res[..j] + [res[j]];
      r := r[u := AnnOf(r, u) + [AnnotatedEdit(res[j], id)]];
    }
    assert res[..|res|] == res;
  }

  lemma WithTaggedSnoc(m: AnnotatedEdits, u: Uri, p: seq<Edit>, e: Edit, id: string)
    ensures var w := WithTagged(m, u, p, id);
            WithTagged(m, u, p + [e], id) == w[u := AnnOf(w, u) + [AnnotatedEdit(e, id)]]
  {
    assert (p + [e])[..|p|] == p;
    assert TagEdits(p + [e], id) == TagEdits(p, id) + [AnnotatedEdit(e, id)];
    var x := AnnotatedEdit(e, id);
    if p == [] {
      assert TagEdits(p, id) == [];
      assert AnnOf(m, u) + [x] == AnnOf(m, u) + TagEdits(p + [e], id);
    } else {
      assert AnnOf(m, u) + TagEdits(p + [e], id) == (AnnOf(m, u) + TagEdits(p, id)) + [x];
    }
  }


  /** The fan-out loop over the implementations. */
  method RenameImplementations(newName: string, impls: seq<Impl>) returns (res: Result<OptionalEdits>)
    ensures res == FanOut(newName, impls)
  {
    var annotated: AnnotatedEdits := map[];
    var annotations: map<string, ChangeAnnotation> := map[];
    ghost var done: seq<FileEdits> := [];
    ThenSubsNil(ImplResults(newName, impls, 0));
    for k := 0 to |impls|
      invariant |done| == k
      invariant ImplResults(newName, impls, 0) == ThenSubs(done, ImplResults(newName, impls, k))
      invariant annotated == Collect(done)
      invariant annotations == AnnotationsOf(impls, k)
    {
      var sub := RenameObj(newName, impls[k].obj, impls[k].refs, true);
      if sub.Err? {
        ImplResultsStep(newName, impls, k, done);
        return Err(sub.error);
      }
      annotated := AddTagged(annotated, sub.value, Dec(k));
      var name := ImplDescription(impls[k].obj);
      annotations := annotations[Dec(k) := ChangeAnnotation("Rename implementation #" + Dec(k + 1), true, name)];
      ImplResultsStep(newName, impls, k, done);
      CollectSnoc(done, sub.value);
      done := done + [sub.value];
    }
    assert done + [] == done;
    return Ok(OptionalEdits(annotated, annotations));
  }

  /** Rename: the package branch or the symbol branch, as RenameSpec says. */
  method Rename(s: Snapshot, req: Request, newName: string) returns (out: RenameOutcome)
    ensures out == RenameSpec(s, req, newName)
  {
    if req.inPackageName {
      if !IsValidIdentifier(newName) {
        return RenameOutcome(Err(InvalidIdentifier(newName)), true);
      }
      if |req.fileMeta| == 0 {
        return RenameOutcome(Err(NoPackagesForFile), true);
      }
      var meta := req.fileMeta[0];
      var oldPath := meta.path;
      if meta.modulePath.None? {
        return RenameOutcome(Err(MissingModuleInfo(meta.path)), true);
      }
      var modulePath := meta.modulePath.value;
      if HasSuffix(newName, "_test") {
        return RenameOutcome(Err(TestSuffixName), true);
      }
      var edits := RenamePackage(s, modulePath, oldPath, newName, s.allMetadata);
      if edits.Err? {
        return RenameOutcome(Err(edits.error), true);
      }
      return RenameOutcome(Ok(Renamed(edits.value, None)), true);
    }
    if req.target.None? {
      return RenameOutcome(Err(NoIdentifierFound), false);
    }
    var t := req.target.value;
    var result := RenameObj(newName, t.obj, t.refs, false);
    if result.Err? {
      return RenameOutcome(Err(result.error), false);
    }
    if IsInterfaceSignature(t.obj) {
      var opt := RenameImplementations(newName, req.impls);
      if opt.Err? {
        return RenameOutcome(Err(opt.error), false);
      }
      return RenameOutcome(Ok(Renamed(result.value, Some(opt.value))), false);
    }
    return RenameOutcome(Ok(Renamed(result.value, None)), false);
  }

  // ---------------------------------------------------------------------
  // Properties of the fan-out
  // ---------------------------------------------------------------------

  /** id is fmt.Sprint(k) for one of the first n indices. */
  predicate IsIndexKey(id: string, n: nat) {
    exists k :: 0 <= k < n && id == Dec(k)
  }

  /** Every annotation is filed under the index of some implementation. */
  lemma {:induction false} AnnotationKeys(impls: seq<Impl>, n: nat, id: string)
    requires n <= |impls|
    requires id in AnnotationsOf(impls, n)
    ensures IsIndexKey(id, n)
  {
    if id == Dec(n - 1) {
      assert 0 <= n - 1 < n && id == Dec(n - 1);
    } else {
      AnnotationKeys(impls, n - 1, id);
    }
  }

  /** The k-th implementation's annotation is filed under fmt.Sprint(k), labelled k+1. */
  lemma {:induction false} AnnotationAt(impls: seq<Impl>, n: nat, k: nat)
    requires k < n <= |impls|
    ensures Dec(k) in AnnotationsOf(impls, n)
    ensures AnnotationsOf(impls, n)[Dec(k)] == AnnotationFor(k, impls[k].obj)
  {
    if k < n - 1 {
      AnnotationAt(impls, n - 1, k);
      if Dec(k) == Dec(n - 1) {
        DecInjective(k, n - 1);
      }
    }
  }

  /** The fan-out succeeds when every implementation renames; otherwise it reports the first failure. */
  lemma {:induction false} ImplResultsOk(newName: string, impls: seq<Impl>, i: nat)
    requires i <= |impls|
    requires ImplResults(newName, impls, i).Ok?
    ensures |ImplResults(newName, impls, i).value| == |impls| - i
    ensures forall k :: i <= k < |impls| ==> ImplRename(newName, impls[k]) == Ok(ImplResults(newName, impls, i).value[k - i])
    decreases |impls| - i
  {
    if i < |impls| {
      var c := ImplRename(newName, impls[i]).value;
      var r := ImplResults(newName, impls, i + 1).value;
      var all := [c] + r;
      assert ImplResults(newName, impls, i).value == all;
      ImplResultsOk(newName, impls, i + 1);
      forall k | i < k < |impls| ensures ImplRename(newName, impls[k]) == Ok(all[k - i]) {
        assert all[k - i] == r[k - (i + 1)];
      }
    }
  }

  lemma {:induction false} ImplResultsErr(newName: string, impls: seq<Impl>, i: nat)
    requires i <= |impls|
    requires ImplResults(newName, impls, i).Err?
    ensures exists k :: i <= k < |impls| && ImplRename(newName, impls[k]) == Err(ImplResults(newName, impls, i).error) &&
                        forall j :: i <= j < k ==> ImplRename(newName, impls[j]).Ok?
    decreases |impls| - i
  {
    var e := ImplResults(newName, impls, i).error;
    if ImplRename(newName, impls[i]).Ok? {
      assert ImplResults(newName, impls, i + 1) == Err(e);
      ImplResultsErr(newName, impls, i + 1);
      var k :| i + 1 <= k < |impls| && ImplRename(newName, impls[k]) == Err(e) &&
               forall j :: i + 1 <= j < k ==> ImplRename(newName, impls[j]).Ok?;
      assert forall j :: i <= j < k ==> ImplRename(newName, impls[j]).Ok?;
    }
  }


  lemma TaggedOf(ch: FileEdits, id: string, u: Uri)
    ensures AnnOf(Tagged(ch, id), u) == TagEdits(EditsOf(ch, u), id)
  {
  }

  /** The annotated edits of each file are the implementations' edits of that file, in implementation order. */
  lemma {:induction false} CollectPerFile(subs: seq<FileEdits>, u: Uri)
    ensures AnnOf(Collect(subs), u) == PerFile(subs, u)
    decreases |subs|
  {
    if subs != [] {
      CollectPerFile(subs[..|subs| - 1], u);
      TaggedOf(subs[|subs| - 1], Dec(|subs| - 1), u);
    }
  }

  /** An annotated edit of a file is an edit of that file by some implementation k, tagged with k. */
  lemma {:induction false} PerFileSound(subs: seq<FileEdits>, u: Uri, x: AnnotatedEdit)
    requires x in PerFile(subs, u)
    ensures exists k :: 0 <= k < |subs| && x.annotationId == Dec(k) && x.edit in EditsOf(subs[k], u)
    decreases |subs|
  {
    var n := |subs| - 1;
    var pre := subs[..n];
    var t := TagEdits(EditsOf(subs[n], u), Dec(n));
    if x in PerFile(pre, u) {
      PerFileSound(pre, u, x);
      var k :| 0 <= k < |pre| && x.annotationId == Dec(k) && x.edit in EditsOf(pre[k], u);
      assert pre[k] == subs[k];
    } else {
      assert x in t;
      var j :| 0 <= j < |t| && t[j] == x;
      assert x.edit == EditsOf(subs[n], u)[j];
    }
  }

  /** Every edit of a file by implementation k appears among the file's annotated edits, tagged with k. */
  lemma {:induction false} PerFileComplete(subs: seq<FileEdits>, u: Uri, k: nat, e: Edit)
    requires k < |subs| && e in EditsOf(subs[k], u)
    ensures AnnotatedEdit(e, Dec(k)) in PerFile(subs, u)
    decreases |subs|
  {
    var n := |subs| - 1;
    var pre := subs[..n];
    if k < n {
      assert pre[k] == subs[k];
      PerFileComplete(pre, u, k, e);
    } else {
      var es := EditsOf(subs[n], u);
      var j :| 0 <= j < |es| && es[j] == e;
      assert TagEdits(es, Dec(n))[j] == AnnotatedEdit(e, Dec(k));
    }
  }

  /**
   * The annotations of an interface rename: every implementation is renamed
   * with renameImpls set and gets its annotation (index k, label
   * "Rename implementation #k+1", confirmation required), and there are no
   * others.
   */
  lemma FanOutAnnotations(newName: string, impls: seq<Impl>)
    requires FanOut(newName, impls).Ok?
    ensures ImplResults(newName, impls, 0).Ok?
    ensures FanOut(newName, impls).value.annotations == AnnotationsOf(impls, |impls|)
    ensures var o := FanOut(newName, impls).value;
            forall id :: id in o.annotations ==> IsIndexKey(id, |impls|)
    ensures var o := FanOut(newName, impls).value;
            forall k :: 0 <= k < |impls| ==> Dec(k) in o.annotations && o.annotations[Dec(k)] == AnnotationFor(k, impls[k].obj)
    ensures forall k :: 0 <= k < |impls| ==> ImplRename(newName, impls[k]).Ok?
  {
    var o := FanOut(newName, impls).value;
    forall k | 0 <= k < |impls| ensures Dec(k) in o.annotations && o.annotations[Dec(k)] == AnnotationFor(k, impls[k].obj) {
      AnnotationAt(impls, |impls|, k);
    }
    forall id | id in o.annotations ensures IsIndexKey(id, |impls|) {
      AnnotationKeys(impls, |impls|, id);
    }
    ImplResultsAllOk(newName, impls);
  }

  /** x is an edit of file u by implementation k, tagged with k's index. */
  predicate FromImpl(newName: string, impls: seq<Impl>, u: Uri, x: AnnotatedEdit) {
    exists k :: 0 <= k < |impls| && x.annotationId == Dec(k) && ImplRename(newName, impls[k]).Ok? &&
                x.edit in EditsOf(ImplRename(newName, impls[k]).value, u)
  }

  /**
   * The annotated edits of an interface rename: each file's are the
   * implementations' edits of it in implementation order.
   */
  lemma FanOutEdits(newName: string, impls: seq<Impl>, u: Uri)
    requires FanOut(newName, impls).Ok?
    ensures ImplResults(newName, impls, 0).Ok?
    ensures AnnOf(FanOut(newName, impls).value.edits, u) == PerFile(ImplResults(newName, impls, 0).value, u)
  {
    CollectPerFile(ImplResults(newName, impls, 0).value, u);
  }

  /**
   * Each annotated edit of an interface rename carries the annotation of the
   * implementation it comes from.
   */
  lemma FanOutEditSound(newName: string, impls: seq<Impl>, u: Uri, x: AnnotatedEdit)
    requires FanOut(newName, impls).Ok?
    requires x in AnnOf(FanOut(newName, impls).value.edits, u)
    ensures x.annotationId in FanOut(newName, impls).value.annotations
    ensures FromImpl(newName, impls, u, x)
  {
    var subs := ImplResults(newName, impls, 0).value;
    FanOutEdits(newName, impls, u);
    ImplResultsAllOk(newName, impls);
    PerFileSound(subs, u, x);
    var k :| 0 <= k < |subs| && x.annotationId == Dec(k) && x.edit in EditsOf(subs[k], u);
    assert ImplRename(newName, impls[k]) == Ok(subs[k]);
    AnnotationAt(impls, |impls|, k);
  }

  /** Every edit of every implementation is among the annotated edits, tagged with its index. */
  lemma FanOutEditComplete(newName: string, impls: seq<Impl>, u: Uri, k: nat, e: Edit)
    requires FanOut(newName, impls).Ok?
    requires k < |impls|
    requires ImplRename(newName, impls[k]).Ok? && e in EditsOf(ImplRename(newName, impls[k]).value, u)
    ensures AnnotatedEdit(e, Dec(k)) in AnnOf(FanOut(newName, impls).value.edits, u)
  {
    var subs := ImplResults(newName, impls, 0).value;
    FanOutEdits(newName, impls, u);
    ImplResultsAllOk(newName, impls);
    assert ImplRename(newName, impls[k]) == Ok(subs[k]);
    PerFileComplete(subs, u, k, e);
  }

  /** When the fan-out succeeds, every implementation renames. */
  lemma ImplResultsAllOk(newName: string, impls: seq<Impl>)
    requires ImplResults(newName, impls, 0).Ok?
    ensures |ImplResults(newName, impls, 0).value| == |impls|
    ensures forall k :: 0 <= k < |impls| ==> ImplRename(newName, impls[k]) == Ok(ImplResults(newName, impls, 0).value[k])
  {
    ImplResultsOk(newName, impls, 0);
  }

  /** A failed fan-out reports the error of the first implementation that cannot be renamed. */
  lemma FanOutErr(newName: string, impls: seq<Impl>)
    requires FanOut(newName, impls).Err?
    ensures exists k :: 0 <= k < |impls| && ImplRename(newName, impls[k]) == Err(FanOut(newName, impls).error) &&
                        forall j :: 0 <= j < k ==> ImplRename(newName, impls[j]).Ok?
  {
    ImplResultsErr(newName, impls, 0);
  }

  // ---------------------------------------------------------------------
  // Properties of Rename
  // ---------------------------------------------------------------------

  /**
   * A package rename reports itself as one, also on error, and fails before
   * computing any edit when the new name is not an identifier, ends in
   * `_test`, or the package is its module's root; any other failure is one
   * renamePackage traces to a metadata entry.
   */
  lemma RenamePackageRequestOk(s: Snapshot, req: Request, newName: string)
    requires req.inPackageName
    ensures RenameSpec(s, req, newName).isPackageRename
    ensures var r := RenameSpec(s, req, newName).result;
            && (!IsValidIdentifier(newName) ==> r == Err(InvalidIdentifier(newName)))
            && (IsValidIdentifier(newName) && |req.fileMeta| == 0 ==> r == Err(NoPackagesForFile))
            && (IsValidIdentifier(newName) && |req.fileMeta| > 0 && req.fileMeta[0].modulePath.None? ==>
                  r == Err(MissingModuleInfo(req.fileMeta[0].path)))
            && (IsValidIdentifier(newName) && |req.fileMeta| > 0 && req.fileMeta[0].modulePath.Some? && HasSuffix(newName, "_test") ==>
                  r == Err(TestSuffixName))
            && (IsValidIdentifier(newName) && |req.fileMeta| > 0 && req.fileMeta[0].modulePath == Some(req.fileMeta[0].path) &&
                !HasSuffix(newName, "_test") ==>
                  r == Err(ModuleIsPackage(req.fileMeta[0].path)))
            && (IsValidIdentifier(newName) && |req.fileMeta| > 0 && req.fileMeta[0].modulePath.Some? &&
                req.fileMeta[0].modulePath.value != req.fileMeta[0].path && !HasSuffix(newName, "_test") && r.Err? ==>
                  MetaError(s, req.fileMeta[0].modulePath.value, req.fileMeta[0].path, s.allMetadata, 0, r.error))
            && (r.Ok? ==>
                  && r.value.optional.None? && |req.fileMeta| > 0 && req.fileMeta[0].modulePath.Some?
                  && Plan(s, req.fileMeta[0].modulePath.value, req.fileMeta[0].path, newName, s.allMetadata).Ok?
                  && r.value.edits == RealizeFrom(map[], Plan(s, req.fileMeta[0].modulePath.value, req.fileMeta[0].path, newName, s.allMetadata).value))
  {
    if |req.fileMeta| > 0 && req.fileMeta[0].modulePath.Some? {
      RenamePackageErrors(s, req.fileMeta[0].modulePath.value, req.fileMeta[0].path, newName, s.allMetadata);
    }
  }

  /**
   * A symbol rename: its edits are renameObj's; optional edits come exactly
   * with an interface method (never with a plain function), and are then
   * the fan-out over the implementations.
   */
  lemma RenameSymbolRequestOk(req: Request, newName: string)
    requires !req.inPackageName
    ensures var r := RenameSymbolRequest(req, newName);
            && (req.target.None? ==> r == Err(NoIdentifierFound))
            && (r.Ok? ==> && req.target.Some?
                          && RenameObjSpec(newName, req.target.value.obj, req.target.value.refs, false) == Ok(r.value.edits)
                          && (r.value.optional.Some? <==> IsInterfaceMethod(req.target.value.obj))
                          && (r.value.optional.Some? ==> FanOut(newName, req.impls) == Ok(r.value.optional.value)))
            && (r.Err? && req.target.Some? ==>
                  RenameObjSpec(newName, req.target.value.obj, req.target.value.refs, false) == Err(r.error) ||
                  (IsInterfaceMethod(req.target.value.obj) && FanOut(newName, req.impls) == Err(r.error)))
  {
  }

  /**
   * What PrepareRename accepts, Rename does not reject for the reasons
   * PrepareRename checks: for a package, with an identifier not ending in
   * `_test`, only renamePackage's own failures remain; for an object,
   * renameObj fails only on the new name, a conflict or a malformed import.
   */
  lemma PrepareThenRename(s: Snapshot, req: Request, newName: string)
    requires PrepareRename(s, req).Ok?
    ensures var r := RenameSpec(s, req, newName).result;
            && (req.inPackageName && IsValidIdentifier(newName) && !HasSuffix(newName, "_test") && r.Err? ==>
                  MetaError(s, req.fileMeta[0].modulePath.value, req.fileMeta[0].path, s.allMetadata, 0, r.error))
            && (!req.inPackageName ==>
                  var e := RenameObjSpec(newName, req.target.value.obj, req.target.value.refs, false);
                  e.Err? ==> r == Err(e.error) && !e.error.EmbeddedField? && !e.error.BlankIdentifier?)
  {
    if req.inPackageName {
      RenamePackageRequestOk(s, req, newName);
    } else {
      var t := req.target.value;
      if UpdateFrom(t.refs, 0, {}, t.obj.name, newName).Err? {
        UpdateErrorIsPkgName(t.refs, 0, {}, t.obj.name, newName);
      }
    }
  }

  // ---------------------------------------------------------------------
  // Helper lemmas for the loops
  // ---------------------------------------------------------------------

  lemma ThenSubsNil(r: Result<seq<FileEdits>>)
    ensures ThenSubs([], r) == r
  {
    if r.Ok? {
      assert [] + r.value == r.value;
    }
  }

  lemma ThenSubsThenSubs(a: seq<FileEdits>, b: seq<FileEdits>, r: Result<seq<FileEdits>>)
    ensures ThenSubs(a, ThenSubs(b, r)) == ThenSubs(a + b, r)
  {
    if r.Ok? {
      assert a + (b + r.value) == (a + b) + r.value;
    }
  }

  lemma TaggedSnoc(d: FileEdits, u: Uri, es: seq<Edit>, id: string)
    requires u !in d
    ensures u !in Tagged(d, id)
    ensures es == [] ==> Tagged(d[u := es], id) == Tagged(d, id)
    ensures es != [] ==> Tagged(d[u := es], id) == Tagged(d, id)[u := TagEdits(es, id)]
  {
    var lhs, t := Tagged(d[u := es], id), Tagged(d, id);
    var rhs := if es == [] then t else t[u := TagEdits(es, id)];
    forall v ensures (v in lhs <==> v in rhs) && AnnOf(lhs, v) == AnnOf(rhs, v) {
      if v != u {
        assert v in d[u := es] <==> v in d;
      }
    }
    SameAnnotated(lhs, rhs);
  }

  lemma MergeAnnSnoc(m: AnnotatedEdits, t: AnnotatedEdits, u: Uri, es: seq<AnnotatedEdit>)
    requires u !in t
    ensures MergeAnn(m, t[u := es]) == MergeAnn(m, t)[u := AnnOf(MergeAnn(m, t), u) + es]
  {
    var mid := MergeAnn(m, t);
    var lhs := MergeAnn(m, t[u := es]);
    var rhs := mid[u := AnnOf(mid, u) + es];
    forall v ensures (v in lhs <==> v in rhs) && AnnOf(lhs, v) == AnnOf(rhs, v) {
      if v == u {
        assert AnnOf(t, u) == [];
        assert AnnOf(m, u) + [] == AnnOf(m, u);
      } else {
        assert AnnOf(t[u := es], v) == AnnOf(t, v);
      }
    }
    SameAnnotated(lhs, rhs);
  }

  /** Two annotated-edit maps with the same files and the same edits of each file are equal. */
  lemma SameAnnotated(a: AnnotatedEdits, b: AnnotatedEdits)
    requires forall v :: (v in a <==> v in b) && AnnOf(a, v) == AnnOf(b, v)
    ensures a == b
  {
    forall v | v in a ensures a[v] == b[v] {
      assert a[v] == AnnOf(a, v);
    }
    assert a.Keys == b.Keys;
  }

  lemma MergeAnnNothing(acc: AnnotatedEdits, id: string)
    ensures MergeAnn(acc, Tagged(map[], id)) == acc
  {
    assert Tagged(map[], id) == map[];
    forall u | u in acc ensures MergeAnn(acc, map[])[u] == acc[u] {
      assert AnnOf(acc, u) + [] == acc[u];
    }
  }

  lemma AppendTaggedStep(acc: AnnotatedEdits, d: FileEdits, u: Uri, res: seq<Edit>, id: string)
    requires u !in d
    ensures WithTagged(MergeAnn(acc, Tagged(d, id)), u, res, id) == MergeAnn(acc, Tagged(d[u := res], id))
  {
    TaggedSnoc(d, u, res, id);
    if res != [] {
      MergeAnnSnoc(acc, Tagged(d, id), u, TagEdits(res, id));
    }
  }

  lemma ImplResultsStep(newName: string, impls: seq<Impl>, k: nat, done: seq<FileEdits>)
    requires k < |impls|
    ensures var sub := ImplRename(newName, impls[k]);
            && (sub.Err? ==> ThenSubs(done, ImplResults(newName, impls, k)) == Err(sub.error))
            && (sub.Ok? ==> ThenSubs(done, ImplResults(newName, impls, k)) == ThenSubs(done + [sub.value], ImplResults(newName, impls, k + 1)))
  {
    var sub := ImplRename(newName, impls[k]);
    if sub.Ok? {
      ThenSubsThenSubs(done, [sub.value], ImplResults(newName, impls, k + 1));
    }
  }

  lemma CollectSnoc(done: seq<FileEdits>, x: FileEdits)
    ensures Collect(done + [x]) == MergeAnn(Collect(done), Tagged(x, Dec(|done|)))
  {
    assert (done + [x])[..|done|] == done;
  }
}
