/**
 * Edit synthesis for a single-symbol rename (renamer.update, docComment,
 * updatePkgName), stated as functions. The imperative renamer in
 * SymbolRename.dfy is proved to compute UpdateResult.
 *
 * Every edit is produced together with its provenance (a Contrib): the
 * reference it belongs to and whether it replaces the identifier, rewrites
 * the name in an import spec, or rewrites a word of a doc comment.
 */
module Synthesis {
  import opened Text
  import opened Model

  // ---------------------------------------------------------------------
  // Finding the doc comment of a declaring identifier (docComment)
  // ---------------------------------------------------------------------

  /** Whether comment group g starts no later than pos and ends on the line just above identLine. */
  predicate EndsJustAbove(g: CommentGroup, pos: nat, identLine: nat) {
    g.pos <= pos && g.endLine + 1 == identLine
  }

  /** The first comment group of the file that ends on the line just above the identifier. */
  function CommentJustAbove(groups: seq<CommentGroup>, pos: nat, identLine: nat): (r: Option<CommentGroup>)
    ensures r.None? <==> forall i :: 0 <= i < |groups| ==> !EndsJustAbove(groups[i], pos, identLine)
    ensures r.Some? ==> exists i :: 0 <= i < |groups| && groups[i] == r.value && EndsJustAbove(groups[i], pos, identLine) &&
                          forall j :: 0 <= j < i ==> !EndsJustAbove(groups[j], pos, identLine)
  {
    if groups == [] then None
    else if EndsJustAbove(groups[0], pos, identLine) then Some(groups[0])
    else
      var r := CommentJustAbove(groups[1..], pos, identLine);
      assert forall j :: 1 <= j < |groups| ==> groups[j] == groups[1..][j - 1];
      r
  }

  /**
   * Whether the outward walk goes past node n: an identifier, a type or
   * value spec without a doc of its own, or a `:=` statement with no comment
   * ending just above the identifier.
   */
  predicate Transparent(n: Node, id: Ident) {
    match n
    case IdentNode => true
    case TypeSpec(doc) => doc.None?
    case ValueSpec(doc) => doc.None?
    case AssignStmt(isDefine) => isDefine && CommentJustAbove(id.fileComments, id.pos, id.line).None?
    case _ => false
  }

  /** The doc comment a node that stops the walk supplies. */
  function StopDoc(n: Node, id: Ident): Option<CommentGroup> {
    match n
    case FuncDecl(doc) => doc
    case Field(doc) => doc
    case GenDecl(doc) => doc
    case TypeSpec(doc) => doc
    case ValueSpec(doc) => doc
    case AssignStmt(isDefine) => if isDefine then CommentJustAbove(id.fileComments, id.pos, id.line) else None
    case _ => None
  }

  /** The walk of docComment over the enclosing nodes path[i..]. */
  function DocFrom(path: seq<Node>, i: nat, id: Ident): (r: Option<CommentGroup>)
    ensures forall k :: (i <= k < |path| && !Transparent(path[k], id) &&
                         (forall j :: i <= j < k ==> Transparent(path[j], id))) ==> r == StopDoc(path[k], id)
    ensures (forall j :: i <= j < |path| ==> Transparent(path[j], id)) ==> r.None?
    decreases |path| - i
  {
    if i >= |path| then None
    else match path[i]
      case FuncDecl(doc) => doc
      case Field(doc) => doc
      case GenDecl(doc) => doc
      case TypeSpec(doc) => if doc.Some? then doc else DocFrom(path, i + 1, id)
      case ValueSpec(doc) => if doc.Some? then doc else DocFrom(path, i + 1, id)
      case IdentNode => DocFrom(path, i + 1, id)
      case AssignStmt(isDefine) =>
        if !isDefine then None
        else
          (match CommentJustAbove(id.fileComments, id.pos, id.line)
           case Some(g) => Some(g)
           case None => DocFrom(path, i + 1, id))
      case OtherNode => None
  }

  /** docComment: the doc comment of the first enclosing node that does not let the walk pass. */
  function DocComment(id: Ident): Option<CommentGroup> {
    DocFrom(id.path, 0, id)
  }

  // ---------------------------------------------------------------------
  // Renaming the declaration of an import name (updatePkgName)
  // ---------------------------------------------------------------------

  predicate IsPkgNameDecl(ref: Ref) {
    ref.obj.kind.PkgNameObj? && ref.isDecl
  }

  /** The text that replaces everything before the path literal of the import spec. */
  function ImportNameText(importedName: string, to: string): string {
    if importedName != to then to + " " else ""
  }

  /**
   * The edit renaming a PkgName: it replaces the part of its import spec
   * before the path literal, dropping the explicit name when the imported
   * package is already called `to` and writing `to ` otherwise. The lookup
   * of the declaring package in r.packages always succeeds, because the
   * declaring reference's package is among those renameObj records.
   */
  function UpdatePkgName(obj: Symbol, to: string): (r: Result<Edit>)
    requires obj.kind.PkgNameObj?
    ensures r.Ok? <==> obj.kind.spec.InImportSpec?
    ensures obj.kind.spec.NoPath? ==> r == Err(NoEnclosingPath(obj.name))
    ensures obj.kind.spec.NotImportSpec? ==> r == Err(NotAnImportSpec(obj.name))
    ensures r.Ok? ==> r.value.start == obj.kind.spec.specStart && r.value.end == obj.kind.spec.pathStart
    ensures r.Ok? ==> (r.value.newText == "" <==> obj.kind.importedName == to)
    ensures r.Ok? && obj.kind.importedName != to ==> r.value.newText == to + " "
  {
    match obj.kind.spec
      case NoPath => Err(NoEnclosingPath(obj.name))
      case NotImportSpec => Err(NotAnImportSpec(obj.name))
      case InImportSpec(specStart, pathStart) => Ok(Edit(specStart, pathStart, ImportNameText(obj.kind.importedName, to)))
  }

  // ---------------------------------------------------------------------
  // Contributions of one reference
  // ---------------------------------------------------------------------

  /** Which of the three kinds of edit a contribution is; a doc edit names comment, line and offset in the line. */
  datatype EditKind = IdentEdit | ImportNameEdit | DocEdit(comment: nat, line: nat, at: nat)

  /** An edit of file `uri`, produced for reference `ref`. */
  datatype Contrib = Contrib(ref: Ref, uri: Uri, edit: Edit, kind: EditKind)

  /** The doc edit for the whole-word occurrence at offset k of line li of comment ci. */
  function DocContrib(ref: Ref, c: Comment, ci: nat, li: nat, k: nat, from: string, to: string): Contrib
    requires li < |c.lines|
  {
    var start := c.lines[li].start + k;
    Contrib(ref, c.uri, Edit(start, start + |from|, to), DocEdit(ci, li, k))
  }

  /** Doc edits for the occurrences locs[m..] of line li of comment ci. */
  function LocContribs(ref: Ref, c: Comment, ci: nat, li: nat, locs: seq<nat>, m: nat, from: string, to: string): seq<Contrib>
    requires li < |c.lines|
    decreases |locs| - m
  {
    if m >= |locs| then [] else [DocContrib(ref, c, ci, li, locs[m], from, to)] + LocContribs(ref, c, ci, li, locs, m + 1, from, to)
  }

  /** Doc edits for the lines li.. of comment ci. */
  function LineContribs(ref: Ref, c: Comment, ci: nat, li: nat, from: string, to: string): seq<Contrib>
    decreases |c.lines| - li
  {
    if li >= |c.lines| then []
    else LocContribs(ref, c, ci, li, WholeWordMatches(c.lines[li].text, from), 0, from, to) + LineContribs(ref, c, ci, li + 1, from, to)
  }

  /** Doc edits for the comments ci.. of a doc comment group; directives are skipped. */
  function CommentContribs(ref: Ref, list: seq<Comment>, ci: nat, from: string, to: string): seq<Contrib>
    decreases |list| - ci
  {
    if ci >= |list| then []
    else (if list[ci].isDirective then [] else LineContribs(ref, list[ci], ci, 0, from, to)) + CommentContribs(ref, list, ci + 1, from, to)
  }

  /** The edit that replaces the reference's identifier by `to`. */
  function IdentContrib(ref: Ref, to: string): Contrib {
    Contrib(ref, ref.span.uri, Edit(ref.span.start, ref.span.end, to), IdentEdit)
  }

  /** The doc-comment edits of a declaring reference (none for a use). */
  function DocContribs(ref: Ref, from: string, to: string): seq<Contrib> {
    if !ref.isDecl || ref.ident.None? then []
    else match DocComment(ref.ident.value)
      case None => []
      case Some(g) => CommentContribs(ref, g.list, 0, from, to)
  }

  /** The edits one reference yields, in the order renamer.update produces them. */
  function RefContribs(ref: Ref, from: string, to: string): Result<seq<Contrib>> {
    if IsPkgNameDecl(ref) then
      match UpdatePkgName(ref.obj, to)
      case Err(e) => Err(e)
      case Ok(e) => Ok([Contrib(ref, ref.span.uri, e, ImportNameEdit)])
    else
      Ok([IdentContrib(ref, to)] + DocContribs(ref, from, to))
  }

  // ---------------------------------------------------------------------
  // All references (renamer.update)
  // ---------------------------------------------------------------------

  /** The edits of refs[i..], skipping references whose span is in `seen` or repeats an earlier one. */
  function UpdateFrom(refs: seq<Ref>, i: nat, seen: set<Span>, from: string, to: string): Result<seq<Contrib>>
    decreases |refs| - i
  {
    if i >= |refs| then Ok([])
    else if refs[i].span in seen then UpdateFrom(refs, i + 1, seen, from, to)
    else
      match RefContribs(refs[i], from, to)
      case Err(e) => Err(e)
      case Ok(cs) =>
        match UpdateFrom(refs, i + 1, seen + {refs[i].span}, from, to)
        case Err(e) => Err(e)
        case Ok(rest) => Ok(cs + rest)
  }

  /** The edits grouped by file, each file's list in production order. */
  function Group(cs: seq<Contrib>): FileEdits
    decreases |cs|
  {
    if cs == [] then map[] else AddEdit(Group(cs[..|cs| - 1]), cs[|cs| - 1].uri, cs[|cs| - 1].edit)
  }

  lemma GroupSnoc(cs: seq<Contrib>, c: Contrib)
    ensures Group(cs + [c]) == AddEdit(Group(cs), c.uri, c.edit)
  {
    assert (cs + [c])[..|cs|] == cs;
  }

  /** The edits of file u among cs, in production order. */
  function EditsFor(cs: seq<Contrib>, u: Uri): seq<Edit>
    decreases |cs|
  {
    if cs == [] then [] else (if cs[0].uri == u then [cs[0].edit] else []) + EditsFor(cs[1..], u)
  }

  lemma {:induction false} EditsForSnoc(cs: seq<Contrib>, c: Contrib, u: Uri)
    ensures EditsFor(cs + [c], u) == EditsFor(cs, u) + (if c.uri == u then [c.edit] else [])
    decreases |cs|
  {
    if cs == [] {
      assert [c][1..] == [];
    } else {
      assert (cs + [c])[0] == cs[0];
      assert (cs + [c])[1..] == cs[1..] + [c];
      EditsForSnoc(cs[1..], c, u);
    }
  }

  /**
   * Grouping keeps, for every file, exactly the edits produced for it, in
   * production order; the files are those some edit was produced for.
   */
  lemma {:induction false} GroupIsPerFile(cs: seq<Contrib>)
    ensures Group(cs).Keys == set x | x in cs :: x.uri
    ensures forall u :: EditsOf(Group(cs), u) == EditsFor(cs, u)
    decreases |cs|
  {
    if cs != [] {
      var a, c := cs[..|cs| - 1], cs[|cs| - 1];
      assert cs == a + [c];
      GroupIsPerFile(a);
      var g := Group(a);
      assert Group(cs) == AddEdit(g, c.uri, c.edit);
      forall u ensures EditsOf(Group(cs), u) == EditsFor(cs, u) {
        EditsForSnoc(a, c, u);
      }
      UrisSnoc(a, c);
    }
  }

  lemma UrisSnoc(a: seq<Contrib>, c: Contrib)
    ensures (set x | x in a + [c] :: x.uri) == (set x | x in a :: x.uri) + {c.uri}
  {
  }

  /** `done` followed by the edits of r, or r's error. */
  function Prepend(done: seq<Contrib>, r: Result<seq<Contrib>>): Result<seq<Contrib>> {
    match r
    case Err(e) => Err(e)
    case Ok(rest) => Ok(done + rest)
  }

  lemma PrependPrepend(a: seq<Contrib>, b: seq<Contrib>, r: Result<seq<Contrib>>)
    ensures Prepend(a, Prepend(b, r)) == Prepend(a + b, r)
  {
    if r.Ok? {
      assert a + (b + r.value) == (a + b) + r.value;
    }
  }

  /** What renamer.update returns for references refs, renaming `from` to `to`. */
  function UpdateResult(refs: seq<Ref>, from: string, to: string): Result<FileEdits> {
    match UpdateFrom(refs, 0, {}, from, to)
    case Err(e) => Err(e)
    case Ok(cs) => Ok(Group(cs))
  }

  // ---------------------------------------------------------------------
  // What every edit is
  // ---------------------------------------------------------------------

  /**
   * ref declares a symbol (not an import name) whose doc comment has, at
   * offset k of line li of its ci-th comment, a whole-word occurrence of
   * `from`, and that comment is not a directive.
   */
  predicate DocWordAt(ref: Ref, ci: nat, li: nat, k: nat, from: string) {
    && ref.isDecl && ref.ident.Some? && !IsPkgNameDecl(ref)
    && var doc := DocComment(ref.ident.value);
    && doc.Some? && ci < |doc.value.list|
    && var c := doc.value.list[ci];
    && !c.isDirective && li < |c.lines|
    && WholeWordAt(c.lines[li].text, from, k)
  }

  /** The edit that rewrites the occurrence DocWordAt describes. */
  function DocWordEdit(ref: Ref, ci: nat, li: nat, k: nat, from: string, to: string): Contrib
    requires DocWordAt(ref, ci, li, k, from)
  {
    DocContrib(ref, DocComment(ref.ident.value).value.list[ci], ci, li, k, from, to)
  }

  /** A doc edit at (ci, li, k) rewrites a whole-word occurrence of `from` in a non-directive line of the doc comment. */
  predicate DocEditOk(ref: Ref, uri: Uri, edit: Edit, ci: nat, li: nat, k: nat, from: string, to: string) {
    && DocWordAt(ref, ci, li, k, from)
    && var c := DocComment(ref.ident.value).value.list[ci];
    && uri == c.uri
    && edit == Edit(c.lines[li].start + k, c.lines[li].start + k + |from|, to)
  }

  /** The meaning of one contribution. */
  predicate ContribOk(c: Contrib, from: string, to: string) {
    match c.kind
    case IdentEdit =>
      && !IsPkgNameDecl(c.ref)
      && c.uri == c.ref.span.uri
      && c.edit == Edit(c.ref.span.start, c.ref.span.end, to)
    case ImportNameEdit =>
      && IsPkgNameDecl(c.ref)
      && c.uri == c.ref.span.uri
      && UpdatePkgName(c.ref.obj, to) == Ok(c.edit)
    case DocEdit(ci, li, k) => DocEditOk(c.ref, c.uri, c.edit, ci, li, k, from, to)
  }

  lemma {:induction false} LocContribsOk(ref: Ref, c: Comment, ci: nat, li: nat, m: nat, from: string, to: string, list: seq<Comment>)
    requires ref.isDecl && ref.ident.Some? && !IsPkgNameDecl(ref)
    requires DocComment(ref.ident.value).Some? && DocComment(ref.ident.value).value.list == list
    requires ci < |list| && list[ci] == c && !c.isDirective && li < |c.lines|
    ensures forall x :: x in LocContribs(ref, c, ci, li, WholeWordMatches(c.lines[li].text, from), m, from, to) ==> x.ref == ref && ContribOk(x, from, to)
    decreases |WholeWordMatches(c.lines[li].text, from)| - m
  {
    var locs := WholeWordMatches(c.lines[li].text, from);
    if m < |locs| {
      LocContribsOk(ref, c, ci, li, m + 1, from, to, list);
    }
  }

  lemma {:induction false} LineContribsOk(ref: Ref, c: Comment, ci: nat, li: nat, from: string, to: string, list: seq<Comment>)
    requires ref.isDecl && ref.ident.Some? && !IsPkgNameDecl(ref)
    requires DocComment(ref.ident.value).Some? && DocComment(ref.ident.value).value.list == list
    requires ci < |list| && list[ci] == c && !c.isDirective
    ensures forall x :: x in LineContribs(ref, c, ci, li, from, to) ==> x.ref == ref && ContribOk(x, from, to)
    decreases |c.lines| - li
  {
    if li < |c.lines| {
      LocContribsOk(ref, c, ci, li, 0, from, to, list);
      LineContribsOk(ref, c, ci, li + 1, from, to, list);
    }
  }

  lemma {:induction false} CommentContribsOk(ref: Ref, list: seq<Comment>, ci: nat, from: string, to: string)
    requires ref.isDecl && ref.ident.Some? && !IsPkgNameDecl(ref)
    requires DocComment(ref.ident.value).Some? && DocComment(ref.ident.value).value.list == list
    ensures forall x :: x in CommentContribs(ref, list, ci, from, to) ==> x.ref == ref && ContribOk(x, from, to)
    decreases |list| - ci
  {
    if ci < |list| {
      if !list[ci].isDirective {
        LineContribsOk(ref, list[ci], ci, 0, from, to, list);
      }
      CommentContribsOk(ref, list, ci + 1, from, to);
    }
  }

  /** Every edit a reference yields is one of the three kinds, as ContribOk describes. */
  lemma RefContribsOk(ref: Ref, from: string, to: string)
    requires RefContribs(ref, from, to).Ok?
    ensures forall x :: x in RefContribs(ref, from, to).value ==> x.ref == ref && ContribOk(x, from, to)
  {
    var cs := RefContribs(ref, from, to).value;
    if !IsPkgNameDecl(ref) {
      var docs := DocContribs(ref, from, to);
      if ref.isDecl && ref.ident.Some? && DocComment(ref.ident.value).Some? {
        CommentContribsOk(ref, DocComment(ref.ident.value).value.list, 0, from, to);
      }
      assert cs == [IdentContrib(ref, to)] + docs;
      forall x | x in cs ensures x.ref == ref && ContribOk(x, from, to) {
        if x !in docs {
          assert x == IdentContrib(ref, to);
        }
      }
    }
  }

  /** Every edit renamer.update produces is an identifier, import-name or doc edit of one of the references. */
  lemma {:induction false} UpdateFromOk(refs: seq<Ref>, i: nat, seen: set<Span>, from: string, to: string)
    requires UpdateFrom(refs, i, seen, from, to).Ok?
    ensures forall x :: x in UpdateFrom(refs, i, seen, from, to).value ==>
              x.ref in refs[i..] && ContribOk(x, from, to)
    decreases |refs| - i
  {
    if i < |refs| {
      if refs[i].span in seen {
        UpdateFromOk(refs, i + 1, seen, from, to);
      } else {
        RefContribsOk(refs[i], from, to);
        UpdateFromOk(refs, i + 1, seen + {refs[i].span}, from, to);
      }
    }
  }

  // ---------------------------------------------------------------------
  // Completeness of the doc-comment edits
  // ---------------------------------------------------------------------

  lemma {:induction false} LocContribsComplete(ref: Ref, c: Comment, ci: nat, li: nat, locs: seq<nat>, m: nat, j: nat, from: string, to: string)
    requires li < |c.lines| && m <= j < |locs|
    ensures DocContrib(ref, c, ci, li, locs[j], from, to) in LocContribs(ref, c, ci, li, locs, m, from, to)
    decreases j - m
  {
    var head := [DocContrib(ref, c, ci, li, locs[m], from, to)];
    assert LocContribs(ref, c, ci, li, locs, m, from, to) == head + LocContribs(ref, c, ci, li, locs, m + 1, from, to);
    if m < j {
      LocContribsComplete(ref, c, ci, li, locs, m + 1, j, from, to);
    }
  }

  lemma {:induction false} LineContribsComplete(ref: Ref, c: Comment, ci: nat, l0: nat, li: nat, k: nat, from: string, to: string)
    requires IsWord(from) && l0 <= li < |c.lines| && WholeWordAt(c.lines[li].text, from, k)
    ensures DocContrib(ref, c, ci, li, k, from, to) in LineContribs(ref, c, ci, l0, from, to)
    decreases li - l0
  {
    var locs := WholeWordMatches(c.lines[l0].text, from);
    assert LineContribs(ref, c, ci, l0, from, to) == LocContribs(ref, c, ci, l0, locs, 0, from, to) + LineContribs(ref, c, ci, l0 + 1, from, to);
    if l0 == li {
      assert k in locs;
      var j :| 0 <= j < |locs| && locs[j] == k;
      LocContribsComplete(ref, c, ci, li, locs, 0, j, from, to);
    } else {
      LineContribsComplete(ref, c, ci, l0 + 1, li, k, from, to);
    }
  }

  lemma {:induction false} CommentContribsComplete(ref: Ref, list: seq<Comment>, c0: nat, ci: nat, li: nat, k: nat, from: string, to: string)
    requires IsWord(from) && c0 <= ci < |list| && !list[ci].isDirective && li < |list[ci].lines|
    requires WholeWordAt(list[ci].lines[li].text, from, k)
    ensures DocContrib(ref, list[ci], ci, li, k, from, to) in CommentContribs(ref, list, c0, from, to)
    decreases ci - c0
  {
    var own := if list[c0].isDirective then [] else LineContribs(ref, list[c0], c0, 0, from, to);
    assert CommentContribs(ref, list, c0, from, to) == own + CommentContribs(ref, list, c0 + 1, from, to);
    if c0 == ci {
      LineContribsComplete(ref, list[ci], ci, 0, li, k, from, to);
    } else {
      CommentContribsComplete(ref, list, c0 + 1, ci, li, k, from, to);
    }
  }

  /** A declaring reference yields an edit for every whole-word occurrence of `from` in its doc comment. */
  lemma RefContribsComplete(ref: Ref, ci: nat, li: nat, k: nat, from: string, to: string)
    requires IsWord(from) && DocWordAt(ref, ci, li, k, from)
    ensures RefContribs(ref, from, to).Ok?
    ensures DocWordEdit(ref, ci, li, k, from, to) in RefContribs(ref, from, to).value
  {
    var list := DocComment(ref.ident.value).value.list;
    CommentContribsComplete(ref, list, 0, ci, li, k, from, to);
    assert RefContribs(ref, from, to).value == [IdentContrib(ref, to)] + CommentContribs(ref, list, 0, from, to);
  }

  /**
   * refs[r] is the first reference with its span, and its doc comment has
   * a whole-word occurrence of `from` at (ci, li, k).
   */
  predicate FirstDocWordAt(refs: seq<Ref>, r: nat, ci: nat, li: nat, k: nat, from: string) {
    && r < |refs|
    && (forall j :: 0 <= j < r ==> refs[j].span != refs[r].span)
    && DocWordAt(refs[r], ci, li, k, from)
  }

  /** Every whole-word occurrence of `from` in the doc comment of a first reference with its span has its edit among cs. */
  ghost predicate DocWordsCovered(refs: seq<Ref>, cs: seq<Contrib>, from: string, to: string) {
    forall r: nat, ci: nat, li: nat, k: nat :: FirstDocWordAt(refs, r, ci, li, k, from) ==> DocWordEdit(refs[r], ci, li, k, from, to) in cs
  }

  lemma {:induction false} UpdateFromComplete(refs: seq<Ref>, i: nat, seen: set<Span>, from: string, to: string, r: nat, ci: nat, li: nat, k: nat)
    requires IsWord(from) && UpdateFrom(refs, i, seen, from, to).Ok?
    requires i <= r && FirstDocWordAt(refs, r, ci, li, k, from) && refs[r].span !in seen
    ensures DocWordEdit(refs[r], ci, li, k, from, to) in UpdateFrom(refs, i, seen, from, to).value
    decreases r - i
  {
    if refs[i].span in seen {
      assert i < r;
      UpdateFromComplete(refs, i + 1, seen, from, to, r, ci, li, k);
    } else {
      var cs := RefContribs(refs[i], from, to).value;
      var rest := UpdateFrom(refs, i + 1, seen + {refs[i].span}, from, to).value;
      assert UpdateFrom(refs, i, seen, from, to).value == cs + rest;
      if i == r {
        RefContribsComplete(refs[r], ci, li, k, from, to);
      } else {
        UpdateFromComplete(refs, i + 1, seen + {refs[i].span}, from, to, r, ci, li, k);
      }
    }
  }

  /** renamer.update rewrites every whole-word occurrence of `from` in the doc comments it visits. */
  lemma UpdateComplete(refs: seq<Ref>, from: string, to: string)
    requires IsWord(from) && UpdateFrom(refs, 0, {}, from, to).Ok?
    ensures DocWordsCovered(refs, UpdateFrom(refs, 0, {}, from, to).value, from, to)
  {
    forall r: nat, ci: nat, li: nat, k: nat | FirstDocWordAt(refs, r, ci, li, k, from)
      ensures DocWordEdit(refs[r], ci, li, k, from, to) in UpdateFrom(refs, 0, {}, from, to).value
    {
      UpdateFromComplete(refs, 0, {}, from, to, r, ci, li, k);
    }
  }

  /** The file of the comment DocWordAt names gets the edit replacing that occurrence of `from` by `to`. */
  predicate DocWordRewritten(fe: FileEdits, ref: Ref, ci: nat, li: nat, k: nat, from: string, to: string)
    requires DocWordAt(ref, ci, li, k, from)
  {
    var c := DocComment(ref.ident.value).value.list[ci];
    var start := c.lines[li].start + k;
    Edit(start, start + |from|, to) in EditsOf(fe, c.uri)
  }

  /** The grouped result holds, in the comment's file, the edit of every occurrence DocWordsCovered names. */
  lemma UpdateResultComplete(refs: seq<Ref>, from: string, to: string, r: nat, ci: nat, li: nat, k: nat)
    requires IsWord(from) && UpdateResult(refs, from, to).Ok? && FirstDocWordAt(refs, r, ci, li, k, from)
    ensures DocWordRewritten(UpdateResult(refs, from, to).value, refs[r], ci, li, k, from, to)
  {
    var cs := UpdateFrom(refs, 0, {}, from, to).value;
    var x := DocWordEdit(refs[r], ci, li, k, from, to);
    UpdateFromComplete(refs, 0, {}, from, to, r, ci, li, k);
    EditsForHas(cs, x);
    GroupIsPerFile(cs);
  }

  /** A contribution's edit is among the edits of its file. */
  lemma {:induction false} EditsForHas(cs: seq<Contrib>, x: Contrib)
    requires x in cs
    ensures x.edit in EditsFor(cs, x.uri)
    decreases |cs|
  {
    if cs[0] != x {
      EditsForHas(cs[1..], x);
    }
  }

  // ---------------------------------------------------------------------
  // Deduplication by span
  // ---------------------------------------------------------------------

  /** The reference spans of the non-doc edits, in order. */
  function PrimarySpans(cs: seq<Contrib>): seq<Span>
    decreases |cs|
  {
    if cs == [] then []
    else (if cs[0].kind.DocEdit? then [] else [cs[0].ref.span]) + PrimarySpans(cs[1..])
  }

  lemma {:induction false} PrimarySpansAppend(a: seq<Contrib>, b: seq<Contrib>)
    ensures PrimarySpans(a + b) == PrimarySpans(a) + PrimarySpans(b)
    decreases |a|
  {
    if a == [] {
      assert a + b == b;
    } else {
      assert (a + b)[0] == a[0];
      assert (a + b)[1..] == a[1..] + b;
      PrimarySpansAppend(a[1..], b);
    }
  }

  lemma {:induction false} PrimarySpansDocOnly(cs: seq<Contrib>)
    requires forall x :: x in cs ==> x.kind.DocEdit?
    ensures PrimarySpans(cs) == []
    decreases |cs|
  {
    if cs != [] {
      PrimarySpansDocOnly(cs[1..]);
    }
  }

  /** Doc contributions are all doc edits. */
  lemma {:induction false} CommentContribsAreDoc(ref: Ref, list: seq<Comment>, ci: nat, from: string, to: string)
    ensures forall x :: x in CommentContribs(ref, list, ci, from, to) ==> x.kind.DocEdit?
    decreases |list| - ci
  {
    if ci < |list| {
      if !list[ci].isDirective {
        LineContribsAreDoc(ref, list[ci], ci, 0, from, to);
      }
      CommentContribsAreDoc(ref, list, ci + 1, from, to);
    }
  }

  lemma {:induction false} LineContribsAreDoc(ref: Ref, c: Comment, ci: nat, li: nat, from: string, to: string)
    ensures forall x :: x in LineContribs(ref, c, ci, li, from, to) ==> x.kind.DocEdit?
    decreases |c.lines| - li
  {
    if li < |c.lines| {
      LocContribsAreDoc(ref, c, ci, li, WholeWordMatches(c.lines[li].text, from), 0, from, to);
      LineContribsAreDoc(ref, c, ci, li + 1, from, to);
    }
  }

  lemma {:induction false} LocContribsAreDoc(ref: Ref, c: Comment, ci: nat, li: nat, locs: seq<nat>, m: nat, from: string, to: string)
    requires li < |c.lines|
    ensures forall x :: x in LocContribs(ref, c, ci, li, locs, m, from, to) ==> x.kind.DocEdit?
    decreases |locs| - m
  {
    if m < |locs| {
      LocContribsAreDoc(ref, c, ci, li, locs, m + 1, from, to);
    }
  }

  /** A reference yields exactly one edit that is not a doc edit, and it is tagged with the reference's span. */
  lemma RefPrimarySpan(ref: Ref, from: string, to: string)
    requires RefContribs(ref, from, to).Ok?
    ensures PrimarySpans(RefContribs(ref, from, to).value) == [ref.span]
  {
    var cs := RefContribs(ref, from, to).value;
    if !IsPkgNameDecl(ref) {
      var docs := DocContribs(ref, from, to);
      if ref.isDecl && ref.ident.Some? && DocComment(ref.ident.value).Some? {
        CommentContribsAreDoc(ref, DocComment(ref.ident.value).value.list, 0, from, to);
      }
      PrimarySpansDocOnly(docs);
      PrimarySpansAppend([IdentContrib(ref, to)], docs);
    }
  }

  predicate NoDuplicates<T(==)>(s: seq<T>) {
    forall i, j :: 0 <= i < j < |s| ==> s[i] != s[j]
  }

  /** The spans of refs[i..]. */
  function SpansFrom(refs: seq<Ref>, i: nat): set<Span> {
    set j | i <= j < |refs| :: refs[j].span
  }

  lemma {:induction false} UpdateFromDedup(refs: seq<Ref>, i: nat, seen: set<Span>, from: string, to: string)
    requires UpdateFrom(refs, i, seen, from, to).Ok?
    ensures var ps := PrimarySpans(UpdateFrom(refs, i, seen, from, to).value);
            NoDuplicates(ps) && (set s | s in ps) == SpansFrom(refs, i) - seen
    decreases |refs| - i
  {
    var ps := PrimarySpans(UpdateFrom(refs, i, seen, from, to).value);
    if i >= |refs| {
      assert SpansFrom(refs, i) == {};
    } else {
      assert SpansFrom(refs, i) == {refs[i].span} + SpansFrom(refs, i + 1);
      if refs[i].span in seen {
        UpdateFromDedup(refs, i + 1, seen, from, to);
      } else {
        var seen' := seen + {refs[i].span};
        var cs := RefContribs(refs[i], from, to).value;
        var rest := UpdateFrom(refs, i + 1, seen', from, to).value;
        UpdateFromDedup(refs, i + 1, seen', from, to);
        RefPrimarySpan(refs[i], from, to);
        PrimarySpansAppend(cs, rest);
        var pr := PrimarySpans(rest);
        assert ps == [refs[i].span] + pr;
        NoDupCons(refs[i].span, pr);
      }
    }
  }

  /** Putting an element that is not in s in front of s keeps it free of duplicates. */
  lemma NoDupCons<T>(x: T, s: seq<T>)
    requires NoDuplicates(s) && x !in s
    ensures NoDuplicates([x] + s)
    ensures (set y | y in [x] + s) == {x} + (set y | y in s)
  {
    var t := [x] + s;
    forall a, b | 0 <= a < b < |t| ensures t[a] != t[b] {
      assert t[b] == s[b - 1];
      if a > 0 {
        assert t[a] == s[a - 1];
      }
    }
  }

  /**
   * Deduplication: the non-doc edits of renamer.update correspond one to one
   * with the distinct spans of the references.
   */
  lemma UpdateDedup(refs: seq<Ref>, from: string, to: string)
    requires UpdateFrom(refs, 0, {}, from, to).Ok?
    ensures var ps := PrimarySpans(UpdateFrom(refs, 0, {}, from, to).value);
            NoDuplicates(ps) && (set s | s in ps) == (set r | r in refs :: r.span)
  {
    UpdateFromDedup(refs, 0, {}, from, to);
    assert SpansFrom(refs, 0) == (set r | r in refs :: r.span) by {
      forall s | s in (set r | r in refs :: r.span) ensures s in SpansFrom(refs, 0) {
        var r :| r in refs && r.span == s;
        var j :| 0 <= j < |refs| && refs[j] == r;
      }
    }
  }
}
