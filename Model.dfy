/**
 * The data the rename planner works on. The type checker, the snapshot and
 * the syntax trees are outside the model: what the planner reads from them
 * is given here as plain values (symbols, references with their enclosing
 * syntax, package metadata, files with their imports and scopes).
 */
module Model {

  datatype Option<T> = None | Some(value: T)

  type Uri = string
  type PkgId = string

  // ---------------------------------------------------------------------
  // Edits
  // ---------------------------------------------------------------------

  /** Replace the bytes [start, end) of a file by newText (a diff.Edit). */
  datatype Edit = Edit(start: nat, end: nat, newText: string)

  /** Edits grouped by file, each list in the order the edits were produced. */
  type FileEdits = map<Uri, seq<Edit>>

  /** The edits of one file (a missing key reads as an empty list, as a Go map does). */
  function EditsOf(m: FileEdits, u: Uri): seq<Edit> {
    if u in m then m[u] else []
  }

  /** `edits[u] = append(edits[u], e)` */
  function AddEdit(m: FileEdits, u: Uri, e: Edit): (r: FileEdits)
    ensures r.Keys == m.Keys + {u}
    ensures EditsOf(r, u) == EditsOf(m, u) + [e]
    ensures forall v :: v != u ==> EditsOf(r, v) == EditsOf(m, v)
  {
    m[u := EditsOf(m, u) + [e]]
  }

  /** `for u, es := range ch { edits[u] = append(edits[u], es...) }` */
  function MergeEdits(m: FileEdits, ch: FileEdits): (r: FileEdits)
    ensures forall v :: v in r <==> v in m || v in ch
    ensures forall u :: EditsOf(r, u) == EditsOf(m, u) + EditsOf(ch, u)
  {
    map u | u in m.Keys + ch.Keys :: EditsOf(m, u) + EditsOf(ch, u)
  }

  /** A byte range within a file. */
  datatype Range = Range(start: nat, end: nat)

  /** A reference's source span: its file and byte range (span.Span). */
  datatype Span = Span(uri: Uri, start: nat, end: nat)

  // ---------------------------------------------------------------------
  // Symbols and references
  // ---------------------------------------------------------------------

  /** The receiver of a function: none for a plain function. */
  datatype Receiver = NoReceiver | Receiver(typeName: string, isInterface: bool)

  /**
   * What pathEnclosingInterval finds around the declaration of a PkgName:
   * fewer than two enclosing nodes, a second node that is not an import
   * spec, or the import spec with the offsets of its start and of its path
   * literal.
   */
  datatype SpecLookup = NoPath | NotImportSpec | InImportSpec(specStart: nat, pathStart: nat)

  datatype ObjKind =
    | VarObj(embedded: bool)
    | FuncObj(recv: Receiver)
      /** The local name of an import: the name of the imported package, and
          what the search for its import spec finds. */
    | PkgNameObj(importedName: string, spec: SpecLookup)
    | OtherObj

  /** A declared entity (a types.Object). */
  datatype Symbol = Symbol(name: string, kind: ObjKind)

  /** One physical line of a comment, with the file offset at which it starts. */
  datatype CommentLine = CommentLine(start: nat, text: string)

  /** A `//` or `/* */` comment of file `uri`: its lines, and whether isDirective holds of its text. */
  datatype Comment = Comment(uri: Uri, isDirective: bool, lines: seq<CommentLine>)

  /** An ast.CommentGroup: its start offset, the line on which it ends, and its comments. */
  datatype CommentGroup = CommentGroup(pos: nat, endLine: nat, list: seq<Comment>)

  /** The syntax nodes enclosing a declaring identifier, as docComment distinguishes them. */
  datatype Node =
    | FuncDecl(doc: Option<CommentGroup>)
    | Field(doc: Option<CommentGroup>)
    | GenDecl(doc: Option<CommentGroup>)
    | TypeSpec(doc: Option<CommentGroup>)
    | ValueSpec(doc: Option<CommentGroup>)
    | IdentNode
    | AssignStmt(isDefine: bool)
    | OtherNode

  /**
   * A declaring identifier: its offset and line, the nodes enclosing it from
   * the innermost outward (the file itself counts as OtherNode), and the
   * comment groups of its file in source order.
   */
  datatype Ident = Ident(pos: nat, line: nat, path: seq<Node>, fileComments: seq<CommentGroup>)

  /** A question put to the conflict checker: may this reference become `to`? */
  datatype CheckQuery = CheckQuery(to: string, changeMethods: bool)

  /**
   * One occurrence of a symbol (a ReferenceInfo). `conflicts` is the external
   * conflict checker's verdict on its symbol: the queries for which it reports
   * a conflict.
   */
  datatype Ref = Ref(span: Span, pkg: PkgId, obj: Symbol, isDecl: bool, ident: Option<Ident>, conflicts: set<CheckQuery>)

  // ---------------------------------------------------------------------
  // Packages
  // ---------------------------------------------------------------------

  /** Package metadata: id, import path, package name, module path when the metadata has module information. */
  datatype Metadata = Metadata(id: PkgId, path: string, name: string, modulePath: Option<string>)

  /**
   * An import spec of a file: its unquoted path, whether it names the package
   * explicitly, the offsets of the path literal, and the implicit PkgName it
   * declares with that PkgName's references.
   */
  datatype ImportDecl = ImportDecl(path: string, named: bool, pathRange: Range, implicit: Symbol, implicitRefs: seq<Ref>)

  /** A compiled Go file: the range of its package-clause name, its imports, the names its file scope binds. */
  datatype GoFile = GoFile(uri: Uri, clause: Option<Range>, imports: seq<ImportDecl>, scope: set<string>)

  /** A type-checked package: whether it was fully parsed, its files, the names its package scope binds. */
  datatype Package = Package(id: PkgId, name: string, fullParse: bool, files: seq<GoFile>, scope: set<string>)

  /** What the snapshot supplies: packages by id, reverse dependencies by id, all valid metadata. */
  datatype Snapshot = Snapshot(packages: map<PkgId, Package>, rdeps: map<PkgId, seq<Package>>, allMetadata: seq<Metadata>)

  // ---------------------------------------------------------------------
  // Errors
  // ---------------------------------------------------------------------

  datatype Error =
    | EmbeddedField
    | BlankIdentifier
    | SameNames(name: string)
    | InvalidIdentifier(name: string)
      /** The conflict checker objected; `at` is the index of the reference being checked. */
    | Conflict(at: nat)
    | NoEnclosingPath(name: string)
    | NotAnImportSpec(name: string)
    | NoIdentifierFound
    | NoPackagesForFile
    | MainPackage
    | TestPackage
    | MissingModuleInfo(path: string)
    | ModuleIsPackage(path: string)
    | TestSuffixName
    | PackageUnavailable(id: PkgId)
    | ReverseDepsUnavailable(id: PkgId)
      /** No edit left to drop for this file (slicing an empty list). */
    | AliasEditMissing(uri: Uri)

  datatype Result<T> = Ok(value: T) | Err(error: Error)
}
