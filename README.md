# A verified model of gopls' rename refactoring

This project models the core of gopls' `rename` operation in Dafny. The
source is `gopls/internal/lsp/source/rename.go`, in a variant that also
offers interface implementations as optional edits. The model covers:

- `PrepareRename` and `computePrepareRenameResp`: whether the thing under
  the cursor may be renamed, and the range and text of the answer.
- `Rename`: the package branch (validation, then `renamePackage`) and the
  symbol branch (`renameObj`). When the renamed object is an interface
  method, it adds the fan-out over the implementations: every
  implementation's edits are tagged with a change annotation and returned
  as optional edits.
- `checkRenamable` and `renameObj`:
  - validation in the source's order;
  - the `changeMethods` flag;
  - recording the packages of the references;
  - a conflict loop that stops at the first conflict;
  - `renamer.update`, with `docComment` and `updatePkgName`.
- `renamePackage`:
  - the walk over all valid metadata (the external test variant, affected
    packages, the module-information check, the other-module skip);
  - `seenPackageRename.add`;
  - `renamePackageClause`;
  - `renameImports`: rewriting the path literal, the fresh-local-name search
    (`try++`), and dropping the lexically first edit when the local name is
    the new name itself.

Each imperative part of the source is a class or a method whose loops carry
invariants. Each method is proved equal to a pure specification function
(`RenameObjSpec`, `UpdateResult`, `RenamePackageSpec`, `FanOut`,
`RenameSpec`, …), and the properties the source promises are lemmas about
those functions.

Modules, one per file:

| file | contents |
|---|---|
| `Text.dfy` | strings, clean paths, Go identifiers, decimal numerals, the `\bFROM\b` scan, quoting |
| `Model.dfy` | the data model (symbols, references, comments, files, packages, metadata, the snapshot), edits by file, errors |
| `Synthesis.dfy` | what `renamer.update` produces per reference, `docComment`, `updatePkgName`, grouping by file, deduplication |
| `Seen.dfy` | the class `SeenPackageRename` |
| `SymbolRename.dfy` | `checkRenamable`, the class `Renamer` and the method `RenameObj` with its specification |
| `PackagePlan.dfy` | `renamePackage` as a plan of visits (package clauses and import batches), and how a plan becomes edits |
| `PackageRename.dfy` | the class `WorkspaceEdits` and the imperative `renamePackage`, `renamePackageClause` and `renameImports` |
| `PackageProps.dfy` | properties of the package rename: affected paths, new paths, deduplication, soundness, coverage, errors |
| `Dispatch.dfy` | `PrepareRename`, `Rename`, `isInterfaceSignature` and the implementation fan-out |

The snapshot's queries are inputs to the model rather than computations in
it: `isInPackageName`, file metadata, the object at the cursor and its
references, implementations, reverse dependencies, and workspace packages.
Offsets are byte offsets in a file.

## Model

| member | source | states |
|---|---|---|
| Text.TrimPrefix | gopls/internal/lsp/source/rename.go:324 | with the prefix present, the input is the prefix followed by the result; otherwise the result is the input |
| Text.LastSlash | gopls/internal/lsp/source/rename.go:289 | the result is the position of a '/' with no '/' after it, or -1 when the path has no '/' (what path.Dir needs) |
| Text.Dec | gopls/internal/lsp/source/rename.go:257 | fmt.Sprint of a natural number is a non-empty string of digits without a leading zero |
| Text.ParseDecOfDec | gopls/internal/lsp/source/rename.go:257 | reading a numeral back gives the number it was printed from |
| Text.DecInjective | gopls/internal/lsp/source/rename.go:257 | different implementation indices give different annotation identifiers |
| Text.CandidateInjective | gopls/internal/lsp/source/rename.go:474-475 | different values of `try` give different candidate names |
| Text.CandidateIsIdentifier | gopls/internal/lsp/source/rename.go:474-475 | every candidate local name built from a valid identifier is a valid identifier |
| Text.FreshFrom | gopls/internal/lsp/source/rename.go:473-476 | the loop stops at the least try, at or after the start, whose candidate is not taken; every earlier candidate is taken |
| Text.FreshLocalName | gopls/internal/lsp/source/rename.go:469-476 | the chosen name is bound in neither scope; it is the new name exactly when neither scope binds that; otherwise it is newName followed by the least k >= 1 for which every earlier candidate is taken |
| Text.WholeWordsDisjoint | gopls/internal/lsp/source/rename.go:601 | two whole-word occurrences of an identifier never overlap |
| Text.MatchesFrom | gopls/internal/lsp/source/rename.go:662 | every index the FindAllIndex scan returns is a whole-word occurrence at or after the start, and the matches are strictly increasing and do not overlap |
| Text.MatchesFromComplete | gopls/internal/lsp/source/rename.go:662 | the scan from a position finds every whole-word occurrence of an identifier at or after that position |
| Text.MatchesComplete | gopls/internal/lsp/source/rename.go:601-662 | the scan of a whole line finds every whole-word occurrence of the old name |
| Text.WholeWordMatches | gopls/internal/lsp/source/rename.go:601-662 | an offset is returned exactly when a whole-word occurrence of the identifier starts there; the results are increasing and do not overlap |
| Text.Quote | gopls/internal/lsp/source/rename.go:448 | strconv.Quote puts the path between double quotes |
| Text.QuoteInjective | gopls/internal/lsp/source/rename.go:448 | different import paths give different path literals |
| Model.AddEdit | gopls/internal/lsp/source/rename.go:395-398 | appending an edit to one file: that file's list gains the edit at its end; every other file is unchanged |
| Model.MergeEdits | gopls/internal/lsp/source/rename.go:492-494 | merging edit maps: a file is present when present in either map, and its list is the old list followed by the new edits of that file |
| Seen.SeenPackageRename.Lookup | gopls/internal/lsp/source/rename.go:361 | a lookup yields true exactly for a key recorded as seen |
| Seen.SeenPackageRename.constructor | gopls/internal/lsp/source/rename.go:292 | a new seen map records nothing |
| Seen.SeenPackageRename.Add | gopls/internal/lsp/source/rename.go:359-366 | reports whether the key was already seen; afterwards the key is seen; the map is written only when the key was new |
| SymbolRename.CheckRenamable | gopls/internal/lsp/source/rename.go:158-166 | an embedded field is refused first; then `_`; anything else is accepted (all three directions are if-and-only-if) |
| SymbolRename.FirstConflictFrom | gopls/internal/lsp/source/rename.go:552-557 | the index of the first reference for which the checker reports a conflict, or none exactly when no reference conflicts |
| SymbolRename.RenameObjValidation | gopls/internal/lsp/source/rename.go:504-515 | renameObj fails first on an embedded field, then on `_`, then on an unchanged name, then on an invalid identifier, each with its own error |
| SymbolRename.RenameObjConflict | gopls/internal/lsp/source/rename.go:547-560 | renameObj reports a conflict at reference k exactly when validation passed, reference k conflicts and no earlier one does |
| SymbolRename.UpdateErrorIsPkgName | gopls/internal/lsp/source/rename.go:615-621 | renamer.update fails only when the import spec of an import-name declaration cannot be found |
| SymbolRename.RenameObjOk | gopls/internal/lsp/source/rename.go:504-587 | a successful renameObj passed validation and no reference conflicts; its edits, file by file and in order, come from the references; each edit is an identifier, import-name or doc edit as ContribOk says; there is exactly one non-doc edit per distinct reference span; and, when the old name is a word, every whole-word occurrence of it in a non-directive line of the doc comment of a declaring reference (the first with its span) has its edit among them (DocWordsCovered) |
| SymbolRename.Renamer.constructor | gopls/internal/lsp/source/rename.go:521-529 | a renamer starts with the given references and names, no packages, no conflict, and changeMethods unset |
| SymbolRename.Renamer.DeriveChangeMethods | gopls/internal/lsp/source/rename.go:534-546 | changeMethods ends up set exactly when renaming implementations or when some reference is a method with an interface receiver |
| SymbolRename.Renamer.CollectPackages | gopls/internal/lsp/source/rename.go:547-549 | the package of every reference is recorded |
| SymbolRename.Renamer.Check | gopls/internal/lsp/source/rename.go:553 | one check records a conflict exactly when the checker reports one for this reference, together with that reference's index |
| SymbolRename.Renamer.CheckAll | gopls/internal/lsp/source/rename.go:552-557 | the loop records a conflict exactly when some reference conflicts, and then the index of the first one |
| SymbolRename.Renamer.Update | gopls/internal/lsp/source/rename.go:597-678 | renamer.update's result is the grouped edits of all references, as UpdateResult specifies |
| SymbolRename.Renamer.RefEdits | gopls/internal/lsp/source/rename.go:615-675 | one new reference either fails as updatePkgName fails, or appends exactly that reference's edits |
| SymbolRename.Renamer.AddDocEdits | gopls/internal/lsp/source/rename.go:647-674 | the doc-comment loop appends the edits of every non-directive comment of the group, in order |
| SymbolRename.Renamer.AddLineEdits | gopls/internal/lsp/source/rename.go:657-673 | the line loop appends the edits of every line of a comment, in order |
| SymbolRename.Renamer.AddLocEdits | gopls/internal/lsp/source/rename.go:662-672 | the match loop appends one edit per match, in order |
| SymbolRename.UpdateFromStep | gopls/internal/lsp/source/rename.go:605-675 | a reference with a new span either stops update with its error or contributes its edits ahead of those of the rest |
| SymbolRename.RenameObj | gopls/internal/lsp/source/rename.go:504-587 | the method computes RenameObjSpec; the properties of that function are the RenameObj lemmas above |
| Synthesis.CommentJustAbove | gopls/internal/lsp/source/rename.go:711-722 | the first comment group of the file that starts no later than the identifier and ends on the line just above it, or none exactly when there is no such group |
| Synthesis.DocFrom | gopls/internal/lsp/source/rename.go:681-728 | the walk yields the doc of the first enclosing node that does not let it pass, and nothing when every node lets it pass |
| Synthesis.UpdatePkgName | gopls/internal/lsp/source/rename.go:732-763 | succeeds exactly when the PkgName sits in an import spec, and otherwise fails with the error of the branch that found no path or no import spec; the edit spans the spec's start to its path literal; it erases the name exactly when the imported package is already called `to`, and otherwise writes `to ` |
| Synthesis.GroupSnoc | gopls/internal/lsp/source/rename.go:622 | grouping one more edit appends it to its file's list |
| Synthesis.EditsForSnoc | gopls/internal/lsp/source/rename.go:633 | one more edit extends only its own file's list |
| Synthesis.GroupIsPerFile | gopls/internal/lsp/source/rename.go:597-678 | the result map has exactly the files some edit was produced for, and each file's list holds that file's edits in production order |
| Synthesis.LocContribsOk | gopls/internal/lsp/source/rename.go:662-672 | each edit for a match rewrites a whole-word occurrence of the old name in a non-directive doc comment line |
| Synthesis.LineContribsOk | gopls/internal/lsp/source/rename.go:653-673 | each edit for the lines of a non-directive comment is a doc edit as DocEditOk describes |
| Synthesis.CommentContribsOk | gopls/internal/lsp/source/rename.go:647-674 | each edit for a doc comment group is a doc edit in a non-directive comment |
| Synthesis.RefContribsOk | gopls/internal/lsp/source/rename.go:615-674 | every edit a reference yields is its identifier edit, its import-name edit, or a doc edit of its declaration's doc comment |
| Synthesis.UpdateFromOk | gopls/internal/lsp/source/rename.go:605-675 | every edit update produces belongs to one of the references and is one of those three kinds |
| Synthesis.LocContribsComplete | gopls/internal/lsp/source/rename.go:662-672 | every match offset of a line yields its edit |
| Synthesis.LineContribsComplete | gopls/internal/lsp/source/rename.go:653-673 | every whole-word occurrence of the old name in any line of a comment yields its edit |
| Synthesis.CommentContribsComplete | gopls/internal/lsp/source/rename.go:647-674 | every whole-word occurrence in a line of a non-directive comment of the group yields its edit; directives are skipped only as a whole |
| Synthesis.RefContribsComplete | gopls/internal/lsp/source/rename.go:615-674 | a declaring reference other than an import name succeeds and yields the edit of every whole-word occurrence of the old name in its doc comment's non-directive lines |
| Synthesis.UpdateFromComplete | gopls/internal/lsp/source/rename.go:605-675 | update yields that edit for every reference that is the first with its span, whatever the references before it |
| Synthesis.UpdateComplete | gopls/internal/lsp/source/rename.go:605-675 | the edits update produces cover every such occurrence (DocWordsCovered) |
| Synthesis.UpdateResultComplete | gopls/internal/lsp/source/rename.go:605-675 | after grouping by file, the comment's file holds the edit replacing that occurrence by the new name |
| SymbolRename.RenameObjDocComplete | gopls/internal/lsp/source/rename.go:562-674 | a successful renameObj rewrites, in the comment's file, every whole-word occurrence of the old name in a non-directive line of the doc comment of each declaring reference |
| Synthesis.PrimarySpansAppend | gopls/internal/lsp/source/rename.go:605-675 | the reference spans of two edit sequences, one after the other, are the spans of each, one after the other |
| Synthesis.PrimarySpansDocOnly | gopls/internal/lsp/source/rename.go:647-674 | doc edits carry no reference span |
| Synthesis.CommentContribsAreDoc | gopls/internal/lsp/source/rename.go:647-674 | the edits for a doc comment group are all doc edits |
| Synthesis.RefPrimarySpan | gopls/internal/lsp/source/rename.go:615-633 | each reference yields exactly one edit that is not a doc edit, and it carries the reference's span |
| Synthesis.UpdateFromDedup | gopls/internal/lsp/source/rename.go:605-613 | from a given seen set, the non-doc edits carry pairwise distinct spans, and those spans are exactly the reference spans not yet seen |
| Synthesis.UpdateDedup | gopls/internal/lsp/source/rename.go:597-678 | the non-doc edits of update correspond one to one with the distinct spans of the references |
| PackagePlan.InsertByRangeOk | gopls/internal/lsp/source/rename.go:487-489 | inserting an edit into a list sorted by range gives a sorted permutation of the list plus the edit |
| PackagePlan.SortByRange | gopls/internal/lsp/source/rename.go:487-489 | the sorted list is a permutation of the input, ordered by CompareRange |
| PackagePlan.RealizeSnoc | gopls/internal/lsp/source/rename.go:295-339 | the edits of a plan with one more visit are those of the plan with that visit applied |
| PackagePlan.RealizeAppend | gopls/internal/lsp/source/rename.go:295-339 | running two plan fragments one after the other gives the same edits as running their concatenation |
| PackagePlan.ApplyStepsSnoc | gopls/internal/lsp/source/rename.go:437-495 | the edits after one more import step are those of the step applied to the earlier result |
| PackageRename.WorkspaceEdits.constructor | gopls/internal/lsp/source/rename.go:291 | the edit map starts empty |
| PackageRename.WorkspaceEdits.Append | gopls/internal/lsp/source/rename.go:395-398 | the edit is appended to its file's list |
| PackageRename.WorkspaceEdits.AppendAll | gopls/internal/lsp/source/rename.go:492-494 | each file's edits from the change map are appended to that file's list, whatever order the files are visited in |
| PackageRename.ChooseLocalName | gopls/internal/lsp/source/rename.go:469-476 | the try++ loop ends at the fresh local name FreshLocalName specifies |
| PackageRename.RenameAlias | gopls/internal/lsp/source/rename.go:457-491 | the local renaming of one import is the one AliasFor specifies |
| PackageRename.RenameClauseInFile | gopls/internal/lsp/source/rename.go:382-399 | one file of the clause loop is marked seen and gets its clause edit only the first time |
| PackageRename.RenamePackageClause | gopls/internal/lsp/source/rename.go:375-402 | fails exactly when the package is not in the workspace; otherwise the seen set and the edits are those of the clause plan |
| PackageRename.RenameImport | gopls/internal/lsp/source/rename.go:442-494 | one import gets its path edit, then its local renaming when one is needed, as AliasFor specifies |
| PackageRename.RenameImportsInFile | gopls/internal/lsp/source/rename.go:437-495 | the import loop of one file applies each step StepsFrom lists, or stops with its error |
| PackageRename.RenameImportsInPackage | gopls/internal/lsp/source/rename.go:432-496 | the file loop of one reverse dependency follows FilesFrom |
| PackageRename.RenameImports | gopls/internal/lsp/source/rename.go:409-500 | fails when the reverse dependencies are unknown; otherwise the seen set and the edits are those of ImportsPlan |
| PackageRename.RenameForMetadata | gopls/internal/lsp/source/rename.go:295-339 | one iteration of the metadata loop follows MetaStep |
| PackageRename.RenamePackage | gopls/internal/lsp/source/rename.go:284-342 | the method computes RenamePackageSpec; its properties are the lemmas of PackageProps |
| PackageRename.MergeSnoc | gopls/internal/lsp/source/rename.go:492-494 | merging one more file's edits appends them to that file's list |
| PackageProps.AffectedIff | gopls/internal/lsp/source/rename.go:311-313 | a package is affected exactly when its path is the old path or lies below it |
| PackageProps.NotAffectedWithoutSlash | gopls/internal/lsp/source/rename.go:311-313 | a path that extends the old path by anything but `/` is not affected |
| PackageProps.TestVariantNotAffected | gopls/internal/lsp/source/rename.go:296-313 | the external test variant is not affected, and is handled only by its package clause |
| PackageProps.SiblingNotAffected | gopls/internal/lsp/source/rename.go:311-313 | renaming a/old leaves a/oldx alone but affects a/old/sub |
| PackageProps.NewImportPathShape | gopls/internal/lsp/source/rename.go:289-325 | the renamed package moves to Join(Dir(oldPath), newName), and a package below it keeps its suffix |
| PackageProps.NewImportPathExample | gopls/internal/lsp/source/rename.go:289-325 | renaming a/old to n moves a/old/sub to a/n/sub; a top-level old becomes n |
| PackageProps.DropFirstEditOk | gopls/internal/lsp/source/rename.go:485-491 | dropping reaches the slice of an empty list (a panic in Go, an error here) exactly when the file has no edits; otherwise exactly one least edit by range is removed from that file, and the other files are unchanged |
| PackageProps.AliasForOk | gopls/internal/lsp/source/rename.go:454-491 | a local renaming happens exactly when the package name changes and the import is unnamed; its name is fresh in both scopes; its edits are renameObj's, minus the least one when the name is the new name |
| PackageProps.MetaFromFresh | gopls/internal/lsp/source/rename.go:344-366 | the metadata walk never visits a key already seen or visits one twice |
| PackageProps.PlanKeysDistinct | gopls/internal/lsp/source/rename.go:344-366 | renamePackage never visits a (file, import path) pair twice |
| PackageProps.StepsFromSound | gopls/internal/lsp/source/rename.go:437-495 | the steps of a file are its imports of the renamed path, in order, each with the new path and the right local renaming |
| PackageProps.MetaFromSound | gopls/internal/lsp/source/rename.go:295-339 | every visit comes from a metadata entry and does what its package's role demands |
| PackageProps.ClausePlanCovers | gopls/internal/lsp/source/rename.go:375-402 | after renamePackageClause every file of the package is marked seen |
| PackageProps.ImportsPlanCovers | gopls/internal/lsp/source/rename.go:409-500 | after renameImports every file of every fully parsed reverse dependency is marked seen |
| PackageProps.MetaFromCovers | gopls/internal/lsp/source/rename.go:295-339 | every (file, path) pair some metadata entry demands is visited or was already seen |
| PackageProps.PlanOk | gopls/internal/lsp/source/rename.go:284-342 | renamePackage's plan has distinct keys; each visit rewrites what its package's role demands; every demanded pair is visited |
| PackageProps.RenameObjErrors | gopls/internal/lsp/source/rename.go:504-565 | renameObj's errors are validation, conflict or import-spec errors |
| PackageProps.StepsFromErrors | gopls/internal/lsp/source/rename.go:477-491 | the import loop fails only with a renameObj error or when there is no edit to drop |
| PackageProps.MetaFromErrors | gopls/internal/lsp/source/rename.go:295-339 | each failure of the metadata walk is traced to an entry: missing module information, a package missing from the workspace, unknown reverse dependencies, or a local-renaming error |
| PackageProps.RenamePackageErrors | gopls/internal/lsp/source/rename.go:284-342 | renamePackage fails with the module-root error exactly when the package is the module root, before any edit; every other failure is a MetaError |
| Dispatch.PreparePackageOk | gopls/internal/lsp/source/rename.go:84-120 | preparing a package succeeds exactly when the file has metadata whose first entry is neither main nor _test, has module information, is not the module root and is in the workspace; the answer is the package's name over the range of the package clause's identifier; each failed check (no metadata, main, _test, no module information, module root, not in the workspace) gives its own error, in the source's order |
| Dispatch.PrepareObjectOk | gopls/internal/lsp/source/rename.go:123-155 | preparing an object succeeds exactly when there is one and checkRenamable accepts it; the answer is its node's range (an import spec collapsed to its start) with its name; otherwise the error is that there is no identifier, or checkRenamable's |
| Dispatch.PlainFunctionPanics | gopls/internal/lsp/source/rename.go:589-594 | isInterfaceSignature as written reaches a nil dereference for every plain function |
| Dispatch.IsInterfaceSignature | gopls/internal/lsp/source/rename.go:589-594 | the corrected predicate agrees with the source wherever the source does not panic, and is false for a plain function |
| Dispatch.TagEdits | gopls/internal/lsp/source/rename.go:256-259 | each edit is kept, in order, and tagged with the annotation identifier |
| Dispatch.MergeAnn | gopls/internal/lsp/source/rename.go:255-260 | a file is present when present in either map, and its tagged edits are the old ones followed by the new |
| Dispatch.AddTagged | gopls/internal/lsp/source/rename.go:255-260 | the edits of one implementation, tagged with its index, are appended file by file |
| Dispatch.AppendTagged | gopls/internal/lsp/source/rename.go:256-259 | the edits of one file are appended in order, each tagged |
| Dispatch.WithTaggedSnoc | gopls/internal/lsp/source/rename.go:256-259 | one more edit is appended to its file's tagged list |
| Dispatch.RenameImplementations | gopls/internal/lsp/source/rename.go:250-271 | the fan-out loop computes FanOut |
| Dispatch.Rename | gopls/internal/lsp/source/rename.go:176-275 | the method computes RenameSpec, which uses the corrected isInterfaceSignature of "## Findings": for a plain function it returns the edits where the source panics |
| Dispatch.AnnotationKeys | gopls/internal/lsp/source/rename.go:265 | every annotation is filed under fmt.Sprint of an implementation index |
| Dispatch.AnnotationAt | gopls/internal/lsp/source/rename.go:261-269 | implementation k's annotation is filed under fmt.Sprint(k), labelled "Rename implementation #k+1", needs confirmation, and describes the implementation |
| Dispatch.ImplResultsOk | gopls/internal/lsp/source/rename.go:250-254 | a successful fan-out has one result per implementation, each that implementation's renameObj with renameImpls set |
| Dispatch.ImplResultsErr | gopls/internal/lsp/source/rename.go:251-253 | a failed fan-out reports the error of the first implementation that cannot be renamed |
| Dispatch.ImplResultsAllOk | gopls/internal/lsp/source/rename.go:250-254 | when the fan-out succeeds, every implementation renames, and result k is implementation k's edits |
| Dispatch.CollectPerFile | gopls/internal/lsp/source/rename.go:250-260 | each file's annotated edits are the implementations' edits of that file, implementation by implementation |
| Dispatch.PerFileSound | gopls/internal/lsp/source/rename.go:255-259 | an annotated edit is an edit of that file by some implementation k, tagged fmt.Sprint(k) |
| Dispatch.PerFileComplete | gopls/internal/lsp/source/rename.go:255-259 | every edit of a file by implementation k appears tagged fmt.Sprint(k) |
| Dispatch.FanOutAnnotations | gopls/internal/lsp/source/rename.go:250-270 | after a successful fan-out, every implementation renamed and has its annotation under its index, and there are no other annotations |
| Dispatch.FanOutEdits | gopls/internal/lsp/source/rename.go:250-271 | each file's optional edits are the implementations' edits of it, in implementation order |
| Dispatch.FanOutEditSound | gopls/internal/lsp/source/rename.go:250-271 | each optional edit carries an existing annotation, that of the implementation it comes from |
| Dispatch.FanOutEditComplete | gopls/internal/lsp/source/rename.go:250-271 | every edit of every implementation is among the optional edits, tagged with the implementation's index |
| Dispatch.FanOutErr | gopls/internal/lsp/source/rename.go:250-254 | a failed fan-out reports the first failing implementation's error |
| Dispatch.CollectSnoc | gopls/internal/lsp/source/rename.go:250-260 | one more implementation's results are tagged with its index and merged in |
| Dispatch.RenamePackageRequestOk | gopls/internal/lsp/source/rename.go:189-232 | a package rename reports itself as one, even on error; it fails in order on an invalid identifier, no packages, missing module information, a _test name, then the module root; any other failure is a MetaError; on success its edits are those of renamePackage's plan, with no optional edits |
| Dispatch.RenameSymbolRequestOk | gopls/internal/lsp/source/rename.go:234-274 | a symbol rename with no object fails; otherwise its edits are renameObj's; optional edits come exactly with an interface method and are then the fan-out; an error is renameObj's or the fan-out's |
| Dispatch.PrepareThenRename | gopls/internal/lsp/source/rename.go:53-275 | after a successful PrepareRename, a package rename with a valid new name not ending in _test fails only as renamePackage can; an object rename fails with renameObj's error, which is never the embedded-field or `_` error |

## Left out

- The client capability check in PrepareRename (file-renaming support, lines 67-78) is not modelled. It depends on client options.
- ParseGo and the errors of isInPackageName, MetadataForFile, AllValidMetadata, qualifiedObjsAtProtocolPos, references and implementations are not modelled. Their results are inputs: `Request`, `Snapshot`, the references carried by `Target` and `Impl`.
- The conversion of edits to protocol edits in renameObj (GetFile, Read, ToProtocolEdits, lines 567-585) is not modelled: offsets stay offsets. So are the mapping of ranges to positions and its errors (posToMappedRange, NewMappedRange, span.NewRange, ref.Span). A range is a pair of byte offsets.
- The usererr and err results of PrepareRename are one error here.
- SymbolRename.RenameObjConflict: the checker's error message is replaced by the index of the first conflicting reference. The conflict checker itself (renamer.check) is not modelled: each reference carries the queries for which it reports a conflict.
- Text.IsValidIdentifier is the ASCII form of isValidIdentifier (letters, `_`, digits, not the blank identifier `_`, not a keyword). Unicode letters are not modelled. isValidIdentifier itself is defined outside rename.go and is not part of this model.
- The compilation of `\bFROM\b` cannot fail for an identifier, and its error is not modelled. Matching is modelled on characters in place of UTF-8 bytes.
- Text.Quote wraps the path in double quotes without escaping. Import paths with characters that strconv.Quote escapes are not modelled.
- Text.LastSlash, via Dir and Join, models path.Dir and path.Join on clean paths only. path.Clean's normalisation is not modelled.
- PackagePlan.SortByRange is a stable insertion sort, while sort.Slice is not stable. Only which edit is dropped depends on the sort, and the least edit by range is unique when ranges differ. After the drop, the model keeps the remaining edits sorted.
- isDirective is a flag on each comment, and pathEnclosingInterval is the enclosing-node list carried by an identifier (`Ident.path`) and the `SpecLookup` of a PkgName.
- Dispatch.ImplDescription for a plain-function implementation (line 263 calls Recv() on it, which would also dereference nil) is given the bare name.
- PackagePlan.DropFirstEdit / PackageProps.DropFirstEditOk: `changes[f.URI] = v[1:]` (line 490) panics in Go when the file has no edits; the model returns the error `AliasEditMissing` instead, which Rename reports like any other error.
- Event tracing and context cancellation are not modelled.
- In the source, Rename's package branch does not reject a `main` package or a package whose name ends in `_test`; only PrepareRename does. The model follows the code and does the same.

## Findings

| source | as written | input that shows it | evidently intended | confidence | as-written member | corrected member |
|---|---|---|---|---|---|---|
| gopls/internal/lsp/source/rename.go:589-594 | isInterfaceSignature calls `Recv().Type()` on every function without checking that there is a receiver, and Rename calls it after every successful renameObj (line 243) | renaming any plain function, e.g. `Symbol("f", FuncObj(NoReceiver))`: Recv() is nil and the call dereferences it | false for a function without a receiver, as renameObj checks at lines 538-540 | not executed | Dispatch.PlainFunctionPanics | Dispatch.IsInterfaceSignature |
