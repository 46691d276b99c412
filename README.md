# BUILD-file scope resolution and scalar project-view sections

This project models two pieces of the Bazel/Blaze IntelliJ plugin and proves their behaviour in Dafny.

**Scope resolution in BUILD files** (`ResolveUtil`). A reference in a BUILD file finds its declaration by
walking from the referring element up through its ancestors, innermost scope first. At each parent the walk
offers candidate symbols to a processor callback:

- a BUILD file offers its top-level symbols;
- a function offers its parameters;
- a `for` statement offers those loop variables that are assignment targets;
- a statement list offers the left-hand targets of its assignments.

The walk ends at the first file or directory. It also ends as soon as the callback answers `false`. On top of
the walk sit `findInScope`, the search of a statement list for an assignment target by name, the visit of the
symbols imported by `load` statements, and the two searches that map an element to the file it stands for.

**Scalar sections** (`ScalarSection`). A scalar section is an immutable project-view section holding one value.
Its `Builder` stores a value that `set` overwrites; `build` snapshots it into a new section.

Layout:

- `wrappers.dfy` — `Option`, standing for a nullable reference.
- `psi.dfy` — the syntax-tree elements the helpers look at, as values. Element identity is an `id`. An
  element together with its ancestors is a sequence `chain`, where `chain[i + 1]` is the parent of `chain[i]`.
- `processor.dfy` — the callback protocol. A callback is a predicate. A search is recorded as its trace, the
  sequence of elements it offered, and a flag that says whether it ran to the end. `VisitAll` is the reference
  definition: offer in order, stop right after the first rejection.
- `resolve_util.dfy` — the walk and the searches. Each is a method proved against a specification function.
- `scalar_section.dfy` — `ScalarSection` and its `Builder` as classes.

Host services are inputs to the model:

- `BuildFile.searchSymbolsInScope` is the parameter `fileScope(file, anchor)`. It gives the symbols the file
  offers for an anchor, which are then visited under the same stop-at-first-rejection rule.
- The registered `PsiFileProvider`s are the parameter `providers`.
- The tree's parent links, its children lists and a string literal's referenced element are fields of the
  values in `psi.dfy`.

## Model

| member | source | states |
|---|---|---|
| Processor.VisitAllFacts | blaze-base/src/com/google/idea/blaze/base/lang/buildfile/search/ResolveUtil.java:96-107 | a search offers a prefix of its candidates in order; every call but the last was accepted; it reports completion exactly when every candidate is accepted; a stopped search ends with the rejected candidate |
| Processor.VisitAllStopsAt | blaze-base/src/com/google/idea/blaze/base/lang/buildfile/search/ResolveUtil.java:100-104 | when the candidate at index j is the first rejected one, the search makes exactly the calls up to and including j and reports that it was stopped |
| Processor.VisitAllFirst | blaze-base/src/com/google/idea/blaze/base/lang/buildfile/search/ResolveUtil.java:48-50 | offering a candidate first: a rejection stops the search with that one call, an acceptance goes on with the rest |
| Processor.VisitAllAppend | blaze-base/src/com/google/idea/blaze/base/lang/buildfile/search/ResolveUtil.java:39-64 | a search over two candidate lists in a row is the search over the first, then the search over the second only if the first was not stopped |
| ResolveUtil.AssignmentTargetsMembers | blaze-base/src/com/google/idea/blaze/base/lang/buildfile/search/ResolveUtil.java:100-102 | a symbol is offered by a statement list exactly when it is the non-null left-hand side of one of its assignments, whatever the assignment's position |
| ResolveUtil.LoopTargetsMembers | blaze-base/src/com/google/idea/blaze/base/lang/buildfile/search/ResolveUtil.java:53-54 | a `for` statement offers exactly its loop variables that are target expressions |
| ResolveUtil.VisitChildAssignmentStatements | blaze-base/src/com/google/idea/blaze/base/lang/buildfile/search/ResolveUtil.java:99-107 | the calls are the assignment targets in child order, with null targets skipped, cut right after the first rejection; the result is false exactly when some call returned false |
| ResolveUtil.SearchChildAssignmentStatements | blaze-base/src/com/google/idea/blaze/base/lang/buildfile/search/ResolveUtil.java:110-120 | the result is the first target in child order whose name equals the query; it is null exactly when no target has that name |
| ResolveUtil.NamedIsFirstMatch | blaze-base/src/com/google/idea/blaze/base/lang/buildfile/search/ResolveUtil.java:112-119 | with a callback that stops exactly at a target named `name`, the target it stopped at is the first one with that name, and there is none exactly when no target has that name |
| ResolveUtil.VisitLoadedSymbols | blaze-base/src/com/google/idea/blaze/base/lang/buildfile/search/ResolveUtil.java:125-134 | the calls are the imported symbols of every load statement, statement by statement and each in order, cut right after the first rejection; the result is false exactly when some call returned false |
| ResolveUtil.VisitParameters | blaze-base/src/com/google/idea/blaze/base/lang/buildfile/search/ResolveUtil.java:47-51 | a function's parameters are offered in order until the first rejection |
| ResolveUtil.VisitLoopVariables | blaze-base/src/com/google/idea/blaze/base/lang/buildfile/search/ResolveUtil.java:52-57 | only loop variables that are target expressions are offered, in order, until the first rejection |
| ResolveUtil.TopLevelUntilFunction | blaze-base/src/com/google/idea/blaze/base/lang/buildfile/search/ResolveUtil.java:37-46 | the top-level flag, true at the start, is true at a level exactly when no parent passed on the way up was a function; so once cleared it stays cleared |
| ResolveUtil.OfferParentScope | blaze-base/src/com/google/idea/blaze/base/lang/buildfile/search/ResolveUtil.java:40-62 | at one level the parent offers what its kind declares, and a BUILD file gets the child element as anchor only while the top-level flag is true, null otherwise |
| ResolveUtil.OfferedOnPrefix | blaze-base/src/com/google/idea/blaze/base/lang/buildfile/search/ResolveUtil.java:39-62 | what a parent offers depends only on the element, the parent and the ancestors already passed, never on those above |
| ResolveUtil.CandidatesEndAtFileSystemItem | blaze-base/src/com/google/idea/blaze/base/lang/buildfile/search/ResolveUtil.java:39 | ancestors above the first file or directory contribute nothing: the walk stops there |
| ResolveUtil.ScopeWalkIsOneSearch | blaze-base/src/com/google/idea/blaze/base/lang/buildfile/search/ResolveUtil.java:35-65 | the level-by-level walk, where every level returns at once on a rejection, is one search over all candidates in scope, innermost first: after a rejection at any level nothing further is offered |
| ResolveUtil.WalkAdvance | blaze-base/src/com/google/idea/blaze/base/lang/buildfile/search/ResolveUtil.java:39-64 | after one level the walk has either ended, with that level's calls last, or goes on from the parent |
| ResolveUtil.SearchInScope | blaze-base/src/com/google/idea/blaze/base/lang/buildfile/search/ResolveUtil.java:35-65 | the calls made are those of the level-by-level walk from the element up to the first file or directory |
| ResolveUtil.StoredIsFirstMatch | blaze-base/src/com/google/idea/blaze/base/lang/buildfile/search/ResolveUtil.java:73-93 | with a callback that stops exactly when it stores a result, the stored result is the one for the first matching candidate, and null when none matches |
| ResolveUtil.FindInScope | blaze-base/src/com/google/idea/blaze/base/lang/buildfile/search/ResolveUtil.java:71-94 | the result is what the first matching candidate in scope gives, innermost first: a named element called `name`, or the named element referred to by a string literal whose contents are `name`; the element being resolved is never the match; the result is null exactly when nothing matches, and is always a named element |
| ResolveUtil.AsFileSearch | blaze-base/src/com/google/idea/blaze/base/lang/buildfile/search/ResolveUtil.java:148-164 | a file is its own answer; otherwise the answer is the first non-null provider answer, and it is null exactly when every provider answers null |
| ResolveUtil.AsFileSystemItemSearch | blaze-base/src/com/google/idea/blaze/base/lang/buildfile/search/ResolveUtil.java:136-146 | a file or directory is its own answer; any other element gets the answer of `AsFileSearch` |
| ProjectViewSection.ScalarSection.constructor | blaze-base/src/com/google/idea/blaze/base/projectview/section/ScalarSection.java:24-32 | `GetValue` returns exactly the value given to the constructor; the value is a `const`, so it never changes |
| ProjectViewSection.Builder.constructor | blaze-base/src/com/google/idea/blaze/base/projectview/section/ScalarSection.java:38-43 | a new builder keeps its section key and holds null |
| ProjectViewSection.NewBuilder | blaze-base/src/com/google/idea/blaze/base/projectview/section/ScalarSection.java:34-36 | the factory returns a new builder for the given key, holding null |
| ProjectViewSection.Builder.Set | blaze-base/src/com/google/idea/blaze/base/projectview/section/ScalarSection.java:45-48 | `set` overwrites the stored value and returns the builder it was called on |
| ProjectViewSection.Builder.Build | blaze-base/src/com/google/idea/blaze/base/projectview/section/ScalarSection.java:50-53 | `build` returns a newly allocated section holding the current value and leaves the builder unchanged |
| ProjectViewSection.BuildWithoutSet | blaze-base/src/com/google/idea/blaze/base/projectview/section/ScalarSection.java:39-53 | `build` without any `set` yields a section whose value is null |
| ProjectViewSection.BuildAfterSets | blaze-base/src/com/google/idea/blaze/base/projectview/section/ScalarSection.java:45-53 | after chained `set` calls, `build` reflects the last value set |
| ProjectViewSection.BuildTwice | blaze-base/src/com/google/idea/blaze/base/projectview/section/ScalarSection.java:50-53 | two `build` calls give two distinct sections with the same value |

## Left out

- The host's tree implementation (`getParent`, `childrenOfClass`, `findChildrenByClass`,
  `getImportedSymbolElements`, `getReferencedElement`) is not modelled. Its answers are given as values.
- `BuildFile.searchSymbolsInScope` is not part of this model. It is the parameter `fileScope`: the symbols
  it offers for a given anchor, visited with the same stop-at-first-rejection rule as every other visitor.
- The extension-point registry (`PsiFileProvider.EP_NAME`) is not modelled. It is the list `providers`, and a
  provider's answer is a file's id or null.
- ResolveUtil.SearchInScope: requires that the element's ancestors reach a file or directory, as every element of
  a parsed file does. For a detached element the source dereferences a null parent, and that failure is not modelled.
- ResolveUtil.SearchInScope: callbacks are modelled as predicates. A callback whose answer depends on its own
  earlier calls is not modelled. The callbacks in this file store a result and stop in the same call, so a
  predicate captures them.
- ResolveUtil.OfferParentScope: the loops over parameters and over loop variables run in helper methods
  (`VisitParameters`, `VisitLoopVariables`). The top-level flag is cleared after the function's parameters
  are offered rather than before. The flag is read only when the parent is a BUILD file, so no call differs.
- The unchecked cast of the processor at line 59 of ResolveUtil.java has no counterpart: candidates share one type.
- `ScalarSection`'s superclass `Section`, the builder's superclass `SectionBuilder`, `SectionKey` and Java
  serialisation are not part of this model. The section key is an opaque value stored by the builder.
- ProjectViewSection.ScalarSection.constructor: `GetValue` has no contract of its own. The constructor's
  contract and the `const` field carry its property.
- SerializationUtil.java: object serialisation to and from files, directory creation and class loading. This is I/O.
- BuildFileFormatter.java: runs the external `buildifier` process on a temporary file. This is process and file I/O.
- BlazeNewResourceCreationHandler.java: builds UI dialogs and panels and has no logic of its own.
- PyIssueParserProviderTest.java: tests a parser whose implementation is not part of this model.
