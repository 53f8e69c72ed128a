# A verified model of onnx-mlir's front end and analysis tools

onnx-mlir turns an ONNX graph, whose nodes refer to each other by name, into an MLIR program of SSA values, and
ships Python tools that profile the result and maintain its tests. This project models the algorithmic core of
both in Dafny and proves what they are for.

**Sorting and importing graphs.** A graph has an environment semantics (`GraphSemantics`): names are bound to
values of an abstract type, an operator is an uninterpreted function of its inputs, attributes and version, and an
operator with nested graphs is a dialogue that may run them any number of times. Names are lexical: a graph passed to
a function as an attribute keeps the names of the caller, and a function body sees its parameters alone. The imported
program has a semantics of its own (`SsaProgram`): numbered values, operations with regions.

`ModelImport` combines the parts: sorting (`TopologicalSort`, `SortMeaning`, `SortCaptures`), name resolution and
nested graphs (`SymbolTable`, `GraphImport`, `ProperNames`, `ImportSuccess`, `ImportCorrectness`, `FreeNames`), attribute
substitution and inlining (`AttributeReferences`, `SubstitutionMeaning`, `CallHygiene`, `OperatorScope`), and version
selection (`OpVersions`, `OpDispatch`) preserve meaning. `DispatchRules` says with literal domains how nodes are
dispatched, and `EmittedOperations` what an emitted operation or region says of its node or graph. What inlining can do to a graph that
is passed to a function is the subject of `NameCapture`, `CapturedNames`, `ShadowedNames`, `PassedNames`, `PassedGraphs`
and `PassedOperators`, and of `BodyRenaming` for functions without such graphs. `CallOutputs` and `NodeOperands` say when values lose their positions
(`Compaction`), `CallRank` and `CallDepth` that recursion over calls ends and that its bound does not matter. The importer
itself is the class `FrontendImporter.Importer`, whose methods update its symbol table, opset map, function map and block;
each is proved to do what the functions of `GraphImport` say. `ImportSteps`, `OnnxModel`, `Wrappers` and `Collections`
hold what these modules share.

**The profiler.** `CallTree` relates the tree of call stacks and the scans over its listing to counts over the raw
stacks, `OffsetCounts` and `OffsetPlaces` the counts per program counter to the frames and lines they come from.
`SampleDump` is the byte format of the in-process sampler, its writer and its parser. `OpSpans` pairs markers into operator
spans, searches them and attributes samples.

**Small tools.** `LineColouring` (which printed lines may be matched in any order), `FlagTokenizer` (quoted
command-line flags), `SeparatorRepair` (test separators), `CounterReport` (hardware counters).

`dafny verify dfyconfig.toml` checks everything.

## Where the code differs from what is said about it

The model follows the code.

- Inlining puts a graph that is passed as an attribute into the function's body, among the body's names and operators
  (lines 110-138 and 1306-1376 of `src/Builder/FrontendDialectTransformer.cpp`). This goes wrong in three ways.
  A name that the graph captures from the caller can mean a parameter of the function (`CaptureChangesMeaning`). A name
  that the graph binds itself can mean what the function has bound to it, since scopes are searched from the outermost
  inwards (`ShadowingChangesMeaning`). And the operators of the graph are resolved with the operator sets of the function,
  and for a schema function without the model's functions (`VersionChangesMeaning`). In each case the model returns one
  value and the imported program another.
  The exact conditions can be read off the call and the function. Captured names keep their values, at every place of the
  body and for all operators, exactly if each is passed to the parameter of its name (`CallCapturesIff`). Bound names
  are found where they are bound, in all runs of the importer, exactly if no graph binds a name that is visible where the
  body refers to it: a parameter, an output of an earlier node, or the head of an enclosing graph (`OwnNamesIff`;
  `CallNamesIff` for both together). A graph without calls is imported to the same program in both contexts exactly if
  all its operators have the same targets there (`SameProgramIff`); a graph with calls is, if its operators and the
  contexts of the called bodies are the same (`GraphImportsAlike`). `Hygienic` is the conjunction of the three, and a
  default graph must capture nothing. From it and the function's own text the instantiated body is shown to be well formed
  (`BodyIsFormed`), and for such calls inlining is correct (`CallMeaning`, `CallCorrect`). The conditions on names are
  about what names denote: whether a program's outputs differ depends, beyond that, on whether an operator ever runs the
  graph and uses its answer.
- `src/Builder/ImportONNXUtils.cpp` looks only at the inputs of a node, not at what its nested graphs capture
  (lines 31 and 73): a sort can put a node before the producer of a captured name (`SortIgnoresCaptures`). All sorted
  arrangements can run exactly if every captured name is visible from the start or output by a node that its reader
  depends on through inputs (`AllArrangementsRunIff`).
- With an output name given twice, the result of a successful sort can be refused when sorted again
  (`ResortCanFail`). Sorting succeeds and keeps the order exactly if no input is output again by its reader or later
  (`SortKeepsOrderIff`, for all graphs).
- `src/Builder/SymbolTable.hpp` searches scopes from the outermost to the innermost (lines 118-124): an inner name
  that repeats a visible one is added but the outer one is still found (`AddedIsFoundIffNotShadowed`). The theorems about imports
  therefore use the rule of the ONNX IR specification, section "Nodes", that names are distinct from visible outer
  names.
- A call's outputs are collected without the unbound ones and then bound by position
  (`src/Builder/FrontendDialectTransformer.cpp`, lines 1378-1383 and 1397-1401). A function that binds only the second
  of its outputs gives that value to the caller's first name (`OutputIsMisplaced`); outputs arrive under the right names
  exactly if, in the function as written, no unbound output comes before a bound one (`CallOutputsArriveIff`).
- An operation's input that is not found is dropped without notice, so that later operands move (lines 865-875). There
  is an operand for every input exactly if every non-empty name is visible, and operands keep their positions exactly if
  no unknown name comes before another input (`OperandPositionsIff`).
- The comment on version selection says "newest" where the code takes the least supported version that is new
  enough (lines 1168-1174 and 1210-1220), as `SelectionIsLeast` states.
- The generated table has a handler for every name the selector can return only under a condition on the two version
  lists, which `GeneratorCoversSelector` states as an equivalence.
- Operator sets are looked up by the literal domain (lines 1147-1150), though "ai.onnx" is another name of the default
  domain and both are taken for standard (lines 1438-1440). If a model gives an operator set for "" alone, a node that
  says "ai.onnx" gets the newest version of its operator whatever the set says. The two names are dispatched alike exactly if
  the valid version is newer than all supported ones but the newest (`AliasIsAlikeIff`).
- A model function is looked up by domain and name joined with a colon (lines 92-95). Nodes find exactly the functions of
  their own domain and name if no domain contains a colon (`ModelFunctionsAreCalled`), but not otherwise (`ColonsCollide`).
- Two lines of one colour are independent only in one direction: the later one does not use the earlier one, but it can
  redefine an operand of it (`RedefinitionSharesColour`). Matching lines in any order within colours leaves every read with
  its definition exactly if no line defines an operand of an earlier line of its colour (`RearrangingKeepsReadsIff`). Text
  in which no line does so between two lines without a definition meets this, also if several functions reuse names
  (`TidyBlocksKeepReads`).
- The separator script promises separators between consecutive functions; its look-ahead ends after nine lines
  (`AheadIff`, `DistantFunctionIsMissed`).
- The binary search over spans can miss a span. Spans extracted from markers never share an address, whether the
  markers overlap or not (`ExtractedSpansFollow`), but of overlapping markers a span can come out with its end before its
  body and hide another one (`OverlapHides`). The search agrees with a scan at all addresses exactly if, in body order,
  no earlier span goes on at a point where a later one is over and the next has not begun (`ExtractedLookupIff`). Markers
  that do not overlap, touching or empty ones included, give spans on which it always does (`ExtractedLookupIsScan`).
- For the same reason `--op` and `--not-op` can together keep samples that lie in no span when all spans are searched. They
  split the samples in spans exactly if every hidden span is hidden among the spans of its own kind too
  (`SelectionsFindIff`, `SelectionsCanDiffer`).
- In a table averaged over runs, a run without a counter's total is left out of the averaged total but counts as zero in the
  averaged cells (`utils/parse-cntr-report.py`, lines 162-166). The column then adds up to the total exactly if every run has
  the total or the total is zero (`AverageAddsUpIff`).
- The counts per program counter are described as counts of leaves, but every frame of the model inside the marker hands
  out its cumulative count (`utils/profile-model.py`, lines 1584-1611): a stack is counted once for each of its model frames
  (`OffsetCountsAddUp`). If every stack through the marker has one, the counts are the samples exactly if none has more
  (`CountsAreSamplesIff`).

## Model

| member | source | states |
|---|---|---|
| `TopologicalSort.IsTopologicallySorted` | src/Builder/ImportONNXUtils.cpp:21-40 | returns true exactly if every input is an initializer, a graph input or an output of an earlier node |
| `TopologicalSort.IndexProducers` | src/Builder/ImportONNXUtils.cpp:46-54 | the index maps each name to the last node that outputs it |
| `TopologicalSort.ProducerIndexIsLast` | src/Builder/ImportONNXUtils.cpp:46-54 | a name is in the index exactly if it is an output, and stands for its last producer |
| `TopologicalSort.BuildUsers` | src/Builder/ImportONNXUtils.cpp:56-87 | fails exactly if some input has no source; otherwise the user lists are the converse of the dependencies, with multiplicity |
| `TopologicalSort.CountInDegrees` | src/Builder/ImportONNXUtils.cpp:89-101 | the in-degree of each node is the number of its inputs that nodes produce, counted with multiplicity |
| `TopologicalSort.InitiallyReady` | src/Builder/ImportONNXUtils.cpp:103-109 | the ready list holds each node without dependencies once |
| `TopologicalSort.TakeNode` | src/Builder/ImportONNXUtils.cpp:117-131 | taking a ready node keeps the loop's invariant: in-degrees count missing dependencies and the ready list holds each ready node once |
| `TopologicalSort.KahnOrder` | src/Builder/ImportONNXUtils.cpp:111-133 | the order takes the least ready node at every step and stops only when no node is ready |
| `TopologicalSort.ApplyOrder` | src/Builder/ImportONNXUtils.cpp:139-153 | the swap loop leaves at each place the original element that the order names |
| `TopologicalSort.PlaceNext` | src/Builder/ImportONNXUtils.cpp:145-151 | one round of the swap loop puts the wanted element in place and keeps track of where every element came from |
| `TopologicalSort.SortGraph` | src/Builder/ImportONNXUtils.cpp:44-155 | on success the nodes are the old ones in the greedy order; on failure they are unchanged and no order of the dependencies exists |
| `TopologicalSort.GreedyIsLexSmallest` | src/Builder/ImportONNXUtils.cpp:42-133 | the greedy order is lexicographically at most every other valid order |
| `TopologicalSort.LexLeqBothWays` | src/Builder/ImportONNXUtils.cpp:42-133 | so no other valid order is as small: sequences that precede each other are equal |
| `TopologicalSort.StuckMeansNoOrder` | src/Builder/ImportONNXUtils.cpp:134-137 | if the loop stops early there is no valid order at all |
| `TopologicalSort.OrderSorts` | src/Builder/ImportONNXUtils.cpp:21-153 | arranging the nodes by a valid order passes the sortedness test |
| `TopologicalSort.SortingIsOrder` | src/Builder/ImportONNXUtils.cpp:21-153 | with unique outputs, every arrangement that passes the test is a valid order |
| `TopologicalSort.SortIsLeastSorted` | src/Builder/ImportONNXUtils.cpp:42-155 | a successful sort yields a sorted permutation, and the least of all sorted permutations |
| `TopologicalSort.SortableIffOrdered` | src/Builder/ImportONNXUtils.cpp:44-155 | with unique outputs, a valid order exists exactly if some permutation of the nodes is sorted |
| `TopologicalSort.SortKeepsOrderIff` | src/Builder/ImportONNXUtils.cpp:44-155 | for every graph: the sort succeeds and leaves each node in its place exactly if each input's last producer stands before its reader |
| `TopologicalSort.SortKeepsSorted` | src/Builder/ImportONNXUtils.cpp:44-155 | a sorted graph with unique outputs is left as it is |
| `TopologicalSort.SortIsIdempotent` | src/Builder/ImportONNXUtils.cpp:44-155 | sorting twice is sorting once |
| `TopologicalSort.ResortCanFail` | src/Builder/ImportONNXUtils.cpp:50-52 | with a duplicate output name, a sort succeeds on a graph whose result has no valid order |
| `TopologicalSort.ReorderKeepsElements` | src/Builder/ImportONNXUtils.cpp:139-153 | applying a permutation keeps the multiset of nodes |
| `FreeNames.NodesLocal` | src/Builder/FrontendDialectTransformer.cpp:582-585 | the outcome of running nodes depends only on the names they read and on what attribute references stand for, nested graphs included |
| `FreeNames.ResultsLocal` | src/Builder/FrontendDialectTransformer.cpp:865-875 | a node's results depend only on the names it reads |
| `FreeNames.GraphLocal` | src/Builder/FrontendDialectTransformer.cpp:494-622 | two environments that agree on the names a graph captures give the graph the same meaning |
| `SortMeaning.OrdersAgree` | src/Builder/ImportONNXUtils.cpp:42-155 | two runnable arrangements of the same single-assignment nodes end in the same environment |
| `SortMeaning.NeverUnbound` | src/Builder/ImportONNXUtils.cpp:42-155 | at every point of a run of runnable nodes the next node finds all its inputs |
| `SortMeaning.SortedIsRunnable` | src/Builder/ImportONNXUtils.cpp:21-40 | sorted single-assignment nodes can run exactly if the names their nested graphs capture are ready |
| `SortCaptures.AllArrangementsRunIff` | src/Builder/ImportONNXUtils.cpp:42-155 | for every sortable single-assignment graph: all its sorted arrangements can run exactly if each captured name is visible or output by a node that its reader depends on through inputs |
| `SortCaptures.UncoveredCanFail` | src/Builder/ImportONNXUtils.cpp:73-86 | for a captured name that is neither, some valid order puts its reader too early |
| `SortCaptures.ArrangementsAgree` | src/Builder/ImportONNXUtils.cpp:42-155 | if captures are covered so, all sorted arrangements run to the same outcome |
| `SortCaptures.SortPreservesMeaning` | src/Builder/ImportONNXUtils.cpp:44-155 | then the sorted graph can run, and ends in the same environment as every other sorted arrangement |
| `SortMeaning.SortIgnoresCaptures` | src/Builder/ImportONNXUtils.cpp:73-86 | a sort can leave a node before the producer of a name it captures, and the run then fails |
| `SymbolTable.LookupIsBinding` | src/Builder/SymbolTable.hpp:118-124 | the scope-by-scope search finds exactly what one flat map of visible names holds |
| `SymbolTable.PushKeepsBindings` | src/Builder/SymbolTable.hpp:139-142 | opening a scope changes no binding |
| `SymbolTable.AddBindings` | src/Builder/SymbolTable.hpp:126-131 | adding a name never changes a name that was visible |
| `SymbolTable.AddedIsFoundIffNotShadowed` | src/Builder/SymbolTable.hpp:118-131 | an added object is found again exactly if its name was not visible before or already stood for it |
| `SymbolTable.SymbolMapping.GetByOnnxName` | src/Builder/SymbolTable.hpp:118-124 | the loop returns the outermost binding of the name |
| `SymbolTable.SymbolMapping.AddMapping` | src/Builder/SymbolTable.hpp:126-131 | adds the name to the innermost scope and changes nothing else |
| `SymbolTable.SymbolMapping.PushScope` | src/Builder/SymbolTable.hpp:139-142 | adds an empty innermost scope |
| `SymbolTable.SymbolMapping.PopScope` | src/Builder/SymbolTable.hpp:144-148 | removes the innermost scope and keeps the others |
| `AttributeReferences.ReplaceAttrRefs` | src/Builder/FrontendDialectTransformer.cpp:110-138 | the in-place loop with erasure yields the substituted node: referenced values under the old names, dangling references gone, nested graphs included |
| `AttributeReferences.ReplaceAttrRefsInNodes` | src/Builder/FrontendDialectTransformer.cpp:140-144 | every node is replaced by its substituted form |
| `AttributeReferences.SubstNodesRefFree` | src/Builder/FrontendDialectTransformer.cpp:108-144 | with reference-free values no reference remains at any depth |
| `AttributeReferences.SubstNodesIdentity` | src/Builder/FrontendDialectTransformer.cpp:108-144 | code without references is not changed |
| `AttributeReferences.CollectCallAttrs` | src/Builder/FrontendDialectTransformer.cpp:1306-1323 | the caller's value wins over the function's default, and only declared attributes are passed |
| `AttributeReferences.CallAttrsRefFree` | src/Builder/FrontendDialectTransformer.cpp:1306-1323 | reference-free callers and defaults give a reference-free map |
| `SubstitutionMeaning.NodesSubst` | src/Builder/FrontendDialectTransformer.cpp:108-144 | running a body whose attribute references stand for values equals running its substituted form, if what the values capture is not rebound by the body |
| `SubstitutionMeaning.GraphSubst` | src/Builder/FrontendDialectTransformer.cpp:140-144 | the same for nested graphs at any depth |
| `SubstitutionMeaning.CallSubst` | src/Builder/FrontendDialectTransformer.cpp:1306-1324 | the same for calls whose attributes refer to the enclosing function's |
| `OperatorScope.GraphInBoth` | src/Builder/FrontendDialectTransformer.cpp:1339-1347 | a graph whose operators have the same targets in two contexts means the same in both |
| `ProperNames.InstanceIsProper` | src/Builder/FrontendDialectTransformer.cpp:110-138 | a body without shadowing stays so when graphs are put in that are proper by themselves, capture visible names and bind none that is visible where they are put |
| `CallHygiene.PassedGraphsStand` | src/Builder/FrontendDialectTransformer.cpp:1306-1324 | in the body of a hygienic call every passed graph means what it means to the caller |
| `CallHygiene.HygienicInstance` | src/Builder/FrontendDialectTransformer.cpp:1306-1324 | so for a hygienic call the instantiated body is as proper as the function is by itself |
| `CallHygiene.CallMeaning` | src/Builder/FrontendDialectTransformer.cpp:1306-1324 | a hygienic call, with the passed graphs evaluated among the names of the caller, means its substituted body run on the parameters alone |
| `NameCapture.CaptureChangesMeaning` | src/Builder/FrontendDialectTransformer.cpp:1306-1376 | for a function whose parameter has the name that a passed graph captures, the model returns its first input and the imported program its second |
| `CapturedNames.CapturedNameIff` | src/Builder/FrontendDialectTransformer.cpp:1306-1376 | at every place of a body, in all runs with all operators, a captured name has the value of the caller exactly if it is passed to the parameter of its name |
| `CapturedNames.CallCapturesIff` | src/Builder/FrontendDialectTransformer.cpp:1306-1376 | for every call: the passed graphs keep the names of the caller wherever the body refers to them exactly if every name they capture is passed so |
| `ShadowedNames.ProperFindsOwn` | src/Builder/SymbolTable.hpp:118-131 | in a graph that is proper among the visible names, every name is found, in every run, where it is bound, at any depth |
| `ShadowedNames.KeptIsUnseen` | src/Builder/SymbolTable.hpp:118-131 | conversely a graph that keeps its own names binds none that is visible around it |
| `PassedNames.OnlyVisibleThere` | src/Builder/FrontendDialectTransformer.cpp:1351-1376 | in every run the table at a place of the body has only parameters, outputs of earlier nodes and names of enclosing graphs |
| `PassedNames.FitIff` | src/Builder/FrontendDialectTransformer.cpp:110-138 | the check on the text says exactly that at each reference the graph binds no name visible there |
| `PassedNames.OwnNamesIff` | src/Builder/FrontendDialectTransformer.cpp:1339-1376 | for every call of a proper function: wherever the body refers to a graph, the names the graph binds are found, in all runs of the importer, exactly if no graph binds a name visible where it is put |
| `PassedNames.CallNamesIff` | src/Builder/FrontendDialectTransformer.cpp:1306-1376 | passed graphs keep the names they capture and those they bind exactly if each captured name is passed to the parameter of its name and the graphs fit so |
| `PassedGraphs.ShadowingChangesMeaning` | src/Builder/FrontendDialectTransformer.cpp:1306-1376 | for a function that binds a name which the passed graph binds too, the model returns what the graph makes and the imported program what the function made |
| `PassedGraphs.VersionChangesMeaning` | src/Builder/FrontendDialectTransformer.cpp:1339-1350 | for a function with another operator set, the model returns what version 7 of an operator makes and the imported program what version 9 makes |
| `PassedOperators.GraphImportsAlike` | src/Builder/FrontendDialectTransformer.cpp:1339-1350 | a graph whose operators have the same targets in two contexts is imported to the same region |
| `PassedOperators.SameProgramIff` | src/Builder/FrontendDialectTransformer.cpp:1147-1223 | for every graph without calls that can be imported: the programs in two contexts are the same exactly if all operators, at any depth, have the same targets |
| `BodyRenaming.RenamingIsInvisible` | src/Builder/FrontendDialectTransformer.cpp:1339-1395 | renaming the parameters, nodes and outputs of a function by any one-to-one renaming, also to names the caller uses, changes nothing in what inlining emits, if no graphs are passed |
| `OpVersions.GetImportVersion` | src/Builder/FrontendDialectTransformer.cpp:1184-1222 | the two loops return the version suffix of the selected version |
| `OpVersions.NewestValidIsGreatest` | src/Builder/FrontendDialectTransformer.cpp:1184-1192 | the first loop finds the greatest schema version not above the graph's opset, or the oldest one |
| `OpVersions.SelectionIsLeast` | src/Builder/FrontendDialectTransformer.cpp:1206-1222 | the selected version is the least supported one at or above it, or the newest supported one |
| `OpVersions.LeastIsUnique` | src/Builder/FrontendDialectTransformer.cpp:1206-1222 | there is only one such version |
| `OpVersions.SelectionExamples` | src/Builder/FrontendDialectTransformer.cpp:1175-1182 | the two examples that the comment gives, opset by opset |
| `OpVersions.SelectionIsMonotone` | src/Builder/FrontendDialectTransformer.cpp:1147-1223 | a newer graph opset never selects an older version |
| `OpVersions.EveryVersionIsReached` | src/Builder/FrontendDialectTransformer.cpp:1184-1192 | each schema version is the newest valid one for some opset |
| `OpVersions.ScanVersions` | utils/gen_onnx_mlir.py:1549-1572 | the scan finds the wanted versions in turn and stops at the first that the history does not hold |
| `OpVersions.ScanFindsPrefix` | utils/gen_onnx_mlir.py:1549-1572 | what the scan found is the longest prefix of the wanted versions in the history |
| `OpVersions.RegisterHandlers` | utils/gen_onnx_mlir.py:1603-1614 | the loop over the schemas registers the first of each operator's run without suffix and the others with theirs |
| `OpVersions.BlockKeys` | utils/gen_onnx_mlir.py:1457-1495 | which names the run of one operator's schemas registers |
| `OpVersions.GeneratorCoversSelector` | utils/gen_onnx_mlir.py:1549-1614 | every name the selector can return has a handler exactly if the newest wanted version is in the history and every wanted one outside it is older than all schema versions |
| `OpVersions.SelectedIsRegistered` | utils/gen_onnx_mlir.py:1549-1614 | under that condition the selected name is registered for every opset |
| `DispatchRules.StandardIsRegular` | src/Builder/FrontendDialectTransformer.cpp:1425-1443 | in the domains "", "ai.onnx" and "ai.onnx.ml" an operator that is not to be decomposed is imported by the handler of the least supported version not older than the newest one up to the opset, without suffix if that is the newest supported one; one that is to be decomposed is not |
| `DispatchRules.UnversionedIsNewest` | src/Builder/FrontendDialectTransformer.cpp:1147-1165 | without an opset for the domain, or without version information, the handler is the one without suffix |
| `DispatchRules.AliasIsAlikeIff` | src/Builder/FrontendDialectTransformer.cpp:1147-1150 | with an opset for "" but none for "ai.onnx", an operator is dispatched alike in both exactly if the valid version is newer than all supported ones but the newest |
| `DispatchRules.RegularIsStandard` | src/Builder/FrontendDialectTransformer.cpp:1433-1442 | in every other domain no handler is used; a handler used is registered and not to be decomposed, and expects the number of operands in the table |
| `DispatchRules.FunctionsAreTried` | src/Builder/FrontendDialectTransformer.cpp:1445-1462 | what has no handler is the schema's function at the domain's opset, else the model's function of domain and name, and a custom operator exactly if there is neither |
| `DispatchRules.BodiesSeeFunctions` | src/Builder/FrontendDialectTransformer.cpp:1336-1347 | a body is dispatched with the function's own opsets; that of a schema's function never finds a model function, and differs from that of a model function only there |
| `DispatchRules.GetModelLocalFunctions` | src/Builder/FrontendDialectTransformer.cpp:97-106 | each identifier stands for the first function of the model that has it |
| `DispatchRules.IdentifierIsUnique` | src/Builder/FrontendDialectTransformer.cpp:92-95 | without a colon in the domains, equal identifiers have equal domain and name |
| `DispatchRules.ModelFunctionsAreCalled` | src/Builder/FrontendDialectTransformer.cpp:1453-1462 | then a node without handler and schema function calls the first function of its domain and name, and is unknown exactly if there is none |
| `DispatchRules.ColonsCollide` | src/Builder/FrontendDialectTransformer.cpp:92-95 | with a colon in a domain a node calls a function of another domain and name |
| `ImportSuccess.NodeOnlyAdds` | src/Builder/FrontendDialectTransformer.cpp:1425-1463 | importing a node adds at most its outputs to the innermost scope and leaves every other binding and scope alone |
| `ImportSuccess.NodesOnlyAdd` | src/Builder/FrontendDialectTransformer.cpp:582-585 | the same for a list of nodes |
| `ImportSuccess.OnlyAddsKeeps` | src/Builder/SymbolTable.hpp:118-131 | so every name that was visible still resolves to the same value |
| `ImportSuccess.GraphScopeCloses` | src/Builder/FrontendDialectTransformer.cpp:496-620 | after a graph's nodes its own scope is innermost, and closing it gives back the table from before |
| `ImportSuccess.CallScopeCloses` | src/Builder/FrontendDialectTransformer.cpp:1351-1387 | after a function body its own scope is innermost |
| `ImportSuccess.GraphFormedIff` | src/Builder/FrontendDialectTransformer.cpp:494-622 | a graph is well formed exactly if its names are proper and its calls well formed |
| `ImportSuccess.BodyIsFormed` | src/Builder/FrontendDialectTransformer.cpp:1306-1376 | the instantiated body of a well-formed call is well formed among the parameters |
| `ImportSuccess.NodesSucceed` | src/Builder/FrontendDialectTransformer.cpp:582-585 | well-formed nodes are imported, and then exactly their outputs and the old names are visible |
| `ImportSuccess.GraphSucceeds` | src/Builder/FrontendDialectTransformer.cpp:494-622 | a well-formed graph is imported |
| `ImportSuccess.CallSucceeds` | src/Builder/FrontendDialectTransformer.cpp:1229-1402 | a well-formed call is inlined |
| `CallRank.InstanceBelow` | src/Builder/FrontendDialectTransformer.cpp:1306-1324 | if the calls in a body, its defaults and the graphs passed to it are of functions of lower rank, so are all calls of the instantiated body |
| `CallRank.RankedIsFormed` | src/Builder/FrontendDialectTransformer.cpp:1229-1402 | calls that are sound at any depth and go down in rank are well formed up to the rank as bound on nesting |
| `CallRank.AcyclicIsFormed` | src/Builder/FrontendDialectTransformer.cpp:1229-1402 | a sound graph with a rank on its functions is well formed under some bound |
| `CallRank.GraphFormedDeeper` | src/Builder/FrontendDialectTransformer.cpp:494-622 | well-formedness carries over to a higher bound |
| `CallDepth.DeeperNode` | src/Builder/FrontendDialectTransformer.cpp:1425-1463 | once the bound lets an import finish, raising it changes nothing |
| `CallDepth.GraphSame` | src/Builder/FrontendDialectTransformer.cpp:494-622 | a graph that is well formed under a bound means the same under the next one |
| `CallDepth.BoundsAgree` | src/Builder/FrontendDialectTransformer.cpp:494-622 | any two bounds under which a graph is well formed give it the same meaning |
| `NodeOperands.OperandPositionsIff` | src/Builder/FrontendDialectTransformer.cpp:865-875 | an operand for every input exactly if every non-empty name is visible; each at its own position exactly if no unknown name comes before another input |
| `EmittedOperations.OperationSays` | src/Builder/FrontendDialectTransformer.cpp:441-458 | the last operation emitted for a node is the handler's or a custom one with the node's type and domain; it carries exactly the node's data attributes, in order and as often, then `onnx_node_name` exactly if the node has a name; it names the graph attributes in order, has the import of each as region, and a result for each output |
| `EmittedOperations.SameCallSameData` | src/Builder/FrontendDialectTransformer.cpp:441-458 | nodes of one name whose emitted calls are equal have the same data attributes |
| `EmittedOperations.RegionSays` | src/Builder/FrontendDialectTransformer.cpp:494-585 | a region's arguments are the inputs that no initializer names, in order, and it begins with a constant for each initializer |
| `EmittedOperations.HeadIsNamed` | src/Builder/FrontendDialectTransformer.cpp:494-580 | in the scope of a graph each initializer's name stands for its constant and each other input's for its argument; the scopes around are kept |
| `EmittedOperations.CallHeadIsNamed` | src/Builder/FrontendDialectTransformer.cpp:1352-1374 | a body starts in a table of one scope in which each parameter stands for its argument |
| `ImportCorrectness.NodeInputsCorrect` | src/Builder/FrontendDialectTransformer.cpp:865-875 | each input is resolved, in its position, to a value that holds what the name denotes, with none for an empty name |
| `ImportCorrectness.OperandsCorrect` | src/Builder/FrontendDialectTransformer.cpp:769-773 | missing trailing operands are filled with none |
| `ImportCorrectness.EnterGraphCorrect` | src/Builder/FrontendDialectTransformer.cpp:496-580 | inside a region the initializers, arguments and outer names resolve to the values they denote |
| `ImportCorrectness.NodesCorrect` | src/Builder/FrontendDialectTransformer.cpp:582-585 | running the emitted operations simulates running the nodes, success and failure alike |
| `ImportCorrectness.OperationCorrect` | src/Builder/FrontendDialectTransformer.cpp:754-863 | an emitted operation with its regions computes and names the node's results |
| `ImportCorrectness.RunCorrect` | src/Builder/FrontendDialectTransformer.cpp:823-846 | an operator that asks its nested graphs gets the same answers from the regions |
| `ImportCorrectness.GraphCorrect` | src/Builder/FrontendDialectTransformer.cpp:494-622 | a nested graph and its region give the same outputs for all arguments, outer names included |
| `ImportCorrectness.EnterCallCorrect` | src/Builder/FrontendDialectTransformer.cpp:1366-1372 | in the body's own table exactly the parameters are visible, with the argument values |
| `ImportCorrectness.LeaveCallCorrect` | src/Builder/FrontendDialectTransformer.cpp:1378-1401 | the body's results reach the caller's outputs, and the caller's names keep their values |
| `ImportCorrectness.CallCorrect` | src/Builder/FrontendDialectTransformer.cpp:1229-1402 | the inlined operations of a well-formed, hence hygienic call compute what the call means, where passed graphs keep the names of the caller |
| `FrontendImporter.Importer.CreateNoneValue` | src/Builder/FrontendDialectTransformer.cpp:232-234 | emits one none operation with a fresh value |
| `FrontendImporter.Importer.GetNodeInputs` | src/Builder/FrontendDialectTransformer.cpp:865-875 | the loop resolves all inputs in order |
| `FrontendImporter.Importer.GetOperands` | src/Builder/FrontendDialectTransformer.cpp:758-773 | inputs, padded with none up to the expected number |
| `FrontendImporter.Importer.BindResults` | src/Builder/FrontendDialectTransformer.cpp:856-862 | binds each non-empty output to its result |
| `FrontendImporter.Importer.GetImportVersionOfNode` | src/Builder/FrontendDialectTransformer.cpp:1147-1223 | no suffix for an unknown domain or operator, otherwise the selected version |
| `FrontendImporter.Importer.ImportInitializers` | src/Builder/FrontendDialectTransformer.cpp:500-505 | a constant for each initializer, bound to its name |
| `FrontendImporter.Importer.ImportArguments` | src/Builder/FrontendDialectTransformer.cpp:527-580 | an argument for each input without an initializer, bound to its name |
| `FrontendImporter.Importer.ImportGraph` | src/Builder/FrontendDialectTransformer.cpp:494-622 | under any bound on call nesting for which the specified import succeeds: terminates with its region and restores symbol table, opset map, function map and block |
| `FrontendImporter.Importer.ImportNode` | src/Builder/FrontendDialectTransformer.cpp:1425-1463 | under such a bound: looks up opset and version, chooses handler, schema function, model function or custom operator by the rules of `DispatchRules`, and keeps opset map and function map |
| `FrontendImporter.Importer.BuildOperation` | src/Builder/FrontendDialectTransformer.cpp:754-863 | emits operands and the operation that `OperationSays` describes, imports its regions, then binds its results |
| `FrontendImporter.Importer.ImportRegions` | src/Builder/FrontendDialectTransformer.cpp:823-846 | a region for each graph attribute, leaving the symbol table as it was |
| `FrontendImporter.Importer.ImportFunctionCallNode` | src/Builder/FrontendDialectTransformer.cpp:1229-1402 | under such a bound: inlines the body and rebinds its outputs, with the caller's context restored |
| `FrontendImporter.Importer.ImportAside` | src/Builder/FrontendDialectTransformer.cpp:1336-1395 | moves the caller's symbols, opsets and, for a schema function, model functions aside and back again |
| `FrontendImporter.Importer.InstantiateBody` | src/Builder/FrontendDialectTransformer.cpp:1304-1324 | the body with the call's attribute values, free of references |
| `ModelImport.MeaningIsUnique` | src/Builder/FrontendDialectTransformer.cpp:494-622 | a graph has at most one meaning on given arguments, whichever sufficient bound on call nesting one takes |
| `ModelImport.ImportPreservesMeaning` | src/Builder/FrontendDialectTransformer.cpp:494-622 | a well-formed main graph is imported to a program with the same outputs for all arguments and all operators |
| `ModelImport.ImportModel` | src/Builder/FrontendDialectTransformer.cpp:494-622 | for every sound model without cyclic calls the importer object terminates with a program that computes what the model means, for all arguments and operators |
| `ModelImport.KnownNamesOfGraph` | src/Builder/ImportONNXUtils.cpp:56-67 | the names the sort takes as known are those visible inside the main graph, and the empty one |
| `ProperNames.ProperGraphShrinks` | src/Builder/FrontendDialectTransformer.cpp:494-622 | a graph that is proper among some names is so among those of them that it captures |
| `ModelImport.ArrangementsAreFormed` | src/Builder/ImportONNXUtils.cpp:42-155 | for a graph that is sound but for the order of its nodes, one bound on call nesting makes all sorted arrangements well formed |
| `ModelImport.ComputesAll` | src/Builder/ImportONNXUtils.cpp:42-155 | a program for one sorted arrangement is a program for all of them |
| `ModelImport.SortAndImport` | src/Builder/FrontendDialectTransformer.cpp:1609-1640 | sorts if allowed and needed, then imports: there is a result exactly if the nodes can be ordered, and it computes what the graph means in whichever order its nodes are taken |
| `Compaction.AlignedIff` | src/Builder/FrontendDialectTransformer.cpp:1378-1383 | what is collected without the missing ones keeps its positions exactly if nothing missing comes before something found |
| `CallOutputs.CallOutputsArriveIff` | src/Builder/FrontendDialectTransformer.cpp:1378-1401 | for every imported call: each output that the function binds reaches the name of the caller at its position exactly if no parameter or node output of the function is listed behind an output that is neither |
| `CallOutputs.OutputIsMisplaced` | src/Builder/FrontendDialectTransformer.cpp:1378-1401 | a call of a function with outputs a and b that binds only b gives b's value to the caller's first output and nothing to its second |
| `CallTree.StacksToFrames` | utils/profile-model.py:1279-1336 | the listing is the preorder of the tree of all stacks |
| `CallTree.InsertAdds` | utils/profile-model.py:1295-1312 | adding a stack adds its weight at the end of its path and nowhere else, and keeps counts consistent |
| `CallTree.TreeRefinesStacks` | utils/profile-model.py:1279-1336 | for every question about where stacks end, the tree's leaf weights equal the weight of the raw stacks |
| `CallTree.CountLeaves` | utils/profile-model.py:1416-1434 | the scan with the explicit stack tallies the frames it closes |
| `CallTree.ScanForest` | utils/profile-model.py:1426-1433 | scanning the listing of a forest closes exactly its frames, each with the sum of its children |
| `CallTree.ExtractInsideMarkerCount` | utils/profile-model.py:1380-1403 | the scan counts what is entered at topmost marker frames |
| `CallTree.BinaryCountsRefineStacks` | utils/profile-model.py:1406-1434 | each binary gets exactly the weight of the raw stacks whose leaf lies in it |
| `CallTree.BinaryCountsSum` | utils/profile-model.py:1406-1434 | the counts of all binaries sum to the weight of all non-empty stacks |
| `CallTree.MarkerCountRefinesStacks` | utils/profile-model.py:1380-1403 | the marker total is the weight of the raw stacks that contain the marker, once each even under recursion |
| `CallTree.MarkerLeavesRefineStacks` | utils/profile-model.py:1437-1466 | each symbol gets the weight of the raw stacks through the marker that end at it |
| `CallTree.MarkerLeavesSum` | utils/profile-model.py:1437-1466 | the leaf counts inside the marker sum to the marker total |
| `OffsetCounts.ExtractOffsetCounts` | utils/profile-model.py:1546-1612 | the scan yields a leaf for each program counter of each model frame inside the marker, with its share of the count and its ancestors innermost first, and the histogram of their weights |
| `OffsetPlaces.PositionsAreOpen` | utils/profile-model.py:1581-1583 | the lines open at any point are those behind which every line is deeper |
| `OffsetPlaces.InsideIsInMarker` | utils/profile-model.py:1584-1586 | a line is taken to be inside the marker exactly if it, or a line that encloses it, is the marker |
| `OffsetPlaces.LeavesAre` | utils/profile-model.py:1581-1611 | for all lines: one leaf for each program counter of each line of the model inside the marker, in order, with offset pc - base, an equal part of the count and the remainder at the first, and as ancestors the program counters less base of the model's frames that enclose the line, innermost first |
| `OffsetPlaces.CountsAre` | utils/profile-model.py:1581-1612 | for all lines: an offset has a count exactly if a line of the model inside the marker has the program counter offset + base, and the count is the sum of the parts such program counters get |
| `OffsetCounts.LineTotal` | utils/profile-model.py:1593-1611 | however many program counters a frame has, its count is handed out once |
| `OffsetCounts.ScanInside` | utils/profile-model.py:1584-1611 | scanning the lines of a forest hands out exactly the counts of its model frames inside the marker |
| `OffsetCounts.OffsetCountsAddUp` | utils/profile-model.py:1546-1612 | for all stacks the counts add up to the weight of each stack times the number of its model frames at or below the topmost marker |
| `OffsetCounts.CountsAreSamplesIff` | utils/profile-model.py:1546-1612 | if each stack through the marker has such a frame, the counts equal the sample weight exactly if each has one |
| `SampleDump.WriteWord` | utils/profile-model.py:272-283 | the eight shifted bytes are the little-endian bytes of the word |
| `SampleDump.BytesDenote` | utils/profile-model.py:272-283 | words and eight-byte strings correspond one to one |
| `SampleDump.CollectStrings` | utils/profile-model.py:308-317 | the map holds the string of exactly every non-zero address that a sample names |
| `SampleDump.WriteEntry` | utils/profile-model.py:342-353 | an entry is address, length, text and padding |
| `SampleDump.EnumerationExists` | utils/profile-model.py:342-345 | every map of collected strings can be walked through |
| `SampleDump.Finalize` | utils/profile-model.py:300-354 | the file is header, samples up to the buffer's size, and string table in the map's order |
| `SampleDump.ParseInprocDump` | utils/profile-model.py:778-859 | refuses a dump with exactly the error its bytes have; otherwise returns every sample resolved, with the histogram of offsets |
| `SampleDump.ParseTable` | utils/profile-model.py:827-843 | the loop with a moving position reads the table or reports where it is truncated |
| `SampleDump.ResolveSamples` | utils/profile-model.py:845-858 | each sample in order with its offset and names, and a histogram equal to the multiplicities of the offsets |
| `SampleDump.HistogramIsUnique` | utils/profile-model.py:845-858 | samples have only one histogram |
| `SampleDump.RoundTrip` | utils/profile-model.py:778-859 | for any samples, strings and order of the string map, a written dump is accepted and describes exactly what was recorded |
| `SampleDump.MagicSpells` | utils/profile-model.py:331-331 | a dump begins with the characters PMSAMP02 |
| `SampleDump.DumpLayout` | utils/profile-model.py:322-341 | the places of load address, numbers of samples and strings, and of program counter, operator, node and tag of every sample |
| `SampleDump.RecordedAre` | utils/profile-model.py:192-192 | 25 million samples are kept, and what comes behind them is dropped |
| `SampleDump.WriteThenParse` | utils/profile-model.py:778-859 | parsing what the sampler wrote returns each sample with offset pc - base and the names its addresses denoted, none for 0 |
| `SampleDump.FaithfulIsUnique` | utils/profile-model.py:778-859 | what was recorded determines everything that parsing returns |
| `SampleDump.EntryIsAligned` | utils/profile-model.py:346-353 | every string entry starts on an 8-byte boundary |
| `SampleDump.EntryIsPadded` | utils/profile-model.py:346-354 | behind its text an entry has at most seven bytes, all zero, up to the next 8-byte boundary |
| `SampleDump.TableHolds` | utils/profile-model.py:342-353 | at that position its address, length and text are read back, whatever surrounds the table |
| `SampleDump.DumpIsAligned` | utils/profile-model.py:322-353 | the file's size is a multiple of 8 |
| `SampleDump.CutDump` | utils/profile-model.py:810-843 | an accepted dump that is cut short is refused if the cut lies before the end of its last text, and otherwise yields the same strings |
| `OpSpans.SortSorts` | utils/profile-model.py:2139-2139 | sorting by a key yields the same elements in key order |
| `OpSpans.ExtractOpSpans` | utils/profile-model.py:2123-2174 | the loop pairs neighbouring markers of one name, and two per span plus the unpaired ones make all markers |
| `OpSpans.SpanComesFromPair` | utils/profile-model.py:2143-2170 | every span lies between two neighbouring markers of one name |
| `OpSpans.NamesOfPayload` | utils/profile-model.py:2150-2157 | operator and node name are the payload cut at its first colon |
| `OpSpans.PairsAreRecovered` | utils/profile-model.py:2130-2134 | operators that follow each other are recovered span by span with nothing unpaired |
| `OpSpans.MarkedSpan` | utils/profile-model.py:2143-2170 | for every operator without a colon and every node, two markers named `__omip:operator:node` give the span with exactly these names, from the first one's low address, its high address as body, to the second one's low address |
| `OpSpans.RunsAreRecovered` | utils/profile-model.py:2123-2174 | of whole code with such markers, every operator's span is recovered with its names and addresses, and nothing is unpaired |
| `OpSpans.ExtractedSpansFollow` | utils/profile-model.py:2139-2174 | for all markers, overlapping or not, every extracted span ends before the bodies of those behind it |
| `OpSpans.DisjointMarkersGiveTidySpans` | utils/profile-model.py:2139-2174 | markers that do not overlap, in any order, touching or empty, give spans one behind the other |
| `OpSpans.BisectRight` | utils/profile-model.py:2287-2289 | binary search finds the number of bodies that start at or before the address |
| `OpSpans.LookupOp` | utils/profile-model.py:2287-2292 | the search returns the operator of the last started span if the address is before its end |
| `OpSpans.LookupIsSound` | utils/profile-model.py:2279-2292 | for all spans, a span that is found covers the address |
| `OpSpans.LookupIsComplete` | utils/profile-model.py:2279-2292 | among spans one behind the other, touching or empty ones included, a covering span is found |
| `OpSpans.LookupFindsIff` | utils/profile-model.py:2279-2292 | for every list of spans: the search finds a span wherever a scan does exactly if, in body order, no earlier span goes on where a later one is over and the next has not begun |
| `OpSpans.ExtractedLookupIff` | utils/profile-model.py:2123-2292 | for all extracted spans that is also when the search agrees with a scan at every address |
| `OpSpans.ExtractedLookupIsScan` | utils/profile-model.py:2123-2292 | spans extracted from markers that do not overlap can always be searched |
| `OpSpans.OverlapHides` | utils/profile-model.py:2123-2292 | from four overlapping markers of two operators come spans in which the search misses an address that a scan finds |
| `OpSpans.TallyIsExact` | utils/profile-model.py:2319-2328 | crediting samples one by one gives each operator, and each of its offsets, exactly the weight credited to it |
| `OpSpans.AttributeMarked` | utils/profile-model.py:2259-2277 | mode 1 credits the marked operator unless the tag has the after bit, as `MarkedMeans` says of the samples |
| `OpSpans.MarkedMeans` | utils/profile-model.py:2259-2277 | an operator's total is the number of samples marked with it whose tag has the bit of value 2 clear, at each offset too; all other samples are unattributed, and there are no other totals |
| `OpSpans.WalkAncestors` | utils/profile-model.py:2304-2309 | the leaf, then the first ancestor that lies in a span |
| `OpSpans.AttributeLeaves` | utils/profile-model.py:2294-2317 | mode 2 credits the operator of the innermost frame in a span |
| `OpSpans.LeavesMean` | utils/profile-model.py:2294-2317 | an operator's total is the weight of the leaves for which the first of leaf and ancestors that lies in a span lies in one of that operator; leaves for which none does are unattributed |
| `OpSpans.AttributeSpatially` | utils/profile-model.py:2319-2329 | mode 3 credits the operator of the offset itself |
| `OpSpans.OffsetsMean` | utils/profile-model.py:2319-2329 | an operator's total is the sum of the counts at offsets in its spans; the other counts are unattributed |
| `OpSpans.AttributeOffsetsToOps` | utils/profile-model.py:2216-2329 | ordered samples are credited if there are any, else leaves, else offsets, and the totals are those of that mode, also without any spans |
| `OpSpans.AttributionConserves` | utils/profile-model.py:2216-2329 | in every mode the operators' totals sum to the attributed weight, and attributed plus unattributed is the total weight |
| `OpSpans.FilterOffsets` | utils/profile-model.py:2177-2213 | keeps exactly the offsets that lie in a selected span, with their counts, and returns the selected spans in body order and their names |
| `OpSpans.SelectionsAreDisjoint` | utils/profile-model.py:2177-2213 | for spans that follow each other, as all extracted ones do, what `--op` and `--not-op` keep has no offset in common |
| `OpSpans.SelectCommutes` | utils/profile-model.py:2192-2201 | selecting spans and ordering them by body can be done in either order |
| `OpSpans.SelectionsFindIff` | utils/profile-model.py:2177-2213 | for every list of spans: the two selections together find a span exactly where all spans do, if and only if every hidden span is hidden among its own kind too |
| `OpSpans.SelectionSplits` | utils/profile-model.py:2177-2213 | then, for spans that follow each other, the two kept histograms are together the samples in spans, and their weights add up |
| `OpSpans.SelectionsCanDiffer` | utils/profile-model.py:2177-2213 | otherwise there is an address at which a selection keeps a sample that lies in no span of all |
| `OpSpans.TidySelectionsAddUp` | utils/profile-model.py:2177-2213 | spans one behind the other always meet the condition |
| `LineColouring.Colouring.ProcessDefUseChains` | utils/mlir2FileCheck.py:63-93 | one line updates definition set, colours and current colour as specified |
| `LineColouring.ColourLines` | utils/mlir2FileCheck.py:63-93 | processing all lines gives the specified colours |
| `LineColouring.ColoursAreContiguous` | utils/mlir2FileCheck.py:63-93 | lines between two lines of one colour have that colour |
| `LineColouring.SameColourIsIndependent` | utils/mlir2FileCheck.py:63-93 | of two lines of one colour both define something, and the later neither uses nor redefines the earlier |
| `LineColouring.NoDefIsAlone` | utils/mlir2FileCheck.py:67-74 | a line without a definition shares its colour with no other |
| `LineColouring.ColourIsMaximal` | utils/mlir2FileCheck.py:75-93 | neighbours share a colour exactly if both define something and no definition of that colour is used by the second |
| `LineColouring.RearrangingKeepsReadsIff` | utils/mlir2FileCheck.py:63-93 | for every text: all rearrangements within colours leave every read with the same last definition exactly if no line defines an operand of an earlier line of its colour |
| `LineColouring.TidyBlocksKeepReads` | utils/mlir2FileCheck.py:63-93 | so it is for text in which, between two lines without a definition, no line defines an operand of an earlier one |
| `LineColouring.RedefinitionSharesColour` | utils/mlir2FileCheck.py:80-93 | concrete text in which a line shares its colour with a redefinition of its operand |
| `FlagTokenizer.ParseFlags` | src/Compiler/CommandUtils.cpp:26-80 | the loop with its three flags computes the specified tokens |
| `FlagTokenizer.NoEmptyToken` | src/Compiler/CommandUtils.cpp:60-76 | no text yields an empty token |
| `FlagTokenizer.EverySpellingParses` | src/Compiler/CommandUtils.cpp:26-80 | however tokens are quoted, escaped and spaced, parsing gives back exactly the tokens |
| `FlagTokenizer.WhiteSpaceSeparates` | src/Compiler/CommandUtils.cpp:60-67 | between two letters, exactly six characters separate: space, tab, newline, vertical tab, form feed and carriage return |
| `FlagTokenizer.BareIff` | src/Compiler/CommandUtils.cpp:38-75 | within a token a bare character stands for itself exactly if it is no backslash, quote or white space |
| `FlagTokenizer.QuotedIsOneToken` | src/Compiler/CommandUtils.cpp:47-75 | any text without backslash and the quote itself is one token between quotes, and none if it is empty |
| `FlagTokenizer.EscapeRoundTrip` | src/Compiler/CommandUtils.cpp:26-80 | escaping backslashes, quotes and white space and joining with spaces is undone by parsing, for all non-empty tokens |
| `FlagTokenizer.ReparseIsSame` | src/Compiler/CommandUtils.cpp:26-80 | the tokens of any text, escaped and joined, parse to themselves |
| `FlagTokenizer.TrailingSpace` | src/Compiler/CommandUtils.cpp:60-67 | white space at the end of a text outside quotes changes nothing |
| `SeparatorRepair.FixSeparatorSpacing` | utils/repairLitTestSeparators.py:25-92 | the loops produce the specified repair |
| `SeparatorRepair.PopBlanks` | utils/repairLitTestSeparators.py:36-44 | popping leaves at most one blank line at the end |
| `SeparatorRepair.LookAhead` | utils/repairLitTestSeparators.py:61-83 | the bounded loop with its three flags decides whether a separator is missing |
| `SeparatorRepair.AheadIff` | utils/repairLitTestSeparators.py:61-88 | a separator is added exactly if a function follows within nine lines behind blank lines and comments only |
| `SeparatorRepair.SeparatorIsPutIff` | utils/repairLitTestSeparators.py:61-88 | for a function behind a closing brace and any number of blank lines and comments, the separator is put exactly if there are at most eight of them |
| `SeparatorRepair.RepairedIsRight` | utils/repairLitTestSeparators.py:25-92 | after the repair every separator has one blank line before it and one behind it, except at the ends, and no function within the window of a closing brace lacks one |
| `SeparatorRepair.RepairIsIdempotent` | utils/repairLitTestSeparators.py:25-92 | repairing twice is repairing once, for every text |
| `SeparatorRepair.RepairAddsOnlySeparators` | utils/repairLitTestSeparators.py:25-92 | apart from blank lines, all lines stay in order and only the missing separators are added |
| `SeparatorRepair.RepairKeepsContent` | utils/repairLitTestSeparators.py:25-92 | apart from blank lines and separators the text is unchanged |
| `SeparatorRepair.DistantFunctionIsMissed` | utils/repairLitTestSeparators.py:68-68 | behind nine comments a following function goes unnoticed |
| `CounterReport.ParseRun` | utils/parse-cntr-report.py:91-154 | the loop over queues, maps and order lists computes the specified state |
| `CounterReport.PairingConserves` | utils/parse-cntr-report.py:127-141 | for every trace a cell is the sum of its matched afters minus the sum of equally many oldest befores, and the other befores are still queued |
| `CounterReport.RowsAreComplete` | utils/parse-cntr-report.py:113-119 | each row is listed once, and every filled cell has a row |
| `CounterReport.ColumnIsGains` | utils/parse-cntr-report.py:242-248 | a column sums to the differences of all matched pairs of its counter |
| `CounterReport.TotalIsColumnPlusGaps` | utils/parse-cntr-report.py:149-153 | for invocations one after the other, the total is the column sum plus what the counter moved in between |
| `CounterReport.SequentialIff` | utils/parse-cntr-report.py:120-141 | invocations follow one after the other exactly if befores stand at the even places, each with its own node's after behind it |
| `CounterReport.TilesIff` | utils/parse-cntr-report.py:120-153 | invocations tile a run exactly if each before but the first equals the after in front of it |
| `CounterReport.ColumnTelescopes` | utils/parse-cntr-report.py:149-248 | when the invocations tile the run, the column sum is the reported total |
| `CounterReport.AverageAddsUp` | utils/parse-cntr-report.py:157-198 | if in each run the column adds up to the total, it does in the averaged table |
| `CounterReport.AverageOfTotals` | utils/parse-cntr-report.py:190-197 | the averaged total is the sum of the totals of the runs that have one, divided by their number |
| `CounterReport.MissingTotalIsLeftOut` | utils/parse-cntr-report.py:164-166 | a further run without the total leaves it as it is |
| `CounterReport.MissingCellIsZero` | utils/parse-cntr-report.py:162-163 | a further run without a cell counts as zero for it |
| `CounterReport.NoTotalNoCells` | utils/parse-cntr-report.py:120-153 | a run without a counter's total has no cell of that counter |
| `CounterReport.AverageAddsUpIff` | utils/parse-cntr-report.py:157-198 | if the runs that have the total add up, column times runs is total times runs with total; so the averaged column is the averaged total exactly if every run has it or it is zero |
| `CounterReport.TiledRunAddsUp` | utils/parse-cntr-report.py:91-248 | runs whose invocations tile them are such runs |

## Left out

- Types, shape inference, `onnx_type_map`, dimension parameters, locations and the names attached to functions: they come from library calls and do not change which value a name denotes.
- The special import handlers of single operators (Dropout, Pad, Slice, Cast, MaxPool and others) and `buildTypeFromIndex`: case tables that would only add easy members. An operator without function decomposition is imported by the general path.
- Context-dependent function bodies: their builder is a library call; a schema function is given with its body.
- Attributes that hold lists of graphs (lines 133-135 of the transformer): attributes with one graph are modelled, and lists would only repeat them.
- Results that an operator has beyond the outputs a node names: they are never bound to a name.
- Operator names with a version suffix are pairs of operator and version, and scope identifiers are records, not concatenated strings.
- Cyclic calls: the source does not terminate on them. `ImportModel` and `SortAndImport` require a rank that goes down along calls, with the graphs passed to a function counted as read in its body; a call that ends for another reason, such as a passed graph that calls the same function with a smaller graph, has no rank and is covered by `ImportPreservesMeaning` under a bound on nesting alone.
- The number of questions an operator may ask its nested graphs is bounded by a number that every theorem quantifies over.
- FrontendImporter.Importer.ImportGraph: it is given, as ghosts that only measure termination, a bound on call nesting and the result that the specified import has under it; `GraphSucceeds` and `AcyclicIsFormed` supply them for sound graphs. The assertions, null pointers and endless recursion of the source on other graphs are not modelled.
- FrontendImporter.Importer.ImportNode: as for `ImportGraph`.
- FrontendImporter.Importer.ImportFunctionCallNode: as for `ImportGraph`.
- AttributeReferences.ReplaceAttrRefs: the values that are put in hold no references themselves. The importer only passes values of code whose references are replaced already, and defaults; on a default whose nested graph refers to itself the recursion of the source would not end.
- AttributeReferences.ReplaceAttrRefsInNodes: as for `ReplaceAttrRefs`.
- BodyRenaming.RenamingIsInvisible: passed graphs are left out, since their captured names are not the function's own; `CallNamesIff` is about them. Renaming inside a function that passes graphs on is not modelled.
- External tensor data, parsing and checking of protobuf files and version conversion: library code and I/O.
- CallTree.StacksToFrames: the tree is a value that is rebuilt, so updates of shared nodes in place are not captured; the program counters of frames are left out here and given to `ExtractOffsetCounts` with the lines.
- The cut to the first N symbols: a sort of a finished table.
- Recognition of text (regular expressions over perf, DWARF, MLIR and report lines): the models start from the records it yields. Decoding UTF-8 is a parameter of the dump parser.
- Hash maps whose iteration order matters are given together with the order in which they yield their entries; the theorems hold for every order.
- SampleDump.Finalize: I/O errors and the timer are left out.
- CounterReport.AverageAddsUp: `combine_runs` is modelled on values, so its dictionary updates in place are not captured; numbers are reals, without floating-point rounding.
- SeparatorRepair.FixSeparatorSpacing: lines are classified by their stripped text before the loop starts, and splitting and joining at newlines is left out.
- Signal handling, process handling, report printing, renaming of values for FileCheck, and all other scripts: plumbing and formatting.
