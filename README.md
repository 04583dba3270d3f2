# Mantid: small sequential cores, modelled and proved in Dafny

This project models six small, self-contained pieces of the Mantid neutron
data-reduction framework and proves what they promise:

- **The managed-algorithm registry** (`algorithm_manager.dfy`). The
  `AlgorithmManager` keeps a bounded FIFO of the algorithms it created. The
  retention limit comes from "algorithms.retained" and defaults to 100.
  Eviction pops the oldest entries and stops at the first one that is still
  running. Lookup by id is a linear search. The algorithm factory, the
  `initialize` outcome and `isRunning` are parameters.
- **Crystallographic point groups** (`point_group.dfy`, `laue_classes.dfy`).
  A `PointGroup` holds its Hermann-Mauguin symbol, its symmetry operations and
  the transformation matrices those operations generate. The equivalent set of
  an hkl is the hkl plus its images under every matrix. The reflection family
  is the greatest member of that set. The thirteen Laue classes each carry a
  closed-form `isEquivalent` table. The model proves that every table agrees
  with the orbit produced by the class's generators. Hkls are integer triples
  and matrices are 3×3 integer matrices.
- **Round-robin spectrum partitioning** (`round_robin_partitioning.dfy`). A
  partition count of at least one, and `indexOf` as C++'s truncating `%`.
- **Texture-size rounding** (`bank_rendering_helpers.dfy`). Rounding up to a
  power of two, at least 2, by a doubling loop, applied to both bank axes.
- **Multi-domain fit helpers of IqtFitMultiple** (`iqt_fit_multiple.dfy`):
  - the multi-domain function string, its keyword arguments and its beta ties;
  - input validation with keyed messages;
  - output-name derivation and the fit option;
  - the column and parameter-count logic of the transposed parameter table.
- **Tomography view helpers** (`tomography_view.dfy`):
  - Windows-to-UNIX path conversion on a browse click;
  - unique hidden table names from a global counter;
  - the length guards of the selector fillers;
  - the SCARF credential getters;
  - the image-size parsing and clamp.

`text.dfy` holds the string helpers these need:
- decimal formatting;
- Python's `str.split`/`str.join`;
- ASCII upper-casing;
- substring search;
- character replacement.

`wrappers.dfy` holds `Option` and `Result`.

## Model

| member | source | states |
|---|---|---|
| AlgorithmManagement.RetainedLimit | Code/Mantid/Framework/API/src/AlgorithmManager.cpp:16-19 | the limit is the configured value when it is present and at least 1, otherwise 100; it is always at least 1 |
| AlgorithmManagement.AlgorithmManager.constructor | Code/Mantid/Framework/API/src/AlgorithmManager.cpp:14-19 | a new manager has no managed algorithms and its limit is `RetainedLimit` of the configuration |
| AlgorithmManagement.EvictedCharacterisation | Code/Mantid/Framework/API/src/AlgorithmManager.cpp:92-110 | eviction removes only a prefix of idle algorithms; the survivors are a suffix in their original order; afterwards the list is within the limit or its front is running; when anything was removed, at least `limit` entries remain |
| AlgorithmManagement.EvictedKeepsNewest | Code/Mantid/Framework/API/src/AlgorithmManager.cpp:88-110 | with a limit of at least 1, the newest algorithm survives eviction and is still last |
| AlgorithmManagement.EvictedWithinLimit | Code/Mantid/Framework/API/src/AlgorithmManager.cpp:92 | a list already within the limit loses nothing |
| AlgorithmManagement.CreateErrorMessage | Code/Mantid/Framework/API/src/AlgorithmManager.cpp:112-116 | the text of the rethrown runtime error starts with "AlgorithmManager:: Unable to create algorithm ", followed by the name, a space and the cause |
| AlgorithmManagement.Propagated | Code/Mantid/Framework/API/src/AlgorithmManager.cpp:79-116 | a `std::runtime_error` thrown in the try block leaves `create` as a runtime error with the prefixed message; any other exception leaves it unchanged |
| AlgorithmManagement.AlgorithmManager.Create | Code/Mantid/Framework/API/src/AlgorithmManager.cpp:76-118 | a factory exception leaves the list unchanged and propagates as `Propagated` says (prefixed only when it is a runtime error); an `initialize` exception propagates the same way, with the new algorithm appended and nothing evicted; success returns the algorithm, appends it, evicts as `Evicted` says, and leaves it last |
| AlgorithmManagement.AlgorithmManager.Clear | Code/Mantid/Framework/API/src/AlgorithmManager.cpp:123-127 | the managed list is empty afterwards |
| AlgorithmManagement.Lookup | Code/Mantid/Framework/API/src/AlgorithmManager.cpp:134-141 | the result is None exactly when no managed algorithm has the id; otherwise it is the first one that has it |
| AlgorithmManagement.AlgorithmManager.GetAlgorithm | Code/Mantid/Framework/API/src/AlgorithmManager.cpp:134-141 | the loop returns `Lookup` of the managed list |
| AlgorithmManagement.AlgorithmManager.GetNamesAndCategories | Code/Mantid/Framework/API/src/AlgorithmManager.cpp:49-61 | one (name, category) pair per managed algorithm, in list order |
| AlgorithmManagement.AlgorithmManager.NotifyAlgorithmStarting | Code/Mantid/Framework/API/src/AlgorithmManager.cpp:149-154 | nothing is posted for an unmanaged id; otherwise exactly the looked-up algorithm is posted |
| PointGroups.LessIsStrictTotalOrder | Code/Mantid/Framework/Geometry/src/Crystal/PointGroup.cpp:36 | the hkl order used for sets is irreflexive, transitive, total and asymmetric |
| PointGroups.Greatest | Code/Mantid/Framework/Geometry/src/Crystal/PointGroup.cpp:54 | every non-empty set of hkls has a greatest element, and this is it |
| PointGroups.PointGroup.constructor | Code/Mantid/Framework/Geometry/src/Crystal/PointGroup.cpp:58-63 | the group keeps the symbol it is given and starts with no operations and no matrices |
| PointGroups.PointGroup.AddSymmetryOperation | Code/Mantid/Framework/Geometry/src/Crystal/PointGroup.cpp:99-102 | the operation is appended and nothing else changes |
| PointGroups.PointGroup.SetTransformationMatrices | Code/Mantid/Framework/Geometry/src/Crystal/PointGroup.cpp:156-159 | the stored matrices are replaced and nothing else changes |
| PointGroups.SuccessiveImages | Code/Mantid/Framework/Geometry/src/Crystal/PointGroup.cpp:144-148 | the inner loop yields the op, op², …, op^(order-1) images of a matrix |
| PointGroups.AppendExpansion | Code/Mantid/Framework/Geometry/src/Crystal/PointGroup.cpp:139-149 | one generator pass keeps the current matrices as a prefix and appends the images of each one in turn |
| PointGroups.GenerateTransformationMatrices | Code/Mantid/Framework/Geometry/src/Crystal/PointGroup.cpp:131-153 | the result equals `Generated(ops)`, starts with the identity and has the product of the orders as its length |
| PointGroups.GeneratedSize | Code/Mantid/Framework/Geometry/src/Crystal/PointGroup.cpp:136-150 | the number of generated matrices is the product of the operation orders |
| PointGroups.GeneratedPrefix | Code/Mantid/Framework/Geometry/src/Crystal/PointGroup.cpp:139-149 | the matrices generated by a prefix of the operations are a prefix of the full list |
| PointGroups.GeneratedStartsWithIdentity | Code/Mantid/Framework/Geometry/src/Crystal/PointGroup.cpp:133-134 | the first generated matrix is the identity, so no operations give exactly [identity] |
| PointGroups.GeneratedWithin | Code/Mantid/Framework/Geometry/src/Crystal/PointGroup.cpp:131-153 | a set that holds the identity and is closed under every operation holds every generated matrix |
| PointGroups.PointGroup.Init | Code/Mantid/Framework/Geometry/src/Crystal/PointGroup.cpp:185-190 | `init` appends the class's operations and stores the matrices they generate, as many as the product of their orders |
| PointGroups.EquivalentSetIsImages | Code/Mantid/Framework/Geometry/src/Crystal/PointGroup.cpp:85-96 | an hkl is in the equivalent set exactly when it is the hkl itself or its image under one of the matrices |
| PointGroups.PointGroup.GetEquivalentSet | Code/Mantid/Framework/Geometry/src/Crystal/PointGroup.cpp:85-96 | the loop builds `EquivalentSet` of the stored matrices, which contains the hkl |
| PointGroups.PointGroup.GetReflectionFamily | Code/Mantid/Framework/Geometry/src/Crystal/PointGroup.cpp:52-55 | the family is the greatest member of the equivalent set, so it belongs to the set and bounds every member |
| PointGroups.PointGroup.GetEquivalents | Code/Mantid/Framework/Geometry/src/Crystal/PointGroup.cpp:32-37 | exactly the members of the equivalent set, each once, strictly descending from the greatest |
| PointGroups.EquivalentSetOfEquivalent | Code/Mantid/Framework/Geometry/src/Crystal/PointGroup.cpp:85-96 | when the matrices form a group, equivalent hkls have the same equivalent set |
| PointGroups.SameFamily | Code/Mantid/Framework/Geometry/src/Crystal/PointGroup.cpp:52-55 | when the matrices form a group, equivalent hkls have the same reflection family |
| LaueClasses.SymbolsDistinct | Code/Mantid/Framework/Geometry/src/Crystal/PointGroup.cpp:162-575 | the thirteen classes pass thirteen different symbols to the constructor |
| LaueClasses.IsEquivalentReflexive | Code/Mantid/Framework/Geometry/src/Crystal/PointGroup.cpp:171-604 | every Laue table accepts (hkl, hkl) |
| LaueClasses.IsEquivalentCentrosymmetric | Code/Mantid/Framework/Geometry/src/Crystal/PointGroup.cpp:171-604 | every Laue table accepts (hkl, -hkl) |
| LaueClasses.Laue1Equivalents | Code/Mantid/Framework/Geometry/src/Crystal/PointGroup.cpp:171-178 | for "-1", hkl2 is equivalent to hkl exactly when it is hkl or -hkl |
| LaueClasses.Laue8AndLaue9Coincide | Code/Mantid/Framework/Geometry/src/Crystal/PointGroup.cpp:399-444 | the "-3m1" and "-31m" tables accept exactly the same pairs |
| LaueClasses.Laue12WithinLaue13 | Code/Mantid/Framework/Geometry/src/Crystal/PointGroup.cpp:542-604 | every pair "m-3" accepts is accepted by "m-3m" |
| LaueClasses.IsEquivalentSymmetric | Code/Mantid/Framework/Geometry/src/Crystal/PointGroup.cpp:171-604 | every Laue table is symmetric |
| LaueClasses.IsEquivalentTransitive | Code/Mantid/Framework/Geometry/src/Crystal/PointGroup.cpp:171-604 | every Laue table is transitive, so each is an equivalence relation |
| LaueClasses.GeneratedRealised | Code/Mantid/Framework/Geometry/src/Crystal/PointGroup.cpp:131-153 | when the operations act as the named generators, the images of an hkl under the generated matrices are the generator orbit |
| LaueClasses.OrbitIsTable | Code/Mantid/Framework/Geometry/src/Crystal/PointGroup.cpp:162-619 | for each class, the orbit of hkl under the class's `init` generators is exactly what its `isEquivalent` table accepts |
| LaueClasses.GeneratedAgreesWithIsEquivalent | Code/Mantid/Framework/Geometry/src/Crystal/PointGroup.cpp:162-619 | for each class, `getEquivalentSet` over the matrices `init` generates contains hkl2 exactly when `isEquivalent(hkl, hkl2)` holds |
| LaueClasses.NewLaueGroup | Code/Mantid/Framework/Geometry/src/Crystal/PointGroup.cpp:58-69 | a constructed Laue group reports its class's symbol from `getSymbol` (for example "m-3m" for the cubic class), holds the class's operations, and its equivalent sets agree with the class's table |
| RoundRobin.Create | Framework/Indexing/inc/MantidIndexing/RoundRobinPartitioning.h:40-45 | construction succeeds exactly when the count is at least 1; otherwise it fails with the logic-error message |
| RoundRobin.NumberOfPartitionsIsConstructorArgument | Framework/Indexing/inc/MantidIndexing/RoundRobinPartitioning.h:47 | `numberOfPartitions` returns the constructor argument |
| RoundRobin.CppRem | Framework/Indexing/inc/MantidIndexing/RoundRobinPartitioning.h:50 | C++ `%`: the remainder is smaller than the divisor in magnitude and has the dividend's sign |
| RoundRobin.CppDivisionIdentity | Framework/Indexing/inc/MantidIndexing/RoundRobinPartitioning.h:50 | truncating quotient times divisor plus remainder gives back the dividend |
| RoundRobin.CppRemUnique | Framework/Indexing/inc/MantidIndexing/RoundRobinPartitioning.h:50 | any decomposition with a remainder of the dividend's sign and smaller magnitude has `CppRem` as its remainder |
| RoundRobin.IndexOf | Framework/Indexing/inc/MantidIndexing/RoundRobinPartitioning.h:48-51 | a non-negative spectrum number maps into [0, n); a negative one into (-n, 0] |
| RoundRobin.IndexOfPeriodic | Framework/Indexing/inc/MantidIndexing/RoundRobinPartitioning.h:50 | s and s + n map to the same partition for s ≥ 0 |
| RoundRobin.IndexOfCycles | Framework/Indexing/inc/MantidIndexing/RoundRobinPartitioning.h:50 | consecutive non-negative spectrum numbers cycle 0, 1, …, n-1, 0, … |
| RoundRobin.SinglePartition | Framework/Indexing/inc/MantidIndexing/RoundRobinPartitioning.h:50 | with one partition every spectrum number maps to 0 |
| RoundRobin.IndexOfNegated | Framework/Indexing/inc/MantidIndexing/RoundRobinPartitioning.h:50 | negating the spectrum number negates the index, as truncation toward zero implies |
| BankRendering.RoundToNearestPowerOfTwo | qt/widgets/instrumentview/src/BankRenderingHelpers.cpp:14-19 | the result is a power of two that is at least 2 and at least val, and it is minimal (it is 2 or half of it is below val); val ≤ 2 gives 2; a power of two ≥ 2 is returned unchanged |
| BankRendering.PowerOfTwoGap | qt/widgets/instrumentview/src/BankRenderingHelpers.cpp:14-19 | of two different powers of two, the larger is at least twice the smaller |
| BankRendering.RoundedSizeUnique | qt/widgets/instrumentview/src/BankRenderingHelpers.cpp:14-19 | at most one size meets the rounding specification, so it determines the result |
| BankRendering.FractionAtMostOne | qt/widgets/instrumentview/src/BankRenderingHelpers.cpp:93-94 | a pixel count within the texture size gives a texture fraction in [0, 1] |
| BankRendering.GetCorrectedTextureSize | qt/widgets/instrumentview/src/BankRenderingHelpers.cpp:66-69 | each axis is rounded independently, and both texture fractions lie in [0, 1] |
| IqtFitMultiple.CreateMultiDomainFunc | Framework/PythonInterface/plugins/algorithms/WorkflowAlgorithms/IqtFitMultiple.py:215-236 | the function string is the multi-domain header, one composite member per spectrum and the comma-joined ties; kwargs satisfy `KwargsFor` |
| IqtFitMultiple.Ties | Framework/PythonInterface/plugins/algorithms/WorkflowAlgorithms/IqtFitMultiple.py:226-233 | n spectra give n-1 ties; the k-th ties spectrum k+1's beta to spectrum 0's, in ascending order |
| IqtFitMultiple.RepeatBlocks | Framework/PythonInterface/plugins/algorithms/WorkflowAlgorithms/IqtFitMultiple.py:222-223 | block k of the repeated members is exactly the composite member |
| IqtFitMultiple.KeysDistinct | Framework/PythonInterface/plugins/algorithms/WorkflowAlgorithms/IqtFitMultiple.py:224-227 | different spectra and the two key kinds never share a key, so no entry is overwritten |
| IqtFitMultiple.FirstSpectrumHasNoInputWorkspace | Framework/PythonInterface/plugins/algorithms/WorkflowAlgorithms/IqtFitMultiple.py:226-227 | the first spectrum gets no "InputWorkspace_0" entry |
| IqtFitMultiple.KwargsGrow | Framework/PythonInterface/plugins/algorithms/WorkflowAlgorithms/IqtFitMultiple.py:222-227 | one loop iteration turns the kwargs of i spectra into the kwargs of i+1 spectra |
| IqtFitMultiple.TiesRecoverable | Framework/PythonInterface/plugins/algorithms/WorkflowAlgorithms/IqtFitMultiple.py:233-234 | with at most one spectrum the ties text is empty; otherwise splitting it on ',' gives back the ties |
| IqtFitMultiple.SpectrumIssues | Framework/PythonInterface/plugins/algorithms/WorkflowAlgorithms/IqtFitMultiple.py:88-94 | SpecMax is flagged exactly when it exceeds the histogram count or is below SpecMin, and the "below SpecMin" message wins; SpecMin is flagged exactly when negative |
| IqtFitMultiple.XRangeIssues | Framework/PythonInterface/plugins/algorithms/WorkflowAlgorithms/IqtFitMultiple.py:97-102 | EndX is flagged exactly when it is above the last x or below StartX, and the "more than StartX" message wins; StartX is flagged exactly when negative |
| IqtFitMultiple.ValidateInputs | Framework/PythonInterface/plugins/algorithms/WorkflowAlgorithms/IqtFitMultiple.py:80-104 | the keyed messages above, and the dictionary is empty exactly when 0 ≤ SpecMin ≤ SpecMax ≤ histograms and 0 ≤ StartX ≤ EndX ≤ last x |
| IqtFitMultiple.OutputNameStripsSuffix | Framework/PythonInterface/plugins/algorithms/WorkflowAlgorithms/IqtFitMultiple.py:125-129 | a last '_' token without "WORKSPACE" keeps the name; one with it is dropped, so the group name is the result plus "_" plus that token; a name with no '_' that contains it becomes "" |
| IqtFitMultiple.FitOption | Framework/PythonInterface/plugins/algorithms/WorkflowAlgorithms/IqtFitMultiple.py:131 | the option is the fit type without its last two characters ("" for shorter types) |
| IqtFitMultiple.WithoutCostFunction | Framework/PythonInterface/plugins/algorithms/WorkflowAlgorithms/IqtFitMultiple.py:274-276 | the rows are a prefix of the column, one shorter (empty for an empty column): the last (cost-function) row is dropped |
| IqtFitMultiple.PrefixAndUnprefixed | Framework/PythonInterface/plugins/algorithms/WorkflowAlgorithms/IqtFitMultiple.py:279-287 | a dotted name is its function prefix, a '.', and its unprefixed rest |
| IqtFitMultiple.CountParameters | Framework/PythonInterface/plugins/algorithms/WorkflowAlgorithms/IqtFitMultiple.py:279-284 | as written: the count is the index of the first name whose prefix differs from the first name's prefix, and 0 exactly when no prefix differs |
| IqtFitMultiple.NumParams | Framework/PythonInterface/plugins/algorithms/WorkflowAlgorithms/IqtFitMultiple.py:279-284 | corrected: the length of the leading run of names sharing the first prefix, at least 1 and at most the number of names |
| IqtFitMultiple.ColumnHeaders | Framework/PythonInterface/plugins/algorithms/WorkflowAlgorithms/IqtFitMultiple.py:287-293 | "axis-1", then each unprefixed parameter name followed by the name with "_Err" |
| IqtFitMultiple.RowStarts | Framework/PythonInterface/plugins/algorithms/WorkflowAlgorithms/IqtFitMultiple.py:296 | a zero step raises, as `xrange` does; otherwise the row starts are 0, step, 2·step, … below the stop |
| IqtFitMultiple.Range | Framework/PythonInterface/plugins/algorithms/WorkflowAlgorithms/IqtFitMultiple.py:296 | an arithmetic progression from the start in steps of `step`, every element below the stop, ending within one step of it |
| IqtFitMultiple.RowsWithinTable | Framework/PythonInterface/plugins/algorithms/WorkflowAlgorithms/IqtFitMultiple.py:296-298 | for m rows of p parameters, `xrange` gives exactly the m starts 0, p, …, (m-1)p, and each leaves room for a whole row, so the slices are never clamped |
| IqtFitMultiple.Row | Framework/PythonInterface/plugins/algorithms/WorkflowAlgorithms/IqtFitMultiple.py:297-301 | a row is the row number followed by each value and its error, interleaved |
| IqtFitMultiple.SingleFunctionTableHasOneRow | Framework/PythonInterface/plugins/algorithms/WorkflowAlgorithms/IqtFitMultiple.py:279-301 | with the corrected count, names that all share one prefix give one row and a header per name |
| IqtFitMultiple.SingleSpectrumCountIsZero | Framework/PythonInterface/plugins/algorithms/WorkflowAlgorithms/IqtFitMultiple.py:279-296 | as written, a single-function table gets a count of 0, only the "axis-1" column, and a failing row range |
| Text.SplitJoin | Framework/PythonInterface/plugins/algorithms/WorkflowAlgorithms/IqtFitMultiple.py:127-129 | joining parts free of the separator and splitting again gives back the parts |
| Text.JoinSplit | Framework/PythonInterface/plugins/algorithms/WorkflowAlgorithms/IqtFitMultiple.py:127-129 | splitting on a separator and joining again gives back the string |
| Text.NatToStringInjective | Code/Mantid/MantidQt/CustomInterfaces/src/Tomography/TomographyIfaceViewQtGUI.cpp:377-378 | different numbers have different decimal forms |
| TomographyView.ToUnixPath | Code/Mantid/MantidQt/CustomInterfaces/src/Tomography/TomographyIfaceViewQtGUI.cpp:741-750 | the result has no backslash; a drive prefix "X:" is dropped (a bare drive gives ""); every other character is kept, with '\' turned into '/' |
| TomographyView.UnixPathUnchanged | Code/Mantid/MantidQt/CustomInterfaces/src/Tomography/TomographyIfaceViewQtGUI.cpp:741-750 | a path with no backslash and no drive prefix is unchanged |
| TomographyView.PathSetting.StartDirectory | Code/Mantid/MantidQt/CustomInterfaces/src/Tomography/TomographyIfaceViewQtGUI.cpp:729-736 | the dialog starts at the shown path, or at the previous algorithm directory when nothing is shown |
| TomographyView.PathSetting.ProcessPathBrowseClick | Code/Mantid/MantidQt/CustomInterfaces/src/Tomography/TomographyIfaceViewQtGUI.cpp:727-755 | a cancelled dialog changes nothing; otherwise the line edit and the stored path both get the converted path |
| TomographyView.HiddenNameInjective | Code/Mantid/MantidQt/CustomInterfaces/src/Tomography/TomographyIfaceViewQtGUI.cpp:377-378 | different sequence numbers give different hidden names |
| TomographyView.FewerUntried | Code/Mantid/MantidQt/CustomInterfaces/src/Tomography/TomographyIfaceViewQtGUI.cpp:375-379 | each rejected attempt leaves fewer existing names untried, so the loop ends |
| TomographyView.NameSequence.CreateUniqueNameHidden | Code/Mantid/MantidQt/CustomInterfaces/src/Tomography/TomographyIfaceViewQtGUI.cpp:373-382 | the counter rises; the name is the hidden name of the last number tried and does not exist; every number skipped had an existing name |
| TomographyView.SuccessiveNamesDiffer | Code/Mantid/MantidQt/CustomInterfaces/src/Tomography/TomographyIfaceViewQtGUI.cpp:373-382 | names from an earlier and a later counter value differ |
| TomographyView.View.SetComputeResources | Code/Mantid/MantidQt/CustomInterfaces/src/Tomography/TomographyIfaceViewQtGUI.cpp:211-231 | mismatched lengths change nothing; otherwise one row per resource, in order, with its enabled flag; the tool selector is untouched |
| TomographyView.View.SetReconstructionTools | Code/Mantid/MantidQt/CustomInterfaces/src/Tomography/TomographyIfaceViewQtGUI.cpp:233-253 | mismatched lengths change nothing; otherwise one row per tool, in order, with its enabled flag; the resource selector is untouched |
| TomographyView.View.GetUsername | Code/Mantid/MantidQt/CustomInterfaces/src/Tomography/TomographyIfaceViewQtGUI.cpp:671-677 | the SCARF user name when "SCARF@STFC" is selected, otherwise "invalid" |
| TomographyView.View.GetPassword | Code/Mantid/MantidQt/CustomInterfaces/src/Tomography/TomographyIfaceViewQtGUI.cpp:684-690 | the SCARF password when "SCARF@STFC" is selected, otherwise "none" |
| TomographyView.ParseSize | Code/Mantid/MantidQt/CustomInterfaces/src/Tomography/TomographyIfaceViewQtGUI.cpp:771-785 | a size parses exactly when it is a non-empty digit string whose value fits in 64 bits |
| TomographyView.ParseSizeRoundTrip | Code/Mantid/MantidQt/CustomInterfaces/src/Tomography/TomographyIfaceViewQtGUI.cpp:771-785 | the decimal form of a 64-bit size parses back to that size |
| TomographyView.ClampDimension | Code/Mantid/MantidQt/CustomInterfaces/src/Tomography/TomographyIfaceViewQtGUI.cpp:768-775 | a dimension is at most 2048·16: smaller values are kept, others become 2048·16 |
| TomographyView.ImageSize | Code/Mantid/MantidQt/CustomInterfaces/src/Tomography/TomographyIfaceViewQtGUI.cpp:766-793 | an unparsable width fails first, then an unparsable height; otherwise both clamped dimensions |
| TomographyView.ImageSizeOfWrittenSizes | Code/Mantid/MantidQt/CustomInterfaces/src/Tomography/TomographyIfaceViewQtGUI.cpp:766-793 | logged decimal sizes give the sizes themselves, clamped to 2048·16 |

## Left out

- The algorithm factory, `initialize`, `isRunning` and the configuration lookup are parameters. `makeProxy` is not modelled: the manager keeps the handle it is given.
- Logging, the console messages and the notification centre's delivery are not modelled. A posted notification is recorded in the `posted` list.
- Concurrent access to the manager is not modelled.
- `createUnmanaged` is a single call into the factory and is not modelled.
- AlgorithmManagement.AlgorithmManager.Create: when `initialize` throws, the new algorithm stays in the list and no eviction happens. This follows the code; the model does not say whether it was intended.
- V3D is modelled as integer triples, and its `operator<` is assumed to be lexicographic; the real V3D has floating-point components.
- `SymmetryOperation::apply` is not part of this model. Applying an operation to a matrix is assumed to multiply it from the left (`PointGroups.ApplyOperation`); the order and the entries of the `Generated` list depend on that assumption, its length does not.
- IqtFitMultiple.Row: requires a whole row of values from its start, where Python's slice would clamp; `RowsWithinTable` shows that every row start meets this when the name count is a multiple of the parameter count.
- The symmetry operation factory's matrices are not part of this model. `LaueClasses.Realises` states, as a hypothesis, how each operation acts on an hkl.
- `getName` and `crystalSystem` are modelled as plain tables (`LaueClasses.Name`, `LaueClasses.System`) with no property proved about them.
- `getSymmetryOperations` is the field `symmetryOperations` itself.
- The PointGroupFactory registry is not modelled.
- BankRendering.RoundToNearestPowerOfTwo: requires val ≤ 2^63. Above that the 64-bit doubling wraps to 0 and the loop never ends.
- The OpenGL drawing in `renderRectangularBank` is not modelled; only the texture fractions at lines 93-94 are.
- RoundRobin.IndexOf: spectrum numbers are unbounded integers, not the source's 32-bit `int`; the 64-bit cast cannot overflow for 32-bit inputs.
- IqtFitMultiple.ValidateInputs: the x values are Dafny reals, not Python floats. The "%d" of the last x value is modelled as truncation toward zero.
- The `PyExec` orchestration of IqtFitMultiple is not modelled: child algorithms, progress reports, logs and workspace I/O.
- `convertToElasticQ` is not modelled.
- IqtFitMultiple.Row: the row number `i / num_params` is true division, because the file imports `division` from `__future__`; it is modelled as the real quotient. Python floats are modelled as Dafny reals.
- Text.Upper: upper-casing covers ASCII letters only.
- The workspace lookup `mtd[input_ws].getNumberHistograms()` is the parameter `numSpectra`.
- TomographyView.NameSequence.CreateUniqueNameHidden: the counter is unbounded; the source's `size_t` counter would wrap after 2^64 names.
- The analysis data service is the set `existing`.
- The file dialog's answer and the algorithm input history's previous directory are parameters.
- Null-widget guards, the disabled-row display trick and the current-selection bookkeeping of the Qt selectors are not modelled.
- TomographyView.ParseSize: `boost::lexical_cast` may also accept forms such as a leading sign, which this parser rejects.
- TomographyView.ImageSize: a missing log entry, which the source reports like a parse failure, is not modelled separately.
- The `userError` pop-ups and the image painting are not modelled.

## Findings

| source | as written | input that shows it | evidently intended | confidence | as-written member | corrected member |
|---|---|---|---|---|---|---|
| Framework/PythonInterface/plugins/algorithms/WorkflowAlgorithms/IqtFitMultiple.py:279-296 | `num_params` is set only when a name with a different function prefix is found, so it stays 0 when every parameter belongs to one function. The column list is then only "axis-1", and `xrange(0, rowCount - 1, 0)` raises ValueError. | parameter names ["f0.f0.A0", "f0.f1.Beta"], i.e. a fit of one spectrum | when no prefix differs, `num_params` is the number of parameter names, giving one row | not executed | IqtFitMultiple.SingleSpectrumCountIsZero | IqtFitMultiple.NumParams |
