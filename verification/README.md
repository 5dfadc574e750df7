# Dynaflow launcher: a verified model

A model in Dafny of two parts of the repository, with proofs of what they promise.

**The pipeline from a network to the files of a simulation** (C++). A network is
built as nodes with neighbour lists; algorithms walk the nodes and find the
largest connected component, the slack node, and the dynamic models of
generators, HVDC lines and automatons; `Context::process` puts them in order and
repairs what they found; `Dyd` and `Par` write two files that refer to each other.

**The delimiter matchers and the nesting stack of cpplint** (Python), the
repository's lint step.

`dafny verify dfyconfig.toml` checks everything.

## How the model is built

- A class stands for an object the source updates in place (`Node`,
  `NetworkManager`, `NestingState`, each `...Algorithm`, `Context`, the file
  collections). Its methods are proved against functions on values, and the laws
  are lemmas about those functions. A method tied to such a function by its
  `ensures` inherits every law of it.
- Dynawo's services are arbitrary functions (`Network.Services`), as are
  `libraryExists`, the hash of the writers, `DYN::doubleIsZero` and the class
  `\w` of Python's regular expressions. Nothing is assumed of them, except that
  `getBusesConnectedBySwitch` answers with buses of the voltage level it was asked
  about (the source looks these up with `std::find_if` and dereferences the result).
- The order in which the unordered maps of the source are walked is a parameter.
  Results that must not depend on it are stated for every order.

| Part | Files |
|---|---|
| matchers | `Brackets`, `Delimiters`, `DelimiterLaws`, `TemplateLists`, `TemplateLaws`, `TextInside` |
| nesting stack | `Nesting`, `NestingLaws` |
| network | `Network`, `NetworkManager`, `NetworkLaws`, `InputLaws` |
| components, slack node | `Reachability`, `Connexity`, `Slack` |
| generators, HVDC lines | `Generators`, `Hvdc`, `HvdcLaws`, `VscBuses`, `HvdcOutputLaws` |
| automatons, shunts | `MacroConnections`, `DynModels`, `DynModelLaws`, `CountSettings`, `Shunts`, `ShuntCounts`, `Seasons` |
| writers | `Dyd`, `Par`, `WriterLaws`, `ParLaws`, `ConnectorLaws`, `UniqueIds` |
| the whole | `ContextProcess`, `Pipeline`, `NetworkFiles`, `FileIds`, `InputModels`, `InputGenerators`, `InputLines`, `InputFiles`, `Export` |
| an example | `ExampleNetwork`, `ExampleRun` |

## Where the code does not do what it is for

Seven properties one would expect fail for some inputs. The model does what the code
does; for each, the exact condition is proved, and an input that fails is given.
`ExampleRun.RunExample` builds, processes and writes one network in which four of
them fail at once.

- **Parameter sets of generators.** For a `PROP_SIGNALN` or `REMOTE_SIGNALN`
  generator with zero target power, `Dyd.cpp:290-295` refers to a set other than
  the one `Par.cpp:190-195` writes. Every such generator alone dangles
  (`WriterLaws.ZeroTargetDangles`); `GeneratorResolved` and `ReferencesClosed` say
  exactly when references are resolved.
- **The set of macro connections.** `MacroConnection::operator<` compares
  concatenated strings, so a `std::set` can lose a connection. A model has all the
  connections a direct scan gives it exactly if no two of them have one
  concatenation (`DynModelLaws.NothingIsLostExactly`). That holds whatever the
  elements exactly if no macro id of its automatons, continued by a digit 0 to 3, is a
  prefix of another (`MacroConnections.KeysIdentifyExactly`). In the example an
  automaton reaches both lines it asks for, one connection is lost, and the filter
  drops its model (`ExampleRun.CollidingIsDropped`).
- **Repeated association ids.** `Algo.cpp:468-471` keeps the last association with
  an id, `Par.cpp:256-259` the first. The numbers of the DYD file and the counts of
  the PAR file match in every network exactly if the two name the same level
  (`ShuntCounts.CountsFollowIndexes`), as they do for the unique ids that
  `AssemblingXmlDocument.h` announces. In the files of the example one shunt is
  numbered and none is counted (`ExampleRun.CountingIsLeft`).
- **Seasons of lines.** `Algo.cpp:464-467` keeps the last single association with an
  id, `Par.cpp:324-330` takes the first. The season written is that of the line a
  model is connected to, whatever the lines, exactly if the two name one line
  (`Seasons.SeasonsFollowConnections`); `RepeatedSingleIds` is a case where not.
- **VSC buses.** `Algo.cpp:233-248` looks up the bus a converter is on, in a map
  keyed by the bus it regulates. A line gets a proportional model exactly if one of
  its converters that count is on a bus that two converters regulate
  (`VscBuses.ProportionalExactly`). The pairs it reports are those involved in a
  multiple regulation exactly if these converters regulate the buses they are on, or
  nothing is shared on either (`PairsAreInvolved`). `RemoteRegulation` is an input
  file in which two converters regulate one bus and no position shows it.
- **Macro connectors.** `Dyd.cpp:175-179` skips a used macro connection that the
  assembling file does not define, but its macro connects are written all the same.
  All connectors are in the file exactly if the file defines the macro connections
  of the models (`ConnectorLaws.ConnectorsClosed`); one is missing in the
  files of the example (`ExampleRun.CountingInFiles`).
- **Unique ids.** A bus that both generators and VSC converters regulate is in both
  bus maps, so both files hold `Model_Signal_NQ_<bus>` twice. If the elements of the
  input have ids of their own, the model ids of the DYD file are unique exactly if no
  bus is in both maps (`FileIds.ModelIdsOfNetwork`); `FileIds.SetIdsOfNetwork` says
  when the set ids of the PAR file are. In the example bus B is in both
  (`ExampleRun.BInBothMaps`).

## Model

| member | source | states |
|---|---|---|
| Delimiters.FindEndOfExpressionInLine | cpplint/cpplint.py:1735-1810 | from any pending stack, the loop returns the end, the failure or the stack left over that the specified scan gives, with each heuristic for `<`, `>`, `<<`, `->`, `operator` and `;` |
| Delimiters.CloseExpression | cpplint/cpplint.py:1813-1854 | over any lines, returns the place the multi-line scan gives, the end of the file when it fails, and fails at once for a character that opens nothing, `<<` and `<=` |
| Delimiters.FindStartOfExpressionInLine | cpplint/cpplint.py:1857-1931 | the same for the scan to the left, whose heuristics skip two characters |
| Delimiters.ReverseCloseExpression | cpplint/cpplint.py:1934-1969 | the same for the multi-line scan to the left |
| DelimiterLaws.EraseForward | cpplint/cpplint.py:1748-1810 | heuristic erasure: from a stack rooted in a real bracket, the scanner's result with the angles erased from its stack is that of a plain `()[]{}` matcher |
| DelimiterLaws.EraseBackward | cpplint/cpplint.py:1873-1931 | the same to the left, although the scanner skips characters there |
| DelimiterLaws.SkippedIsOrdinary | cpplint/cpplint.py:1882-1894 | a character skipped as part of `->`, `>=`, `<<` or `operator>` is never a bracket |
| DelimiterLaws.CloseFromIsFlat | cpplint/cpplint.py:1840-1854 | across line breaks the scan gives the place that the plain matcher finds in the concatenated lines, from the erased stack |
| DelimiterLaws.OpenFromIsFlat | cpplint/cpplint.py:1955-1969 | the same to the left |
| DelimiterLaws.CloseFindsGroup | cpplint/cpplint.py:1813-1854 | from a real bracket CloseExpression succeeds exactly if the flattened text has a bracketed group there, by a grammar of balanced text, and its end is the end of that group |
| DelimiterLaws.OpenFindsGroup | cpplint/cpplint.py:1934-1969 | from a closing bracket ReverseCloseExpression succeeds exactly if a group ends there, and returns its start |
| DelimiterLaws.ScannersUndoEachOther | cpplint/cpplint.py:1813-1969 | between two real brackets of any lines, one direction leads there exactly if the other leads back |
| DelimiterLaws.RoundTrip | cpplint/cpplint.py:1813-1969 | if CloseExpression succeeds from a real bracket, the character before its result closes that bracket and ReverseCloseExpression returns to the start |
| TemplateLists.ScanFindsList | cpplint/cpplint.py:1748-1810 | from a "<" that starts a list of template arguments, by a grammar of ordinary characters, real groups and inner lists, the scan ends exactly where the list ends |
| TemplateLists.BackFindsList | cpplint/cpplint.py:1873-1931 | from a ">" that ends such a list, the scan to the left ends exactly where it starts |
| TemplateLists.OperatorIsFound | cpplint/cpplint.py:1762-1790 | the search for the keyword is right: some "operator" at the start of a word, with only spaces after it |
| TemplateLaws.ListsAreFound | cpplint/cpplint.py:1813-1854 | over many lines, from the start of a list CloseExpression returns a place exactly if a list of the concatenated lines ends there, and no `<` or `=` comes next |
| TemplateLaws.FailureMeansNoList | cpplint/cpplint.py:1813-1854 | and if it fails, no list starts there |
| TemplateLaws.CloseFindsBracketed | cpplint/cpplint.py:1813-1854 | from any character of any lines: it accepts opening brackets and `<`, but for `<<` and `<=`, and then finds exactly the end of the first group or list of the line from there on, also from the second of `<<` or the angle of `operator<` |
| TemplateLaws.OpenFindsBracketed | cpplint/cpplint.py:1934-1969 | to the left, from any character: it accepts closing brackets and `>`, and finds exactly the start of the last group or list up to there; runs of `<` cancel in pairs |
| TemplateLaws.ListsUndoEachOther | cpplint/cpplint.py:1813-1969 | where both directions let the same angles count, they undo each other from angles too |
| TextInside.GetTextInside | cpplint/cpplint.py:4870-4900 | returns the text strictly inside the group of the opening bracket, or None if there is none, with a stack of expected closers |
| TextInside.MatchersAgree | cpplint/cpplint.py:1735-1810 | the scan with heuristics ends at e exactly if the plain matcher does, and exactly if the text from the bracket to e is a group |
| TextInside.BothMatchers | cpplint/cpplint.py:4870-4900 | the two matchers run on one text: one fails exactly if the other does, and the text is that strictly inside the span |
| Nesting.NestingState.UpdatePreprocessor | cpplint/cpplint.py:2748-2802 | what each kind of directive saves and restores of the block stack |
| Nesting.NestingState.Update | cpplint/cpplint.py:2805-2967 | the block stack and the checkpoints after one line, as a step function of those before |
| Nesting.NestingState.Consume | cpplint/cpplint.py:2930-2967 | the loop over braces, semicolons and parentheses does to the stack what consuming the tokens one by one does |
| Nesting.NestingState.UpdateAll | cpplint/cpplint.py:2805-2967 | the state after a whole file is the run of the step function |
| NestingLaws.StripSimulates | cpplint/cpplint.py:2748-2802 | for any lines at all, well nested or not: the run simulates the run of the lines outside else parts, the two being equal whenever outside |
| NestingLaws.OuterCheckpointsUntouched | cpplint/cpplint.py:2766-2802 | well nested directives never look at or change the checkpoints of enclosing ones |
| NestingLaws.StripKeepsNesting | cpplint/cpplint.py:2766-2802 | taking the else parts out of well nested lines leaves well nested lines |
| NestingLaws.SkippedBranchesDoNotMatter | cpplint/cpplint.py:2748-2802 | well nested lines leave the same stacks as those lines without any else part, at any depth, and the checkpoint stack returns to what it was |
| NestingLaws.BranchesStartBeforeIf | cpplint/cpplint.py:2766-2802 | from any state, every `#else` and `#elif` of an `#if` starts with the blocks open before the `#if`, whatever the well nested branches before it; the `#endif` continues with those at the end of the first branch |
| NestingLaws.NamespacesPushed | cpplint/cpplint.py:2852-2870 | the namespaces of a line are pushed in order, each complete exactly if its brace is on the line |
| NestingLaws.QuietLines | cpplint/cpplint.py:2829-2928 | over lines without directives, heads and braces only the innermost block changes: it adds up the parentheses, and a class takes the last access specifier and is derived exactly if a colon comes before its brace |
| NestingLaws.AsmStarts | cpplint/cpplint.py:2834-2845 | an asm head that opens its first parenthesis starts an asm block, and nothing else does |
| NestingLaws.AsmUntilClosed | cpplint/cpplint.py:2846-2850 | it ends with the first line that closes all parentheses |
| NestingLaws.ClassWithBody | cpplint/cpplint.py:2872-2967 | a class head and its brace on one line leave one complete block, derived exactly if there is a colon, with the access specifier of the line |
| NestingLaws.ClassHeadOutsideParentheses | cpplint/cpplint.py:2829-2897 | after any lines that only count parentheses, a class head is pushed exactly if all of them are closed, and else leaves the blocks as they are |
| NestingLaws.BlocksOfOpenBraces | cpplint/cpplint.py:2930-2967 | the blocks that tokens leave on a stack are those of the braces they leave open, in order, each an extern "C", asm or plain block as its brace says |
| NestingLaws.BalancedBracesRestore | cpplint/cpplint.py:2930-2967 | tokens with balanced braces restore the block stack, whatever is between them |
| NestingLaws.HeadThenBody | cpplint/cpplint.py:2930-2967 | the first brace completes the head of a class or namespace and the matching one removes it; a semicolon instead removes it at once |
| NetworkManager.BuildLine | sources/Inputs/src/Node.cpp:73-87 | both ends get each other as neighbours and the line, also when they are one node |
| NetworkManager.BuildTfo | sources/Inputs/src/Node.cpp:96-111 | the same for two windings |
| NetworkManager.BuildTfo3 | sources/Inputs/src/Node.cpp:113-136 | each of three nodes gets the two others and the transformer, in the order of the code, also when nodes coincide |
| NetworkManager.BuildSwitch | sources/Inputs/src/NetworkManager.cpp:147-148 | a closed switch makes its nodes neighbours |
| NetworkManager.UpdateMapRegulatingBuses | sources/Inputs/src/NetworkManager.cpp:53-64 | a bus becomes ONE at first and MULTIPLES from then on |
| NetworkManager.NetworkManager.BuildTree | sources/Inputs/src/NetworkManager.cpp:66-265 | the objects built, frozen, are the records of the build function; the bus maps count exactly the kept generators and the VSC converters |
| NetworkLaws.BuildDescribes | sources/Inputs/src/NetworkManager.cpp:66-265 | there is one node per bus, and its neighbours, lines, transformers, generators and converters are those of a direct definition from the input, by position |
| InputLaws.NodesOfInput | sources/Inputs/src/NetworkManager.cpp:66-265 | every bus of a level has a node with the level and the nominal voltage of the input, whose neighbours, lines, transformers, shunts, generators and converters are exactly those of the input elements on it |
| InputLaws.GeneratorsAreKept | sources/Inputs/src/NetworkManager.cpp:114-135 | the generators of the network are those of the input that are connected, regulate the voltage and have minus their target within their limits, up to rounding |
| InputLaws.KeptWithinLimits | sources/Inputs/src/NetworkManager.cpp:126-127 | without rounding exactly if pmin <= -targetP <= pmax |
| NetworkLaws.NeighboursAreSymmetric | sources/Inputs/src/Node.cpp:73-136 | for any connections, a is among the neighbours of b as often as b among those of a |
| NetworkLaws.BuiltGraphIsSymmetric | sources/Inputs/src/NetworkManager.cpp:137-214 | the graph of every built network is closed and symmetric |
| NetworkLaws.TotalDegreeFormula | sources/Inputs/src/Node.cpp:73-136 | the degrees of any nodes that contain all ends sum to two for each link and six for each three-winding transformer |
| NetworkLaws.BuiltTotalDegree | sources/Inputs/src/NetworkManager.cpp:137-214 | in a built network: 2 (closed switches + connected lines + connected two-winding) + 6 (connected three-winding) |
| NetworkLaws.CountAllCounts | sources/Inputs/src/NetworkManager.cpp:53-64 | a bus map says ONE or MULTIPLES exactly for one or at least two elements on the bus, and has no other bus |
| Connexity.MainConnexComponentAlgorithm.UpdateConnexGroup | sources/Algo/src/Algo.cpp:50-59 | terminates; appends the nodes of the search to the group and marks exactly those |
| Connexity.MainConnexComponentAlgorithm.Visit | sources/Algo/src/Algo.cpp:61-76 | one visit of the walk: the group replaces the main component only if it is larger |
| Connexity.SearchExactly | sources/Algo/src/Algo.cpp:50-59 | the search adds exactly the nodes its list reaches through nodes unmarked on entry, each once |
| Connexity.SearchIsClosed | sources/Algo/src/Algo.cpp:50-59 | every node of the list and every neighbour of an added node is marked on exit |
| Connexity.SearchFindsComponent | sources/Algo/src/Algo.cpp:61-76 | from an unmarked node, with whole components marked before, the search finds exactly its connected component |
| Connexity.WalkMarksComponents | sources/Algo/src/Algo.cpp:61-76 | after any walk the marked nodes are exactly the components of the visited ones |
| Connexity.WalkFindsFirstLargest | sources/Algo/src/Algo.cpp:61-76 | after any walk the main component is that of the first visited node whose component is largest |
| Connexity.MainIsLargestComponent | sources/Algo/src/Algo.cpp:50-76 | once every node is visited, in any order: one whole component, no duplicates, none larger |
| Slack.SlackNodeAlgorithm.Visit | sources/Algo/src/Algo.cpp:34-44 | keeps the slack node the first one such that no visited node has a higher voltage, or the same and more neighbours |
| Slack.SlackStep | sources/Algo/src/Algo.cpp:34-44 | that invariant of one comparison |
| Slack.HighestAmongFewer | sources/Context.cpp:90-103 | a node highest of all is highest in the component that contains it; so a slack node inside needs no recomputation |
| Generators.IsDiagramValid | sources/Algo/src/Algo.cpp:137-180 | the loop with its early exit finds a diagram valid exactly if its points span both powers, or without points its limits do |
| Generators.IsOtherGeneratorConnectedBySwitches | sources/Algo/src/Algo.cpp:182-203 | true exactly if a bus connected by switches has a generator |
| Generators.GeneratorDefinitionAlgorithm.VisitGenerator | sources/Algo/src/Algo.cpp:94-134 | appends the definition of the generator's model exactly if its diagram is unneeded or valid; keeps the bus map |
| Generators.GeneratorDefinitionAlgorithm.Visit | sources/Algo/src/Algo.cpp:90-135 | the definitions of a node's generators, in order; keeps the bus map |
| Generators.AddDefinition | sources/Algo/src/Algo.cpp:90-135 | the buses with a dynamic model stay exactly the regulated buses of emitted PROP generators, each with the first of them |
| InputGenerators.DefinitionsOfInput | sources/Algo/src/Algo.cpp:90-135 | end to end, the definitions are exactly those of the kept generators on the main component whose diagram is unneeded or valid; PROP exactly if another kept generator regulates the bus, or it is alone on its own and a bus connected by switches has one; remote exactly if not PROP and the regulated bus is not its own, local otherwise; with a diagram exactly if limits are finite |
| InputGenerators.FactsDetermineModel | sources/Algo/include/Algo.h:146-164 | these facts leave one model |
| Hvdc.HVDCDefinitionAlgorithm.GetOrCreateHvdcLineDefinition | sources/Algo/src/Algo.cpp:305-340 | finds the definition, or inserts a fresh one built from both converters |
| Hvdc.HVDCDefinitionAlgorithm.VisitConverter | sources/Algo/src/Algo.cpp:344-375 | one converter: position, model and entries of the VSC bus map; one that is not of its line's two leaves the definition as created |
| Hvdc.HVDCDefinitionAlgorithm.Visit | sources/Algo/src/Algo.cpp:342-376 | one node: its converters, in order |
| HvdcLaws.WalkPlacesLine | sources/Algo/src/Algo.cpp:305-376 | whatever the order, a line is recorded exactly if a converter of it was met, with the position and model that both met converters give |
| HvdcLaws.SharedBusesGrow | sources/Algo/src/Algo.cpp:227-262 | a provisional position never shares a bus that the final one does not |
| HvdcLaws.WalkSharesBuses | sources/Algo/src/Algo.cpp:363-374 | the keys of the VSC bus map are the shared buses of the lines at their final positions |
| HvdcLaws.WalkNamesConverters | sources/Algo/src/Algo.cpp:363-374 | each entry of the VSC bus map names a converter on its key bus, of a line that was met; its limits are those of the converter visited, which may be the line's other one |
| VscBuses.MultipleMeansTwo | sources/Algo/src/Algo.cpp:233-250 | the test of the code holds exactly for a bus that at least two converters of VSC lines regulate |
| VscBuses.PairsAreInvolved | sources/Algo/src/Algo.cpp:227-262 | the pairs found are the converters involved in a multiple regulation, with the buses they regulate, exactly if they regulate the buses they are on, or nothing is shared on either |
| VscBuses.ProportionalExactly | sources/Algo/src/Algo.cpp:264-303 | a line has a proportional model exactly if it is VSC and a converter that counts is on a bus that two converters regulate |
| VscBuses.LocalRegulationIsFound | sources/Algo/src/Algo.cpp:227-303 | in a network whose converters regulate their own buses, pairs and models are those of the multiple regulations |
| VscBuses.SharedBusIsMissed | sources/Algo/src/Algo.cpp:227-262 | for two lines whose first converters regulate one bus from elsewhere, no position of the first line shows it |
| VscBuses.RemoteRegulation | sources/Inputs/src/NetworkManager.cpp:216-250 | a well formed input file with two such lines |
| HvdcLaws.LinesArePlaced | sources/Algo/src/Algo.cpp:342-376 | after walking the component in any order, a line is recorded exactly if a converter's bus is in it; position and model follow from which are |
| HvdcLaws.OnlyLinesMet | sources/Algo/src/Algo.cpp:305-340 | no other line is recorded |
| InputLines.LinesOfInput | sources/Algo/src/Algo.cpp:264-376 | end to end, the definitions handed over are those of the connected lines of the input with an end in the main component, converter by converter; PTanPhi exactly for LCC, PQProp exactly if VSC with an inner end on a bus that two VSC converters regulate, PV otherwise; emulation exactly if VSC with a droop and both ends inside; dangling exactly if one end is outside; with a diagram exactly if limits are finite |
| InputLines.FactsDetermineModel | sources/Algo/include/Algo.h:389-442 | these facts leave one model |
| InputLines.RegulatingCounts | sources/Inputs/src/NetworkManager.cpp:53-64 | the count of a bus is at least two exactly if two different ends of VSC lines regulate it |
| HvdcOutputLaws.NQConnections | sources/Outputs/src/Dyd.cpp:421-439 | the connections to NQ1 and NQ2 lead exactly to the buses of the line's proportional regulation |
| HvdcOutputLaws.NQBusesAreShared | sources/Algo/src/Algo.cpp:227-303 | those buses are the ones computeModel reports as shared |
| HvdcOutputLaws.VscBusesAreConnected | sources/Outputs/src/Dyd.cpp:421-439 | after the walk the keys of the VSC bus map are exactly the buses some recorded line connects through NQ1 or NQ2 |
| HvdcOutputLaws.Terminal1InMain | sources/Outputs/src/Dyd.cpp:421-431 | whatever terminal 1 of a placed line is wired to is a bus of the main component |
| HvdcOutputLaws.Terminal1IsWired | sources/Outputs/src/Dyd.cpp:421-431 | terminal 1 is wired, to one of the two converters' buses |
| HvdcOutputLaws.PlacedIsReadable | sources/Outputs/src/Par.cpp:425-525 | the optional droop, converters and regulation modes that the writer dereferences are present whenever it does |
| MacroConnections.LessIsLexicographic | sources/Algo/src/Algo.cpp:517-521 | operator< compares the concatenations character by character |
| MacroConnections.StrictWeakOrder | sources/Algo/src/Algo.cpp:517-521 | operator< is a strict weak order whose ties are equal concatenations |
| MacroConnections.OperatorsConsistent | sources/Algo/src/Algo.cpp:507-536 | the operators agree with their converses exactly unless different connections have one concatenation, and then both are greater |
| MacroConnections.KeysIdentifyExactly | sources/Algo/src/Algo.cpp:517-521 | concatenations tell all connections through some macro ids apart exactly if no id continued by a type digit is a prefix of another |
| MacroConnections.ExtensionCollides | sources/Algo/src/Algo.cpp:517-521 | for any two ids that break the condition, the connection of every element through the longer one collides with one through the shorter |
| MacroConnections.TotalOrder | sources/Algo/src/Algo.cpp:507-536 | through ids that meet it, the six operators form a total order |
| MacroConnections.InsertOrdered | sources/Algo/src/Algo.cpp:600-612 | inserting keeps the set ordered and without two equal concatenations |
| DynModels.DynModelAlgorithm.ExtractDynModels | sources/Algo/src/Algo.cpp:455-495 | the five maps after extraction: loadable automatons, and for each target its macro connects |
| DynModels.DynModelAlgorithm.AddMacroConnectionToModelDefinitions | sources/Algo/src/Algo.cpp:600-612 | creates the model at its first connection, then inserts |
| DynModels.DynModelAlgorithm.Visit | sources/Algo/src/Algo.cpp:538-635 | one node: shunts, lines, bus and transformers are connected; every automaton looked up is known |
| DynModels.ExtractedRefsKnown | sources/Algo/src/Algo.cpp:455-495 | every macro connect extracted refers to a loadable automaton, so no lookup of it fails |
| DynModelLaws.ExtractedIsRequested | sources/Algo/src/Algo.cpp:427-495 | a target has a macro connect exactly if a loadable automaton asks for it |
| DynModelLaws.NodeEventsMembers | sources/Algo/src/Algo.cpp:538-635 | what a visit connects is what the node offers to the targets extracted |
| DynModelLaws.AddAllGathers | sources/Algo/src/Algo.cpp:600-612 | a model exists exactly if something was connected to it, and holds those connections up to equal concatenations |
| DynModelLaws.WalkIsDirectScan | sources/Algo/src/Algo.cpp:427-635 | index refinement: after any walk, models and connections are those of a direct scan of the associations against the nodes, up to equal concatenations |
| DynModelLaws.WalkIsExact | sources/Algo/src/Algo.cpp:427-635 | exactly those, for a model no two of whose wanted connections have one concatenation |
| DynModelLaws.NothingIsLostExactly | sources/Algo/src/Algo.cpp:600-612 | a model has all its wanted connections exactly if no two of them have one concatenation |
| DynModelLaws.FreeIdsDiffer | sources/Algo/src/Algo.cpp:517-521 | in no network do two, if no macro id of the model's automatons extends another |
| DynModelLaws.ModelInAnyOrder | sources/Algo/src/Algo.cpp:614-635 | walks over the same nodes, in any order and with any repetitions, leave such a model equal |
| DynModelLaws.OrderDoesNotMatter | sources/Algo/src/Algo.cpp:614-635 | and all models, if no macro id of an automaton extends another of the same |
| DynModelLaws.ConnectionsUseTaggedMacros | sources/Algo/src/Algo.cpp:538-598 | every connection of a model goes through a macro connection tagged as used |
| DynModelLaws.TaggedExactly | sources/Algo/src/Algo.cpp:538-598 | the tagged macro connections are exactly those through which a loadable automaton asks for a target that some node looks up, with or without an element |
| DynModelLaws.LibraryOfModel | sources/Algo/src/Algo.cpp:427-453 | a model has the library of the last loadable automaton with its id |
| InputModels.ResolveNames | sources/Algo/src/Algo.cpp:455-495 | a macro connect leads to the target of the last single association with its id, a bus before a line before a transformer, or else of the last multiple one |
| InputModels.WantedIsGiven | sources/Algo/src/Algo.cpp:538-635 | in a built network the direct scan gives a model exactly what the two input files give it: the first bus in the input's list for the level named, the shunts on its buses, the connected line or transformer of that name |
| InputModels.ConnectionsOfInput | sources/Context.cpp:122-142 | end to end, the connections of a model handed over are among those, and are all of them exactly if no two have one concatenation |
| Shunts.ShuntCounterAlgorithm.Visit | sources/Algo/src/Algo.cpp:649-653 | keeps the count of every level that of the shunts on the visited nodes |
| Shunts.ConnectionsMatchShunts | sources/Algo/src/Algo.cpp:538-556 | a macro connect that asks for one level only has as many connections as that level has shunts |
| CountSettings.WriteCounts | sources/Outputs/src/Par.cpp:255-271 | the parameters of the counts, of the first association with each id, skipping unknown associations and levels |
| ShuntCounts.SameAssociation | sources/Outputs/src/Par.cpp:256-259 | the writer of the counts and the extraction use the same association with an id exactly if the first and the last one name the same level |
| ShuntCounts.UniqueIdsAgree | sources/Inputs/include/AssemblingXmlDocument.h:101-104 | as they do if association ids are unique |
| ShuntCounts.IndexesMatchCounts | sources/Outputs/src/Dyd.cpp:199-229 | then in every network the indexes of the connections to the shunts are exactly 0 to n - 1, where n is the count the PAR file holds |
| ShuntCounts.RepeatedIdsDiffer | sources/Outputs/src/Par.cpp:255-271 | otherwise, for any such document, a network with one index and the count zero |
| ShuntCounts.CountsFollowIndexes | sources/Outputs/src/Par.cpp:255-271 | indexes and counts match in every network exactly if the first and the last association name the same level |
| ShuntCounts.RepeatedIdsDisagree | sources/Algo/src/Algo.cpp:468-471 | a document with a repeated id, and node records, for which they differ |
| Seasons.GetActiveSeason | sources/Outputs/src/Par.cpp:318-342 | the season of the line of the first association with the id, if it names one that is known |
| Seasons.SeasonOfFirst | sources/Outputs/src/Par.cpp:318-342 | a season is written exactly if the first association with the id names a known line, and it is that of the line |
| Seasons.SeasonsFollowConnections | sources/Outputs/src/Par.cpp:318-342 | whatever the lines, it is the season of the line that models are connected to exactly if the first and the last association with the id name one line |
| Seasons.RepeatedSingleIds | sources/Algo/src/Algo.cpp:464-467 | two associations with one id for which it is not |
| Dyd.CountConnections | sources/Outputs/src/Dyd.cpp:206-213 | the first loop counts the connections through each macro connection |
| Dyd.WriteDynamicModelMacroConnect | sources/Outputs/src/Dyd.cpp:199-229 | one macro connect per connection, with the number of earlier ones through the same macro connection; the index stays below the count |
| Dyd.IndexIsTaken | sources/Outputs/src/Dyd.cpp:215-226 | every index below the count is given to a connection |
| Dyd.IndexIsTakenOnce | sources/Outputs/src/Dyd.cpp:215-226 | and to one only |
| Dyd.WriteDynamicModelMacroConnectors | sources/Outputs/src/Dyd.cpp:165-188 | a connector for each used macro connection that the document defines, from its first definition |
| Dyd.Write | sources/Outputs/src/Dyd.cpp:87-163 | the macro connectors, models, connections and macro connects of the file |
| InputFiles.ConnectsOfInput | sources/Outputs/src/Dyd.cpp:127-163 | end to end, the connections of the DYD file are exactly: terminal 1 of each line on its inner end and terminal 2 on the other, NQ1 and NQ2 for lines that share regulations, NQ or the regulated voltage for each generator as its model asks, the voltage of each regulated bus, and the reference of the angles |
| InputFiles.ModelsOfInput | sources/Outputs/src/Dyd.cpp:115-150 | end to end, the models of the DYD file are exactly those of these lines, generators, regulations and elements, each with the library and the parameter set its kind calls for |
| InputFiles.HvdcLibIs | sources/Outputs/src/Dyd.cpp:67-84 | the library of a line is named after its family, then Dangling, DiagramPQ and Emulation as they hold |
| InputFiles.GeneratorLibIs | sources/Outputs/src/Dyd.cpp:37-43 | that of a generator is PQProp, PVRemote or PV, with DiagramPQ as it holds |
| ConnectorLaws.UsedConnectorsExactly | sources/Outputs/src/Dyd.cpp:165-188 | a macro connection has a connector exactly if it is used and defined |
| ConnectorLaws.FileMacroConnectsMembers | sources/Outputs/src/Dyd.cpp:115-160 | the macro connects of the file are exactly those of its loads, models, compensators and generators |
| ConnectorLaws.ConnectorsAreFirst | sources/Outputs/src/Dyd.cpp:165-188 | the connector of a used macro connection is its first definition in the document, as it is |
| ConnectorLaws.ConnectorsOfFile | sources/Outputs/src/Dyd.cpp:335-361 | the connectors of the file are exactly the four constant ones, variable by variable, and those |
| ConnectorLaws.MacroConnectsAre | sources/Outputs/src/Dyd.cpp:199-229 | the macro connects of the file spelled out: those of loads, compensators and generators, and of each connection of a model with the number of earlier ones through its macro connection |
| ConnectorLaws.ConnectorsClosed | sources/Outputs/src/Dyd.cpp:87-163 | every macro connect has its connector in the file exactly if the document defines the macro connections of the models |
| ConnectorLaws.UndefinedMacro | sources/Outputs/src/Dyd.cpp:175-179 | for any model with a connection through a macro connection of its own, a file without its connector |
| ConnectorLaws.EndsAreDeclared | sources/Outputs/src/Dyd.cpp:87-163 | both ends of every macro connect are models of the file or the network |
| ConnectorLaws.SignalIndexes | sources/Outputs/src/Dyd.cpp:394-400 | each generator takes one index of the signal N model, and the indexes are 0 to n - 1 |
| Par.Write | sources/Outputs/src/Par.cpp:172-221 | the parameter sets with their macro sets and counts, and the macro sets of the file, with each guard of the writer |
| WriterLaws.MacroSetsPresentOnce | sources/Outputs/src/Par.cpp:172-221 | every macro set that a set refers to is present, and none is added twice |
| WriterLaws.WrittenSets | sources/Outputs/src/Par.cpp:172-221 | the ids of the sets, exactly, although shared sets are only added once |
| ParLaws.SetsOfFile | sources/Outputs/src/Par.cpp:172-221 | each set of the PAR file with its macro references and counts: of diagrams, shared ones, of regulations, elements and described models, and no others |
| ParLaws.MacroSetsOfFile | sources/Outputs/src/Par.cpp:172-221 | the macro sets are exactly those of the kinds of generators with a diagram, of compensators and of regulations |
| ParLaws.MacroIdIsName | sources/Outputs/src/Par.cpp:70-87 | the macro set of a generator is named macro_ and the name of the shared set of its kind |
| WriterLaws.GeneratorResolved | sources/Outputs/src/Dyd.cpp:282-309 | a generator's reference is resolved exactly unless it is PROP_SIGNALN or REMOTE_SIGNALN with zero target and nothing stands in for its set |
| WriterLaws.ZeroTargetDangles | sources/Outputs/src/Dyd.cpp:290-295 | for every hash and every notion of zero, such a generator alone makes a file in which it dangles |
| WriterLaws.ElementsResolved | sources/Outputs/src/Dyd.cpp:231-280 | the references of loads, HVDC lines, VRRemote models and compensators always are |
| WriterLaws.DynamicModelResolved | sources/Outputs/src/Dyd.cpp:190-197 | that of a dynamic model is exactly if the settings describe it, or another set bears its id |
| WriterLaws.ReferencesClosed | sources/Outputs/src/Dyd.cpp:87-163 | the whole file: every reference is resolved exactly under these conditions |
| UniqueIds.ModelIdsUnique | sources/Outputs/src/Dyd.cpp:115-150 | the model ids of the DYD file are unique exactly if those of the elements are, none is that of a regulation model, and no bus is in a bus map twice or in both |
| UniqueIds.SetIdsUnique | sources/Outputs/src/Par.cpp:172-221 | the set ids of the PAR file are unique exactly if the hashes of the generators with a diagram are distinct, the ids of compensators, lines and described models are distinct and apart from the sets of generators and regulation models, and no bus is in a bus map twice or in both |
| UniqueIds.GeneratorSetIdsUnique | sources/Outputs/src/Par.cpp:180-196 | the sets of loads and generators, shared ones included, have unique ids exactly if the hashes of the generators with a diagram are distinct |
| UniqueIds.SharedBusRepeats | sources/Outputs/src/Dyd.cpp:131-138 | a bus in both bus maps repeats its model and its set |
| ContextProcess.FilterPartiallyConnectedDynamicModels | sources/Context.cpp:122-142 | keeps a model exactly if each macro connection its automaton requires occurs in its connections, and keeps it unchanged |
| ContextProcess.KeptIfWanted | sources/Context.cpp:122-142 | composed with the walk: a model is left exactly if the direct scan gives it a connection, and one through each macro connection that an automaton with its id requires |
| ContextProcess.Context.CheckConnexity | sources/Context.cpp:73-78 | whether the slack node is in the main component, by id |
| ContextProcess.Context.RepairSlackNode | sources/Context.cpp:90-103 | a computed slack node inside the component stays, one outside is replaced by the first highest there, and either is highest in it; a given one outside is an error and is left |
| ContextProcess.Context.Process | sources/Context.cpp:80-120 | success exactly if the slack node is in the main component and a generator is emitted; what is left of the slack node, the component, the models, the counts, the generators and the HVDC lines |
| ContextProcess.MainOfIsLargest | sources/Context.cpp:80-120 | the component process works on is the first largest of the network |
| Pipeline.BuiltInputsAreValid | sources/Inputs/src/NetworkManager.cpp:66-265 | every built network meets what process and its algorithms need, so none of their lookups fails |
| Pipeline.KeptGeneratorsAreCounted | sources/Algo/src/Algo.cpp:100-103 | the regulating map knows the bus of every kept generator, and says ONE exactly if it is alone there |
| Pipeline.HvdcLinesOfTheNetwork | sources/Context.cpp:105-111 | end to end, position and model of each line of the input follow from which converters' buses are in the largest component |
| Pipeline.NQConnectionsLeadToModels | sources/Outputs/src/Dyd.cpp:407-439 | every connection to an NQ variable leads to a VRRemote model that the file declares, if the bus maps hold what the algorithms promise |
| Pipeline.NoNQConnectionDangles | sources/Outputs/src/Dyd.cpp:87-163 | end to end, in the DYD file of a built network no NQ connection dangles |
| Pipeline.SingleBus | sources/Inputs/src/NetworkManager.cpp:66-265 | the networks all this is about exist: one for every voltage level with a single bus |
| Pipeline.InputsAreBuilt | sources/Inputs/src/NetworkManager.cpp:66-265 | and one for every well formed input without buses connected by switches, in any order of the walk |
| Pipeline.Launch | sources/Context.cpp:39-120 | building the network and processing it leaves what process promises |
| NetworkFiles.Terminal1sInMain | sources/Outputs/src/Dyd.cpp:421-431 | in the DYD file of a network, every terminal 1 is wired to a bus of the main component |
| NetworkFiles.ProportionalLines | sources/Context.cpp:105-111 | end to end, a recorded line is proportional exactly if it is VSC with a converter, in the main component, on a bus that two converters regulate |
| NetworkFiles.LevelShuntsDistinct | sources/Inputs/src/NetworkManager.cpp:73-98 | in a built network, a walk meets each shunt of a level once, if the ids of its shunts are unique in the input |
| NetworkFiles.HandedModelsUseTagged | sources/Context.cpp:122-142 | the models kept by the filter only use macro connections tagged as used |
| NetworkFiles.ShuntsNumberedAsCounted | sources/Outputs/src/Dyd.cpp:87-163 | end to end, the macro connects of the DYD file number the shunts of an association from 0 to n - 1, and the set of the model in the PAR file holds the count n |
| FileIds.GeneratorsOfFile | sources/Algo/src/Algo.cpp:90-135 | the generators of the file have ids of their own if those of the input have |
| FileIds.ModelIdsOfNetwork | sources/Outputs/src/Dyd.cpp:115-150 | if the elements of the input have ids of their own, the model ids are unique exactly if no bus is in both maps |
| FileIds.SetIdsOfNetwork | sources/Outputs/src/Par.cpp:172-221 | and the set ids exactly if moreover the hashes are and no element is named like a set of a generator |
| FileIds.IdsOfFiles | sources/Context.cpp:144-180 | end to end, both hold of whatever a successful process hands over |
| Export.ValuesOf | sources/Outputs/src/Dyd.cpp:127-150 | the loops over an unordered map meet each of its values, once per key, in any order |
| Export.ConnectionsLead | sources/Outputs/src/Dyd.cpp:87-163 | in a DYD file written from what process found, every connection to an NQ variable leads to a VRRemote model of the file, and every terminal 1 to the main component |
| Export.ReferencesAgree | sources/Outputs/src/Par.cpp:172-221 | in both files of any definition, all parameter sets referred to are written exactly if zero-target generators have a stand-in and the settings describe the dynamic models |
| Export.AllAgree | sources/Context.cpp:144-180 | the files of a network agree in connections, parameter sets, macro connectors and shunt counts, and their ids are unique under the conditions above |
| Export.ExportOutputs | sources/Context.cpp:144-180 | the two files written after a successful process agree in all these ways, and the angle reference is a bus of the main component |
| ExampleRun.BInBothMaps | sources/Outputs/src/Dyd.cpp:131-138 | in whatever the example hands over, bus B is in both bus maps |
| ExampleRun.CollidingIsDropped | sources/Context.cpp:122-142 | in the example both macro connections of an automaton have a connection, but its model is dropped |
| ExampleRun.CountingIsLeft | sources/Outputs/src/Par.cpp:255-271 | in the example one shunt of a model has the index zero, and the count is zero |
| ExampleRun.CountingInFiles | sources/Outputs/src/Dyd.cpp:175-179 | so it is in the files, and the connector of the model is missing |
| ExampleRun.LaunchExample | sources/Context.cpp:80-120 | process succeeds on the example |
| ExampleRun.RunExample | sources/Context.cpp:144-180 | the files of the example repeat ids, lack a model and a connector, and number a shunt that is not counted |

## Left out

- TemplateLaws.ListsUndoEachOther: for files in which the marks of the two directions differ (`<<`, ` >= `, `operator`), each direction is characterised by its own marks, and no round trip is stated.
- Nesting.NestingState.Update: lines come as its regular expressions parse them, with the decision of `InTemplateArgumentList` in the class declaration; block infos are values, so the aliasing that `deepcopy` prevents is not modelled; `previous_stack_top`, `CheckEnd` and the style errors are left out.
- TextInside.GetTextInside: the search for the start pattern is a parameter.
- Shunts.ShuntCounterAlgorithm.Visit: the count is unbounded; the wrap-around of `unsigned int` and the cast to `int` in the PAR file are not modelled.
- Export.ExportOutputs: the job file, the copied constant files and the diagrams are left out.
- ContextProcess.Context.Process: an empty network is excluded; there the source dereferences a null slack node.
- ContextProcess.Context.Process: the algorithms registered on a walk share no state, so each walks on its own; load, compensator and line-by-id definitions, which only collect, are left out.
- Dyd.Write: static references are left out; the four lists of the file are written one after the other.
- Par.Write: the parameters inside a set are left out, but for the counts of shunts, and so are its references.
- NetworkManager.NetworkManager.BuildTree: loads and compensators are left out; shunts are those on the bus, as in the input.
- The walks read nodes as frozen records; no algorithm changes a node.
- Reals stand for `double`; comparisons with tolerance are arbitrary predicates.
- File formats, diagrams, the job file, logs, options, the library search path and the Dynawo simulation.
- The style checks of cpplint.
