# Verification of the IEC 61850 south plugin

A Dafny model of the plugin that polls IEC 61850 servers, converts what they answer into Fledge datapoints and
forwards them, with proofs of what it does. `dafny verify dfyconfig.toml` verifies the whole project.

| file | what it models |
|---|---|
| `Mms.dfy` | MMS values, name trees, and the conversion of the one along the other, as functions |
| `Datapoints.dfy` | the same conversion as the code performs it, allocating and renaming objects on the heap |
| `Connection.dfy` | the connection with a server: the walk of its directory, reads, the recorded network error |
| `EndToEnd.dfy`, `ServedModels.dfy` | data models of a server, their values, and the way from the walk to the conversion |
| `Selection.dfy` | the members of a dataset: `path[FC]`, first-match selection, the fallback that selects all |
| `LocalData.dfy` | what the configuration of a client is built to from the server's answers |
| `Readings.dfy` | what a poll exports, and the callback that receives it |
| `Client.dfy` | the client: building, connecting, reading, sending |
| `Lifecycle.dfy` | the threads of a client as a step system |
| `PollSteps.dfy` | the polls of the client as runs of that step system |
| `Configuration.dfy`, `Plugin.dfy` | the configuration, the map of clients, and the calls of the host |
| `OsiSelector.dfy`, `Numerals.dfy` | the parser of OSI selectors, and numerals |

**The server** is a finite directory and a finite list of datasets; everything else it may do is arbitrary: the calls
of a connection are numbered, and the state of the link, the error code and the values read are arbitrary functions of
the number of the call (`Connection.Answers`). A link may drop and come back between any two calls.

**Undefined behaviour** of the C++ code is an outcome of its own (`Mms.Outcome`), not an exception. A conversion is
undefined exactly if it gets to a `mag` structure that is empty or starts with an access error (`Mms.UndefinedExactly`),
and a server may well send one (`EndToEnd.DegenerateMagIsServed`). A poll of data objects is undefined exactly if it gets
to such a value (`Readings.PollUndefinedExactly`), and a poll of datasets exactly if it gets to such a value or to a
dataset that is read over a link found down, whose missing object is used (`Readings.DatasetsPollUndefinedExactly`,
`Client.ModePollUndefinedExactly`). A method requires that its own poll or conversion is not undefined; the values, the
link and the calls outside of it are arbitrary.

**The threads.** A step is one test, call or write of shared state. `Lifecycle.Run` executes any schedule of the caller, the
launcher, the reader and the link, so a lemma about `Run` for all event sequences is about every interleaving. The
sizes of a build and of a poll are bounded by arbitrary numbers. A flag records that a run has become undefined, in the
two ways above: exactly when is `Lifecycle.UndefinedExactly`, and that it happens, because a link drops between the test at
the start of a poll and the read of a dataset, is `Lifecycle.MissingObjectIsUsed`. Every result about runs is one about
the code for the runs that are not undefined; reading data objects one by one, only a degenerate `mag` structure makes one
so (`Lifecycle.ReadingObjectsIsDefined`). The polls of the client are among the runs of its reader, with the same number of
readings, the same recorded error and the same end (`PollSteps.PollIsARun`).

**Where the code does something that a reader might not expect**, the model follows the code:

- the token `0x` alone, or followed by no hexadecimal digit, reads 0 (`OsiSelector.BareHexPrefix`); an upper-case `0X`
  prefix is read in base 10, so `0X12` reads 0 (`OsiSelector.DecimalPrefixDecides`);
- an error recorded on a connected connection is never cleared by the poll loop: the client stays silent until it
  makes a new connection, which it does only when a poll finds the link down (`Lifecycle.ErrorGatesEveryRun`);
- a member whose first match in the selection has an empty label counts as unselected, and may be labelled by the
  fallback (`Selection.DatasetLabels`);
- imports only add: a reconfiguration never removes a server, a datapoint or a dataset (`Configuration.ImportsAccumulate`);
- a reconfiguration whose import throws leaves the plugin without clients, and one that does not parse leaves
  everything as it was (`Plugin.PluginReconfigure`);
- without a callback, the datapoints given to the plugin are never freed (`Client.IEC61850Client.SendData`).

## Model

| member | source | states |
|---|---|---|
| Mms.ConvertsIffMatches | src/iec61850_client.cpp:223-336 | The conversion returns exactly when a recursive match of value and names holds (sizes agree everywhere it looks, only supported types there, `mag` structures non-empty and not starting with an access error), and returns null exactly for an access error |
| Mms.ConvertEachAt | src/iec61850_client.cpp:258-265 | Child i of a converted structure is what element i converts to along name i; so a null child stays at its own position |
| Mms.ConvertEachPrefix | src/iec61850_client.cpp:258-265 | The first element, in order, that does not return decides the outcome of a structure |
| Mms.ConversionKeepsLeaves | src/iec61850_client.cpp:223-336 | At every path of child indices the datapoint holds the leaf that the value holds there, `mag` structures being transparent |
| Mms.LeafPayloads | src/iec61850_client.cpp:271-318 | Type by type: true converts to 1 and false to 0; a float, an unsigned, an integer and a number of seconds to themselves; a string and the printed form of a bit string to their text; an access error to null |
| Mms.MagStandsForFirst | src/iec61850_client.cpp:246-251 | A `mag` structure converts to what its first element converts to, under the mapping of `mag.` and the name of that |
| Mms.MappedNames | src/iec61850_client.cpp:32-39 | What the six mapped names stand for, and that every other name stays |
| Mms.MagTailsAreIgnored | src/iec61850_client.cpp:246-251 | Two values that differ only in elements of `mag` structures after the first, with the same counts, convert alike, whatever those elements are |
| Mms.SafeMagsAreDefined | src/iec61850_client.cpp:246-251 | A value none of whose visited `mag` structures is empty or starts with an access error never meets undefined behaviour |
| Mms.UndefinedExactly | src/iec61850_client.cpp:246-251 | The behaviour is undefined if and only if the conversion gets to a `mag` structure that is empty or starts with an access error, everything converted before it matching |
| Mms.ThrowsExactly | src/iec61850_client.cpp:223-336 | The conversion throws an error if and only if the first element that does not match, at the depth where the recursion gets to it, is one of another size, null or of this unsupported type, and that error is what is thrown |
| Mms.ConversionNames | src/iec61850_client.cpp:325-333 | No node of a converted tree, at any depth, has a name that is a key of the mapping; the root is named by the mapping of its own name unless it is a `mag` structure |
| Mms.WithTypeAddsOneNode | src/iec61850_client.cpp:207-221 | A structured datapoint gets one node named `do_type` that holds the type, in front of its children, and nothing else changes; a scalar and null stay as they are |
| Mms.ObjectNames | src/iec61850_client.cpp:190-205 | The same for a converted data object: no mapped name at any depth, and the mapped label as its name for every label but `mag` |
| Mms.ObjectOutcomes | src/iec61850_client.cpp:190-205 | A missing value gives null, whatever the names; otherwise a missing name tree throws; otherwise the object throws and is undefined exactly as its conversion, and what it converts to gets the type |
| Mms.SinglePointStatus | src/iec61850_client.cpp:190-336 | A single point status (section 7.3.2 of IEC 61850-7-3:2010), read as a structure of `stVal`, `q` and `t`, becomes type, value 0 or 1, quality and time, in this order |
| Mms.MeasuredValue | src/iec61850_client.cpp:190-336 | The same for a measured value with `mag.f`, `q` and `t` (section 7.4.2) |
| Datapoints.Datapoint.constructor | src/iec61850_client.cpp:146-167 | A new datapoint has this name and value and owns itself and what its children own |
| Datapoints.CreateDatapoint | src/iec61850_client.cpp:146-156 | One fresh object that represents the leaf |
| Datapoints.CreateComplexDatapoint | src/iec61850_client.cpp:158-167 | One fresh object that represents the structure over the given children, and owns what they own |
| Datapoints.BuildDatapointFromMms | src/iec61850_client.cpp:223-336 | The allocating, renaming recursion refines the conversion function: it throws exactly the error the function says, and otherwise returns fresh objects that represent exactly the tree the function says; everything allocated is owned by the result |
| Datapoints.BuildEach | src/iec61850_client.cpp:257-265 | The loop over the elements, with the same refinement and ownership |
| Datapoints.InsertTypeInDatapoint | src/iec61850_client.cpp:207-221 | The in-place insertion turns a representation of a tree into one of the tree with the type node at index 0, with one fresh object at most |
| Datapoints.ConvertMmsToDatapoint | src/iec61850_client.cpp:190-205 | The conversion of a data object refines its function: a null value gives null, whatever the names; otherwise the typed tree, in fresh objects |
| Datapoints.OwnsOneObjectPerNode | src/iec61850_client.cpp:223-336 | A datapoint owns exactly as many objects as its tree has nodes |
| Datapoints.RepresentsMeans | src/iec61850_client.cpp:146-167 | What it means that an object represents a tree: same name, same scalar, or as many children in the same order, each owned and representing the child of the tree; null exactly for no tree |
| Datapoints.OwnedIsReachable | src/iec61850_client.cpp:223-336 | Every object owned is found along some path of child indices |
| Datapoints.OnePathToEachObject | src/iec61850_client.cpp:223-336 | ... and along no other |
| Connection.WalkFindsNames | src/iec61850_client_connection.cpp:141-176 | Over a link that stays up, the walk finds exactly the names of the server's directory, for every finite directory, even a cyclic one |
| Connection.WalkPrunesNames | src/iec61850_client_connection.cpp:141-176 | Over any link, wherever it drops, also between the test of the link and the directory call, the walk only loses whole levels: what it builds has the names of the directory, with some lists of children empty |
| Connection.WalkRecordsLastError | src/iec61850_client_connection.cpp:141-191 | Over any link, the walk leaves recorded the error code of the last directory call that it made, and the earlier code if the link was down at its first test |
| Connection.StepOfWalk | src/iec61850_client_connection.cpp:154-173 | One round of the loop over a directory extends the walk by exactly one attribute and its subtree |
| Connection.IEC61850ClientConnection.constructor | src/iec61850_client_connection.cpp:44-60 | Opening records the error code of the connect call |
| Connection.IEC61850ClientConnection.IsConnected | src/iec61850_client_connection.cpp:38-42 | Answers the state of the link at this call, and does not touch the recorded error |
| Connection.IEC61850ClientConnection.GetDataDirectory | src/iec61850_client_connection.cpp:178-191 | Gives the directory entry, or null if there is none or the link is down at this call, and overwrites the recorded error |
| Connection.IEC61850ClientConnection.BuildNameTree | src/iec61850_client_connection.cpp:141-176 | Appends to the children of the node exactly what the walk finds, leaves its name and earlier children alone, and leaves the clock and the recorded error as the walk says; a null node is left alone |
| Connection.IEC61850ClientConnection.GetDoPathListWithFCFromDataset | src/iec61850_client_connection.cpp:193-217 | The members of the dataset in the server's order; nothing when the dataset is unknown or the link is down at the test or at the call; the recorded error is overwritten exactly if the call is made |
| Connection.IEC61850ClientConnection.ReadDO | src/iec61850_client_connection.cpp:100-116 | A null wrapper, and the recorded error left alone, exactly when the test finds the link down; otherwise the value of the read, whose error code is recorded |
| Connection.IEC61850ClientConnection.ReadDataset | src/iec61850_client_connection.cpp:118-139 | The same for a dataset |
| EndToEnd.NamesOfServed | src/iec61850_client_connection.cpp:141-176 | The names below a path are those of the typed attributes served there, at every depth |
| EndToEnd.ShapedValuesConvert | src/iec61850_client.cpp:223-336 | A value with the shape of its names: its conversion is undefined exactly if it gets to a degenerate `mag` structure; otherwise it returns, or throws exactly the first unsupported type that it visits |
| EndToEnd.DegenerateMagIsServed | src/iec61850_client.cpp:246-251 | An input that fails: a server that puts an access error in the place of `mag.f` sends an instance of its own model, of the right shape, whose conversion is undefined |
| EndToEnd.WalkedTreesConvert | src/iec61850_client_connection.cpp:141-176 | End to end: for every served data model, every instance of it and a link that is up during the walk, the tree built by the walk has the shape of the value, and the conversion never meets a structure mismatch: it is undefined if it gets to a degenerate `mag` structure, and otherwise returns or throws for the first unsupported type visited |
| ServedModels.EveryModelIsServed | src/iec61850_client_connection.cpp:141-176 | Every finite data model with dot-free, distinct sibling names has a directory that serves it, so the end-to-end result is about all of them |
| Selection.Find | src/iec61850_client.cpp:525-526 | `find` gives the first occurrence, and `npos` exactly if there is none |
| Selection.AfterLastDot | src/iec61850_client.cpp:551-556 | The dot-free part after the last dot, exactly if there is a dot |
| Selection.ExtractionNeverThrows | src/iec61850_client.cpp:504-513 | For every string whatever, brackets missing or reversed, the wrapping 64-bit arithmetic of the extraction never gives an out-of-range start, and gives these two parts |
| Selection.FirstClosingBracket | src/iec61850_client.cpp:507-508 | Where the first closing bracket is found, whether before or after the first opening one |
| Selection.ExtractionRoundTrip | src/iec61850_client.cpp:504-513 | `path[FC]` gives back both parts exactly when the path holds no bracket and the constraint no closing one |
| Selection.FirstMatch | src/iec61850_client.cpp:524-534 | The first selection entry whose dot-prefixed name occurs in the path, and none exactly if none does |
| Selection.SelectedAfterDot | src/iec61850_client.cpp:525-526 | An entry selects a path exactly if its name stands in the path right after a dot |
| Selection.DoNameIsLastComponent | src/iec61850_client.cpp:551-556 | The fallback name of a path is its last component, and `noName` without a dot |
| Selection.DatasetLabels | src/iec61850_client.cpp:490-566 | For every member list and selection: one entry per member in the server's order, with its path and constraint; the label is that of the first match, or empty, unless all would be empty: then the last component of its path; the label is the name at the root of its name tree |
| Selection.DatasetTypes | src/iec61850_client.cpp:524-566 | The type and the type id of a member are those of the first entry that selects its path; a member that none selects has no type and the unknown id; the fallback changes neither |
| LocalData.BuiltLabelsAreRoots | src/iec61850_client.cpp:490-566 | Whatever a dataset was built from, over any link, the label of every entry is the name at the root of its tree |
| LocalData.BuiltMeans | src/iec61850_client.cpp:490-566 | In terms of the configured selection and of the server's list: entry i has the path and the constraint of member i, a pruning of the names below that path under its label, and the type, id and label of the first configured data object that selects the path, or the last component of the path if nothing is labelled |
| LocalData.SteadyMeans | src/iec61850_client.cpp:490-566 | Over a link that stays up there is an entry for every member, with all the names below its path |
| LocalData.SameButTreesMeans | src/iec61850_client.cpp:474-485 | That local data is the same but for its trees means the same labels, types, ids, paths and constraints in the same order |
| LocalData.ViewHasParts | include/iec61850_client_config.h:105-112 | An entry has the parts of its configuration and the name tree that its node stands for |
| Readings.StopsAt | src/iec61850_client.cpp:457-468 | The first entry whose conversion does not return |
| Readings.ReadingsArePrefix | src/iec61850_client.cpp:457-468 | Fewer entries send a prefix of the readings |
| Readings.ReadingInOrder | src/iec61850_client.cpp:457-468 | Entry i contributes right after the entries before it, from its own value, and one reading exactly if it is not skipped and does not convert to null |
| Readings.ExportedValue | src/iec61850_client.cpp:170-205 | A value is exported as one reading named for its datapoint exactly if it converts to that datapoint, as nothing if it is skipped or converts to null, and throws what its conversion throws |
| Readings.ObjectsReadInOrder | src/iec61850_client.cpp:417-430 | Over any link: the test for object i is the call after one for each object before it and one more for each of them that was answered; it decides whether the object is skipped or read at its own path and constraint with the next call |
| Readings.PollThrowsExactly | src/iec61850_client.cpp:417-469 | A poll throws an error if and only if some value does, and all before it return |
| Readings.ObjectsRecordLastError | src/iec61850_client.cpp:417-430 | Over any link, a poll of data objects leaves recorded the error code of its last read that was answered, and the earlier code if there was none |
| Readings.ObjectsAreReadOnce | src/iec61850_client.cpp:417-430 | Over a link that stays up it makes one test and one read for each object up to the first whose conversion does not return, and no more |
| Readings.DatasetsRecordLastError | src/iec61850_client.cpp:432-469 | The same for the error recorded by a poll of datasets |
| Readings.OnlyArraysAreSplit | src/iec61850_client.cpp:450-469 | Anything but an array with one element per entry throws and sends nothing, a structure included; otherwise the poll is that of the elements at the index of their entry |
| Readings.DatasetsInOrder | src/iec61850_client.cpp:432-440 | A dataset whose turn comes is sent right after those before it, from its own read, with the calls after theirs; those after it follow if it returns, and none do if not |
| Readings.DatasetSplit | src/iec61850_client.cpp:442-469 | The readings sent for a dataset are the contributions of the members with a non-empty label and a non-null conversion, in member order, each from the element at its own index; if a conversion throws, what was sent is a prefix of them |
| Readings.PollNames | src/iec61850_client.cpp:417-430 | Every reading that a poll of data objects sends comes from one entry and its value, has no mapped name at any depth, and has the mapped label of that entry for asset name unless the label is `mag` |
| Readings.DatasetsPollNames | src/iec61850_client.cpp:432-469 | The same of every reading that a poll of datasets sends, for the member and the dataset that it comes from |
| Readings.PollUndefinedExactly | src/iec61850_client.cpp:417-430 | A poll of data objects is undefined exactly if some value that it gets to leads to a degenerate `mag` structure, all values before it being skipped, null or fitting; and it returns exactly if all values are so |
| Readings.DatasetReadUndefinedExactly | src/iec61850_client.cpp:442-469 | The read of a dataset is undefined exactly if the link is found down, or if the value is an array of the right size with such an element; and it returns exactly if the link is up and an array of the right size with fitting elements is read |
| Readings.DatasetsPollUndefinedExactly | src/iec61850_client.cpp:432-440 | A poll of datasets is undefined exactly if the read of one of them is and all reads before it return |
| Readings.Gateway.Ingest | src/iec61850.cpp:65-74 | With a callback the reading is delivered and its objects handed over; without one nothing is delivered and the objects stay allocated |
| Client.IEC61850Client.constructor | src/iec61850_client.cpp:41-60 | The local data is a copy of the configured data, in order; there is no connection and no dataset yet; so the client is consistent: no dataset but the selected ones, and every name tree carries its label at the root |
| Client.IEC61850Client.BuildTree | src/iec61850_client.cpp:477-482 | A fresh tree that is a pruning of the server's names, and equals them over a link that stays up |
| Client.IEC61850Client.BuildLocalTrees | src/iec61850_client.cpp:474-485 | Every local datapoint gets a fresh tree under its label; its label, type, path and constraint do not change |
| Client.IEC61850Client.BuildMember | src/iec61850_client.cpp:499-537 | The entry of one member: extraction, tree and first match, as the selection says |
| Client.IEC61850Client.FindSelected | src/iec61850_client.cpp:524-534 | The loop with its early exit finds exactly the first match |
| Client.IEC61850Client.SelectAll | src/iec61850_client.cpp:549-563 | The in-place fallback relabels every entry and the root of its tree, and shares no tree |
| Client.IEC61850Client.NoDOSelected | src/iec61850_client.cpp:539-547 | The flag is set exactly if no entry has a label |
| Client.IEC61850Client.BuildMembers | src/iec61850_client.cpp:499-537 | One entry per member, in order, each with a tree of its own |
| Client.IEC61850Client.BuildDataset | src/iec61850_client.cpp:490-563 | The entries of a dataset are those that the selection determines; over a link that stays up they depend on the server's model and the selection alone |
| Client.IEC61850Client.BuildConfigurationNameTrees | src/iec61850_client.cpp:471-569 | A build changes nothing of the local data but its trees, whose roots carry the labels; rebuilds exactly the selected datasets, whose labels are their roots; leaves recorded the error code of its last call that was not a test; and over a link that stays up leaves the client holding exactly what the server's model and the configuration determine |
| Client.IEC61850Client.CreateConnection | src/iec61850_client.cpp:118-130 | An existing connection is kept; otherwise a fresh one is opened |
| Client.IEC61850Client.DestroyConnection | src/iec61850_client.cpp:132-143 | No connection is left |
| Client.IEC61850Client.InitializeConnection | src/iec61850_client.cpp:96-116 | The loop makes a fresh connection per round and goes on exactly while no stop is seen and the link is down at the test that ends the round, which is given for every round; over any link, label, path and constraint of local data never change and the client stays consistent; a last round that builds leaves exactly the selected datasets; and over a link that stays up it leaves the client settled, with local data that is a function of the model and of the earlier copies; the error recorded since is that of the build, or of the opening if nothing was built |
| Client.IEC61850Client.Reconnect | src/iec61850_client.cpp:96-116 | Reconnection is idempotent: a client that a full build has left with these entries and datasets has the same entries, the same datasets and the same dataset keys, which are the selected ones, after another full build from the same model |
| Client.SettledIsDetermined | src/iec61850_client.cpp:471-569 | The entries that a settled client holds are a function of the server's model and of the configuration |
| Client.IEC61850Client.SendData | src/iec61850_client.cpp:170-188 | Who gets the datapoint: deleted without a receiver, nothing for null, delivered and handed over with a callback, left allocated without one |
| Client.IEC61850Client.ExportValue | src/iec61850_client.cpp:190-205 | Converts and sends one value as the specification says; if it converts and can be taken, nothing of it stays allocated |
| Client.IEC61850Client.SplitDataset | src/iec61850_client.cpp:457-468 | The index-lockstep loop sends exactly the readings of the specification, as far as conversions return, and throws what it says |
| Client.IEC61850Client.ReadAndExportOneDataset | src/iec61850_client.cpp:442-469 | A value that is no array of the right size throws and sends nothing; otherwise the split of the value read; with a receiver no object is left over. Required is only that the behaviour is defined: the read returns an object and no degenerate `mag` is reached |
| Client.IEC61850Client.ReadAndExportAllDO | src/iec61850_client.cpp:417-430 | Every data object is read in order and exported; those read over a link that is down are skipped; the first conversion that throws ends it; the calls made and the error recorded are those of the specification |
| Client.IEC61850Client.ReadAndExportAllDatasets | src/iec61850_client.cpp:432-440 | The datasets are polled one after the other; what is sent is the concatenation up to the first that throws, whatever the link does afterwards; the calls made and the error recorded are those of the specification |
| Client.ModePollUndefinedExactly | src/iec61850_client.cpp:396-414 | A poll in either mode is undefined exactly under the condition on link and values that it requires |
| Client.IEC61850Client.ReadAndExportMms | src/iec61850_client.cpp:383-415 | A link that is down leads to the connection loop, to a new connection and what that loop leaves, and sends nothing; a recorded error leads to nothing at all and stays recorded; otherwise exactly the poll of the configured mode is delivered, every reading named for the entry that it comes from, and the error of its last read is recorded; in all cases the client stays consistent. Required is only that the poll that will be made gets to no degenerate `mag` structure and, in dataset mode, to no read over a link found down |
| Lifecycle.NeverCrashes | src/iec61850_client.cpp:69-116 | In every interleaving no null connection is used, no thread is joined that is not joinable, and no joinable thread object is overwritten, in runs that are not undefined |
| Lifecycle.UndefinedExactly | src/iec61850_client.cpp:442-469 | A run becomes undefined exactly at a step that uses the missing object of a dataset read over a link found down, or converts a degenerate `mag` structure |
| Lifecycle.ReadingObjectsIsDefined | src/iec61850_client.cpp:417-430 | When data objects are read one by one, a run without degenerate values is never undefined, whatever the link does |
| Lifecycle.MissingObjectIsUsed | src/iec61850_client.cpp:442-450 | In dataset mode there is a run that becomes undefined: the link drops between the test at the start of a poll and the read |
| Lifecycle.RunKeeps | src/iec61850_client.cpp:69-144 | The invariant behind it, relating the positions of the three threads, the flags and the connection, holds in every run |
| Lifecycle.InitKeeps | src/iec61850_client.cpp:96-143 | A step of the connection loop changes the connection alone, uses no null pointer, and the loop is left with a connection in place |
| Lifecycle.LoopGoesOn | src/iec61850_client.cpp:96-116 | The connection loop: it is left only with the stop order set or the link up at its test, a link down there begins another round, the trees are built exactly over a link that is up, and a call of the build records its error code |
| Lifecycle.LoopIsLeft | src/iec61850_client.cpp:96-116 | Over runs: neither launcher nor reader leaves the loop with the link down, unless the stop order is set |
| Lifecycle.LaunchConnects | src/iec61850_client.cpp:87-94 | Over runs: a launcher that is out of the loop has made a connection |
| Lifecycle.CallsAreObeyed | src/iec61850_client.cpp:69-77 | Start makes the launcher, which begins to connect; stop, called with or without start, sets the stop order |
| Lifecycle.PollGoesOn | src/iec61850_client.cpp:357-430 | Where every turn of the reader leads: polls and rests in turn while active, the two tests of a poll, reads that are answered, passed over or undefined, and a throw that ends the poll |
| Lifecycle.DownLinkReconnects | src/iec61850_client.cpp:383-390 | Over runs: between a poll that finds the link down and the next rest of the reader, at least one new connection is made |
| Lifecycle.PollReadsAll | src/iec61850_client.cpp:417-469 | Over runs: while the link stays up and nothing throws, all objects of a poll were read, and the readings begun were sent, when the reader rests |
| PollSteps.PollIsARun | src/iec61850_client.cpp:383-469 | From every reachable state in which a poll begins, the reader and the link can move as the poll of the client does, in either mode and over any link that is up at its start: the same number of readings is sent, the run is undefined exactly if the poll is, the reader rests otherwise, and an error is recorded exactly if the poll leaves one; so what holds of every run holds of the polls of the client |
| Lifecycle.OtherStepsIgnoreConnection | src/iec61850_client.cpp:74-116 | A step that is not counted as a use neither changes the connection nor depends on it |
| Lifecycle.OneUser | src/iec61850_client.cpp:340-394 | In every reachable state at most one thread is about to use the connection |
| Lifecycle.HandOver | src/iec61850_client.cpp:69-94 | Only the owner uses the connection: the launcher before the reader starts, the reader until both threads have ended and are joined, then the caller; no step hands it back |
| Lifecycle.HandOverIsOneWay | src/iec61850_client.cpp:69-94 | ... nor does any run |
| Lifecycle.ReaderIsJoined | src/iec61850_client.cpp:346-355 | When stop tests the activation flag, it is set exactly if there is a reader to join; so no reader is left unjoined |
| Lifecycle.NothingAfterStop | src/iec61850_client.cpp:62-85 | After stop, whatever happens, another stop included, nothing but the caller's position changes: no read, no reading sent, no connection |
| Lifecycle.StopIsFinal | src/iec61850_client.cpp:74-85 | In every run in which stop returned: both threads have ended and are joined or were never started, the connection is null, and this is for good |
| Lifecycle.InitEnds | src/iec61850_client.cpp:96-116 | Once the stop order is set every step of the connection loop counts down: no further iteration begins, except one if the thread was about to test the link |
| Lifecycle.AtMostOneReconnection | src/iec61850_client.cpp:346-390 | Over runs: once stop has deactivated reading, at most one more connection is made, in any schedule and wherever the reader was caught |
| Lifecycle.StepWorks | src/iec61850_client.cpp:74-116 | While stop runs, no step of anyone adds to an explicit measure, and every step of the caller, of the launcher under the stop order, and of the deactivated reader takes from it |
| Lifecycle.StepsAreBounded | src/iec61850_client.cpp:340-390 | So in any schedule these threads take no more steps than the measure, even if caught in a reconnection or a poll |
| Lifecycle.WorkIsBounded | src/iec61850_client.cpp:340-390 | The measure is bounded by the sizes of a build and of a poll alone |
| Lifecycle.NoDeadlock | src/iec61850_client.cpp:74-85 | While stop has not returned, the caller can step or the thread it waits for can |
| Lifecycle.OthersKeepCounting | src/iec61850_client.cpp:74-85 | What a thread can do next, no step of another takes away |
| Lifecycle.StopReturns | src/iec61850_client.cpp:74-85 | In runs that are not undefined: stop returns within as many fair rounds as there is work left, in whatever order the threads take their turns and whatever the link does |
| Lifecycle.StopReturnsInEveryRun | src/iec61850_client.cpp:74-116 | After every run in which stop was called, it returns within a number of fair rounds that depends on the sizes alone, as long as the run is not undefined |
| Lifecycle.ErrorGatesEveryRun | src/iec61850_client.cpp:383-394 | From any poll, in any run, that begins with a recorded error over a link that is up: whatever the link and the threads do, nothing is read or sent and the error stays recorded on the same connection until a new connection is made |
| Lifecycle.ErrorGatesForGood | src/iec61850_client.cpp:383-394 | While the link stays up no new connection is made, so this holds for good, and only stop takes the connection away, after the reader has ended |
| Configuration.KeysIdentifyServers | include/iec61850_client_config.h:155-159 | Two servers with IPv4 addresses (section 6.3 of RFC 3493) have the same key exactly if address and port are the same, negative ports included |
| Configuration.LastConnectionWins | src/iec61850_client_config.cpp:137-182 | Over every list of accepted connections: the entry of a server is the one at the last index given for it, and an entry not given again stays as it was |
| Configuration.ConnectionsImported | src/iec61850_client_config.cpp:137-182 | The connections before the first that is ill-formed or has no valid address are imported, without a throw; that one throws, and none after it is imported |
| Configuration.AddressesExactly | src/iec61850_client_config.cpp:660-666 | Four printed numbers between dots are an address exactly if each is at most 255; three are none (section 6.3 of RFC 3493) |
| Configuration.OctetsAreShort | src/iec61850_client_config.cpp:660-666 | A piece that is empty, longer than three characters or not of decimal digits makes no address |
| Configuration.RecordsImported | src/iec61850_client_config.cpp:449-482 | If record k is the first ill-formed one, the datapoints are those before the import and the first k values, in order, with a throw; without an ill-formed one, all values, without |
| Configuration.DatasetsImported | src/iec61850_client_config.cpp:484-516 | The datasets before the first that is ill-formed or has an empty reference are imported, without a throw; that one throws |
| Configuration.LastDatasetWins | src/iec61850_client_config.cpp:551-602 | The data objects of a dataset are those of the last record given for its reference, and those of a reference not given again stay |
| Configuration.ImportThrowsExactly | src/iec61850_client_config.cpp:38-77 | An import throws if and only if a mandatory part is missing or ill-formed, an optional part is ill-formed, a connection is not accepted, a datapoint is ill-formed, or a dataset is ill-formed or has an empty reference |
| Configuration.ImportedParts | src/iec61850_client_config.cpp:38-77 | What an import leaves in every field, whether it throws or not: level and asset name always, with their defaults; the rest as far as it got |
| Configuration.OneEntryPerServer | src/iec61850_client_config.cpp:137-182 | No two entries of the dictionary are for the same server |
| Configuration.ImportsAccumulate | src/iec61850_client_config.cpp:38-77 | An import, whether it throws or not, keeps every server and dataset key and every earlier datapoint, in front |
| Configuration.IEC61850ClientConfig.ImportJsonConnections | src/iec61850_client_config.cpp:137-182 | The loop of assignments enters connections one by one until one is not accepted |
| Configuration.IEC61850ClientConfig.ImportJsonExchangedData | src/iec61850_client_config.cpp:449-482 | The loop appends records one by one until one is ill-formed |
| Configuration.IEC61850ClientConfig.ImportJsonExchangedDatasets | src/iec61850_client_config.cpp:484-516 | The loop writes datasets one by one until one is ill-formed or has an empty reference |
| Configuration.ApplicationAfterImport | src/iec61850_client_config.cpp:375-397 | An import of the application layer throws exactly for an ill-formed period or mode; a given period is kept modulo 2^32, even if the mode then throws; the mode is by dataset exactly for the word `dataset`; what is not given stays as it was |
| Configuration.IEC61850ClientConfig.ImportConfig | src/iec61850_client_config.cpp:38-77 | The import leaves exactly the state that the specification gives, wherever it throws |
| Plugin.IEC61850.constructor | src/iec61850.cpp:15-20 | An empty configuration and no client |
| Plugin.IEC61850.SetConfig | src/iec61850.cpp:22-29 | One write of the configuration, with the outcome of the import |
| Plugin.AfterStartEvents | src/iec61850.cpp:45-53 | Starting a client, with the end of the one it replaces, leaves exactly one more or the new one in the place of the old, starts no client twice, ends none unstopped, and writes no configuration |
| Plugin.Replacing | src/iec61850.cpp:47 | Assigning a client under a key drops exactly the client that was there |
| Plugin.IEC61850.StartOne | src/iec61850.cpp:45-53 | A client for one server, made and started; one that was there is stopped and destroyed after the new one is made |
| Plugin.IEC61850.Start | src/iec61850.cpp:40-54 | After start, the keys of the clients are those of the server dictionary, and every client refers to the configuration as it was made |
| Plugin.IEC61850.StopClients | src/iec61850.cpp:58-60 | Every client is stopped, and its connection gone, before any is destroyed |
| Plugin.IEC61850.Stop | src/iec61850.cpp:56-63 | There is a moment at which every client was stopped and none is destroyed yet; in the end no client is left |
| Plugin.LiveExactly | src/iec61850.cpp:40-63 | A client exists after a trace exactly if it was made and not destroyed since |
| Plugin.StableMeans | src/iec61850.cpp:40-63 | What every call keeps, spelled out: no write of the configuration while a client existed, no start twice or after a stop, no end without a stop, the clients that exist are those of the map, each started, for the server of its key, sending to this plugin, and with the configuration as it saw it |
| Plugin.OneClientPerServer | src/iec61850.cpp:40-54 | In every stable state no two clients are for the same address and port |
| Plugin.PluginInit | src/plugin.cpp:54-75 | The plugin without clients and with exactly what the import gives; fails exactly if the import throws |
| Plugin.PluginStart | src/plugin.cpp:80-90 | After start there is a client for every server |
| Plugin.PluginRegisterIngest | src/plugin.cpp:95-103 | Throws exactly for a null handle; otherwise the data pointer is kept and readings are delivered from then on exactly if the callback is not null |
| Plugin.PluginReconfigure | src/plugin.cpp:117-138 | A null handle is ignored; a text that does not parse changes nothing; otherwise the configuration is what the import gives, and if it throws there is no client left, and if not there is one for every server |
| Plugin.PluginShutdown | src/plugin.cpp:143-158 | No client is left |
| Plugin.PluginCall | src/plugin.cpp:80-138 | Every call, throwing or not, keeps this: the configuration was written only while no client existed, every client sees its parameters as they were when it was made, none was started twice or after it was stopped, and there is a client for each server or for none |
| Plugin.RunPlugin | src/plugin.cpp:54-158 | The same after every run of calls from plugin_init on, and no client is left after shutdown |
| OsiSelector.TokensOfWeave | src/iec61850_client_config.cpp:333-373 | Tokens written between any separators are found again |
| OsiSelector.WeaveOfTokens | src/iec61850_client_config.cpp:333-373 | Conversely, every text is its tokens, each a non-empty delimiter-free run, written between its separators, which hold delimiters only and are not empty between two tokens |
| OsiSelector.DelimitersExactly | src/iec61850_client_config.cpp:339 | The delimiters are the space, the comma, the dot and the hyphen |
| OsiSelector.StrTokR | src/iec61850_client_config.cpp:338-370 | One call of the tokenizer finds the next maximal delimiter-free run and overwrites only the delimiter after it |
| OsiSelector.NextToken | src/iec61850_client_config.cpp:338-370 | Resuming in the buffer it has cut, it finds the tokens of the original text one after the other |
| OsiSelector.StoreByte | src/iec61850_client_config.cpp:342-369 | One round of the loop: too many bytes is tested first, then the number; one cell is written if and only if it is a byte |
| OsiSelector.ParseOsiSelector | src/iec61850_client_config.cpp:333-373 | The in-place parser has the outcome that split-and-map determines, returns the count, writes exactly the bytes before the error, leaves later cells alone, and cuts the input after the tokens it reached |
| OsiSelector.ParseOsiPSelector | src/iec61850_client_config.cpp:312-317 | The parser with 16 cells |
| OsiSelector.ParseOsiSSelector | src/iec61850_client_config.cpp:319-324 | The parser with 16 cells |
| OsiSelector.ParseOsiTSelector | src/iec61850_client_config.cpp:326-331 | The parser with 4 cells |
| OsiSelector.SucceedsExactly | src/iec61850_client_config.cpp:333-373 | A parse succeeds exactly when the maximal delimiter-free runs are at most the limit and each reads as 0..255, and gives those bytes in order |
| OsiSelector.FirstBadTokenDecides | src/iec61850_client_config.cpp:333-373 | The first token that is no byte, or the first beyond the limit, decides the error |
| OsiSelector.ByteTokensExactly | src/iec61850_client_config.cpp:347-366 | A token reads as a byte exactly if it is `0x` and a possibly empty run of hexadecimal digits of value at most 255, or else white space, an optional plus sign and a run of decimal digits of value at most 255, each with anything after it (section 7.22.1.4 of ISO/IEC 9899:2011) |
| OsiSelector.DecimalPrefixDecides | src/iec61850_client_config.cpp:347-366 | Past white space and a plus sign, a token without the prefix `0x` is read by its leading decimal digits; what follows them is ignored |
| OsiSelector.HexPrefixDecides | src/iec61850_client_config.cpp:347-366 | After `0x` a token is read by its leading hexadecimal digits |
| OsiSelector.BareHexPrefix | src/iec61850_client_config.cpp:347-366 | Without a hexadecimal digit after it, `0x` reads 0 |
| Numerals.DigitsExactly | src/iec61850_client_config.cpp:347-366 | Which characters are decimal and hexadecimal digits, of either case, and that each denotes its place among them |
| OsiSelector.SpacesExactly | src/iec61850_client_config.cpp:347-366 | The white space that is passed over before a number |
| OsiSelector.ReadsExactly | src/iec61850_client_config.cpp:347-366 | A number is a byte up to 255, exceeds a byte up to 2^64 - 1, and exceeds the integer from there on |
| OsiSelector.PrintedByteParses | src/iec61850_client_config.cpp:431-447 | A byte printed in decimal, or after `0x` with two hexadecimal digits each of either case, is one token and reads as that byte; the format of the log, `0x%02X`, is one of these |
| OsiSelector.SelectorRoundTrip | src/iec61850_client_config.cpp:333-373 | Any bytes, each printed in decimal or in hexadecimal with digits of either case, between any runs of delimiters, parse back: all of them within the limit, and otherwise the first ones up to the limit with the error for too many |
| Numerals.PrintIntInjective | include/iec61850_client_config.h:155-159 | Printed ports are equal only for equal ports, negative ones included |

## Left out

- Connection.IEC61850ClientConnection.ReadDataset: assumes that the library gives a dataset object even when the read fails; the code passes what it gives on without a test. The value in it may be missing.
- Client.IEC61850Client.ReadAndExportOneDataset: a link that is found down when a dataset is read is undefined behaviour, since the code dereferences what the read returns without a test; the method requires that its own poll does not meet it.
- Client.IEC61850Client.ReadAndExportMms: the same for the datasets of one poll, as far as it gets, in dataset mode only; a link may drop anywhere in the poll of data objects, and after any poll.
- Datapoints.BuildDatapointFromMms: requires that no `mag` structure it visits is empty or starts with an access error, which the code does not test.
- Lifecycle.StopReturns: is about runs that are not undefined, and about fair schedules; nothing is said about a scheduler that never runs a thread again.
- Lifecycle.NeverCrashes: says nothing about what follows the use of a missing dataset object or of a degenerate `mag` structure; assumes sequentially consistent accesses, `start` called once and before any `stop`, and threads that can be created; an exception thrown during a build is not modelled.
- PollSteps.PollIsARun: is about polls that find the link up. That the connection loops of the client and of the step system agree is stated law by law (`Client.IEC61850Client.InitializeConnection`, `Lifecycle.LoopGoesOn`), not run by run.
- Client.IEC61850Client.InitializeConnection: takes the answers that successive connections get as a list, at whose end the stop order is seen; the wait between rounds is left out.
- Client.IEC61850Client.BuildConfigurationNameTrees: a connection seen as down before the build and as up after it is polled without name trees, or with those of an earlier build; only the build itself is described.
- Client.IEC61850Client.ReadAndExportAllDatasets: takes the order of the keys of the map as an argument, so no particular order is claimed; a whole poll requires that it lists each key exactly once.
- Plugin.RunPlugin: the clients' threads do not run between the calls; the methods of a client do not modify the configuration, as their `modifies` clauses show.
- Plugin.PluginShutdown: the deallocation of the plugin object itself.
- Configuration.IEC61850ClientConfig.ImportConfig: starts from parsed records; JSON parsing and the tests for the presence and type of fields are one flag per record.
- The children of a name tree are values: they are constant in the source once they are attached to their parent.
- What an exception leaves allocated, beyond that it is nothing older than the call.
- The OSI parameters handed to the library before it connects, and the client of the library for datasets.
- The content of floating-point values and bit strings; the library gives the printed form of a bit string.
- Logging, apart from the format of a logged selector byte; the polling period and the sleeps.
- Whether the address test of the system accepts leading zeros, as the model does; this does not affect the distinctness of keys.
