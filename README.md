# EDHOC-Fuzzer core, modelled in Dafny

EDHOC-Fuzzer is a protocol state fuzzer for EDHOC, the Ephemeral Diffie-Hellman Over COSE
key exchange of RFC 9528. It learns a Mealy-machine model of an EDHOC implementation by
sending it abstract inputs through a mapper and classifying what comes back. This project
models the parts of the fuzzer that decide bytes, shapes and bookkeeping:

- The message layer of the mapper's message processor, in both copies of the code:
  - connection-identifier encoding and decoding (section 3.3.2 of RFC 9528);
  - recognising a message from the shape of its CBOR sequence;
  - the error-message shape and its construction;
  - cipher-suite selection and the SUITES_I checks (sections 5.2.2 and 6.3 of RFC 9528);
  - the pre-parsing of external authorization data (EAD, section 3.8 of RFC 9528);
  - the chunked derivation of KEYSTREAM_2 (section 5.3.2 of RFC 9528).
- The EDHOC layer of the CoAP stack:
  - the kid read out of an OSCORE option (section 6.1 of RFC 8613);
  - the EDHOC + OSCORE combined request payload (RFC 9668 and its draft 06 form);
  - the hand-off of exchanges to the mapper through bounded queues.
- The mapper around it:
  - the configuration's host, hexadecimal identifier and role rules;
  - the application-profile mode table;
  - the initial EDHOC state;
  - the Content-Format of sent messages;
  - the precedence of output classification;
  - the CoAP server's resource tree.
- Authentication:
  - the test vector with its cipher-suite list;
  - the test-vector authenticator;
  - the file-based authenticator's CRED / ID_CRED building and its registration of own and peer credentials.
- The generic state-fuzzing framework:
  - `${key}` property resolution with its cache;
  - the timing probe's doubling and binary search;
  - the command-line split at `--` and the argument-file rule;
  - the test runner's answer counting and printing, and the probe runner's non-determinism check;
  - the stepped execution context;
  - the is-alive wrapper and the set-once time and test limits;
  - the learning statistics.
- The two Python scripts that beautify learned DOT models.

Each Java class whose fields change becomes a Dafny `class` with the same fields. Pure
helpers become functions. Loops become methods with invariants, each proved against a
specification function. Exceptions are values of `Types.Exception` inside a `Result`, and
Java `null` is `Option.None`. The CBOR items that the code builds and reads use a definite-length
CBOR data model with a shortest-form encoder and a decoder (module `Cbor`), so that the
round trips are statements about bytes.

Constants of the EDHOC library (Californium's `Constants`), which is not part of this model, are
taken as follows:
- the message types are 0 for an error and 1 to 4 for message_1 to message_4;
- the error codes are UNSPECIFIED = 1 and WRONG_SELECTED_CIPHER_SUITE = 2;
- the EAD padding label is 0;
- the CRED types CWT / CCS / X509 are 0 / 1 / 2;
- the ID_CRED types KID / CWT / CCS / X5T / X5U / X5CHAIN are 0 to 5.

The last two agree with the option documentation in
`src/main/java/gr/ntua/softlab/edhocFuzzer/components/sul/mapper/config/authentication/AuthenticationConfig.java`.
The protocol versions are v14 to v19 and one value for every later version, because the code
only ever asks whether a version is at most v15, v17 or v19.

## Model

| member | source | states |
|---|---|---|
| IsAliveWrapper.Trace | src/main/java/gr/ntua/softlab/protocolStateFuzzer/components/sul/core/sulWrappers/AbstractIsAliveWrapper.java:31-39 | A run of steps gives exactly one output per reply of the wrapped system. |
| IsAliveWrapper.TraceShape | src/main/java/gr/ntua/softlab/protocolStateFuzzer/components/sul/core/sulWrappers/AbstractIsAliveWrapper.java:31-39 | Step i answers with the wrapped system's reply exactly when the wrapper started alive and every earlier reply reported the connection alive; otherwise it answers with the socket-closed output. |
| IsAliveWrapper.DeadStaysDead | src/main/java/gr/ntua/softlab/protocolStateFuzzer/components/sul/core/sulWrappers/AbstractIsAliveWrapper.java:20-39 | Once the wrapper is dead, every later step answers with the socket-closed output, until the next `pre`. |
| IsAliveWrapper.AbstractIsAliveWrapper.constructor | src/main/java/gr/ntua/softlab/protocolStateFuzzer/components/sul/core/sulWrappers/AbstractIsAliveWrapper.java:14-17 | Keeps the socket-closed output. Nothing has been forwarded or reset yet. |
| IsAliveWrapper.AbstractIsAliveWrapper.Pre | src/main/java/gr/ntua/softlab/protocolStateFuzzer/components/sul/core/sulWrappers/AbstractIsAliveWrapper.java:20-23 | Resets the wrapped system once and marks the wrapper alive. |
| IsAliveWrapper.AbstractIsAliveWrapper.Step | src/main/java/gr/ntua/softlab/protocolStateFuzzer/components/sul/core/sulWrappers/AbstractIsAliveWrapper.java:31-39 | When alive, the input is forwarded, the reply is returned and its `isAlive` becomes the new state. When dead, nothing is forwarded and the socket-closed output is returned. The output agrees with `Trace`. |
| AppProfiles.Build | src/main/java/com/github/protocolfuzzing/edhocfuzzer/components/sul/mapper/context/AppProfileBuilder.java:14-67 | The profile is built exactly for modes 1 to 6, and any other mode raises a RuntimeException. The auth methods are kept. message_4 is used exactly from mode 4 on. OSCORE is keyed except in modes 1 and 4. The combined request is supported exactly in modes 3 and 6. |
| AppProfiles.BuildDefault | src/main/java/com/github/protocolfuzzing/edhocfuzzer/components/sul/mapper/context/AppProfileBuilder.java:9-12 | The one-argument form enables all three options for the given auth methods. |
| AppProfiles.CombinedImpliesOscore | src/main/java/com/github/protocolfuzzing/edhocfuzzer/components/sul/mapper/context/AppProfileBuilder.java:24-60 | In every valid mode, supporting the combined request implies that EDHOC keys OSCORE. |
| AppProfiles.ModesDistinct | src/main/java/com/github/protocolfuzzing/edhocfuzzer/components/sul/mapper/context/AppProfileBuilder.java:24-60 | Two valid modes that give the same profile are the same mode. |
| AppProfiles.DefaultIsModeSix | src/main/java/com/github/protocolfuzzing/edhocfuzzer/components/sul/mapper/context/AppProfileBuilder.java:9-12 | The default profile is the profile of mode 6 and of no other mode. |
| BeautifyModel.RemoveToken | scripts/beautify_model.py:15-24 | A pattern token is accepted only when it starts with `i`, `o` or `l` followed by `_`, and an `i_` or `o_` token always is. An `i_` or `o_` token names its rest verbatim. An `l_` token must split at '/' into two parts. An empty token raises. |
| BeautifyModel.ParsedTokens | scripts/beautify_model.py:15-16 | Each comma-separated token is stripped and read, one result per token, and every read token has one of the three tags. |
| BeautifyModel.DictOfRemovePattern | scripts/beautify_model.py:5-26 | A None or empty pattern gives three empty sets. Otherwise the result is the reading of the stripped, comma-split pattern. |
| BeautifyModel.RemoveWalkOk | scripts/beautify_model.py:15-24 | The token loop succeeds exactly when every remaining token is well-formed. |
| BeautifyModel.RemoveWalkSets | scripts/beautify_model.py:15-24 | After the loop, a set holds exactly what it held before plus the payloads of the tokens carrying its tag. |
| BeautifyModel.TokensOk | scripts/beautify_model.py:15-24 | A token list is read exactly when each of its tokens is well-formed. |
| BeautifyModel.TokensSets | scripts/beautify_model.py:15-24 | The sets read from a token list hold exactly the payloads of its tokens, tag by tag. |
| BeautifyModel.RemovePatternSets | scripts/beautify_model.py:12-26 | A non-empty pattern is read exactly when all its tokens are well-formed. Each set then holds exactly the payloads with its tag. |
| BeautifyModel.ShouldRemoveLabel | scripts/beautify_model.py:83-85 | A label that does not split into input and output raises ValueError. A label listed whole is removed. |
| BeautifyModel.ShouldRemoveQuoted | scripts/beautify_model.py:83-85 | A quoted `"i / o"` label is removed exactly when its input, its output or the label itself is listed. |
| BeautifyModel.ReplaceLabel | scripts/beautify_model.py:93-100 | An empty label, or one without ` / `, is returned unchanged. The only failure is the ValueError of an unpacking into two parts. |
| BeautifyModel.ReplaceQuoted | scripts/beautify_model.py:93-100 | A quoted label `"i / o"` becomes the replaced input, ` / `, and the replaced output. An empty table leaves both parts as they are. |
| BeautifyModel.ShortLabel | scripts/beautify_model.py:110-112 | A shortened state label is quoted again, and what lies between its quotes is no longer than the original text. |
| BeautifyModel.Cleaned | scripts/beautify_model.py:108-112 | Cleaning a node keeps its name. |
| BeautifyModel.CleanNodes | scripts/beautify_model.py:108-116 | The node loop keeps exactly the nodes of the specification `KeptNodes`: states, shortened on request, and the start node. |
| BeautifyModel.CleanNode | scripts/beautify_model.py:109-116 | One pass of the node loop moves node `i` from the pending nodes to the kept ones, or drops it, and the whole stays `KeptNodes`. |
| BeautifyModel.KeptNodesSpec | scripts/beautify_model.py:108-116 | A node survives exactly when it is the cleaned form of a state or of the start node. |
| BeautifyModel.InitialEdge | scripts/beautify_model.py:124-128 | Without an override label (None or ""), the initial edge is kept as it is. The stored initial edge always keeps its endpoints. |
| BeautifyModel.ClassifyEdge | scripts/beautify_model.py:120-149 | An edge leaving the start node becomes the initial edge. Any other edge is never initial. A grouped edge's input and output are the two sides of its replaced label. |
| BeautifyModel.RolesOf | scripts/beautify_model.py:120-149 | Every edge gets its role. An edge gets the initial role exactly when it leaves the start node. |
| BeautifyModel.GroupEdges | scripts/beautify_model.py:119-151 | The edge loop computes the specification `EdgeInfoOf`. |
| BeautifyModel.EdgeInfoGroups | scripts/beautify_model.py:139-149 | Under each (source, destination, output), the grouping lists exactly the inputs of the matching grouped edges, in edge order. No group belongs to the start node, and no pair or output appears twice. |
| BeautifyModel.EdgeInfoInitial | scripts/beautify_model.py:124-128 | The stored initial edge is the last edge leaving the start node, with its label replaced when an override is given. There is none when no edge leaves the start node. |
| BeautifyModel.StackLabels | scripts/beautify_model.py:178-182 | There is one stacked label per recorded input. |
| BeautifyModel.StackLabelsSpec | scripts/beautify_model.py:178-182 | The stacked labels are exactly the `input / output` pairs recorded. |
| BeautifyModel.CombinedLabel | scripts/beautify_model.py:178-197 | `stack` joins the length-sorted stacked labels with the stack separator. `merge` joins the length-sorted merged labels with the label separator. Any other operation raises. |
| BeautifyModel.LabelWalk | scripts/beautify_model.py:213-224 | The label loop adds one label per group. |
| BeautifyModel.CreateNewGraph | scripts/beautify_model.py:154-226 | The method builds the graph of the specification `NewGraph`. |
| BeautifyModel.LabelWalkSpec | scripts/beautify_model.py:213-224 | The k-th new label is the padded combined label of the k-th group. |
| BeautifyModel.NewGraphEdges | scripts/beautify_model.py:60-226 | In the whole pipeline, the new graph has exactly one edge leaving the hidden start node, and it comes first. It is followed by one edge per (source, destination) pair, in first-seen order, labelled with that pair's padded combined label. |
| BeautifyModel.StrippedLines | scripts/beautify_model.py:234-235 | Each line is stripped of surrounding whitespace, one line out per line in. |
| BeautifyModel.FormatDotString | scripts/beautify_model.py:229-247 | The writer loop produces the text of the specification `FormatWalk` over the stripped lines. |
| BeautifyModel.FormatBody | scripts/beautify_model.py:239-247 | Body lines are written tab-indented, except that empty lines are dropped and start-node lines are held back. |
| BeautifyModel.FormatWellFormed | scripts/beautify_model.py:229-247 | A header, body and closing brace come out as: the header plus a blank line, the indented body, then the start-node lines just before the closing brace. |
| Cbor.AsInt32 | src/main/java/com/github/protocolfuzzing/edhocfuzzer/components/sul/core/protocol/MessageProcessorPersistent.java:1146-1151 | `AsInt32` succeeds exactly on an integer item, tags aside, whose value fits in 32 bits, and it returns that value. |
| Cbor.Decode | src/main/java/com/github/protocolfuzzing/edhocfuzzer/components/sul/core/protocol/MessageProcessorPersistent.java:2279 | `DecodeFromBytes` succeeds exactly when one item can be read and no bytes are left after it. |
| Cbor.ReadEncode | src/main/java/com/github/protocolfuzzing/edhocfuzzer/components/sul/core/protocol/MessageProcessorPersistent.java:51-57 | Reading the encoding of a well-formed item, followed by any bytes, gives back the item and exactly those bytes. |
| Cbor.DecodeEncodeSequence | src/main/java/com/github/protocolfuzzing/edhocfuzzer/components/sul/core/protocol/MessageProcessorPersistent.java:51-57 | `DecodeSequenceFromBytes` of an encoded CBOR sequence gives back its items. |
| Cbor.DecodeEncode | src/main/java/com/github/protocolfuzzing/edhocfuzzer/components/sul/core/protocol/MessageProcessorPersistent.java:2279 | Decoding the encoding of a single well-formed item gives it back. |
| Cbor.OneByteInt | src/main/java/com/github/protocolfuzzing/edhocfuzzer/components/sul/core/protocol/MessageProcessorPersistent.java:2274-2276 | An integer has a one-byte encoding exactly when it lies in -24..23. Its byte is the value itself for 0..23 and 0x20 + (-1 - v) for negative values. |
| CommandLine.NextSeparator | src/main/java/gr/ntua/softlab/protocolStateFuzzer/utils/CommandLineParser.java:56-58 | The inner loop stops at a "--" or at the end of the vector. |
| CommandLine.NextSeparatorFirst | src/main/java/gr/ntua/softlab/protocolStateFuzzer/utils/CommandLineParser.java:56-58 | No "--" lies between the start of a command and the position the inner loop stops at. |
| CommandLine.SegmentsFree | src/main/java/gr/ntua/softlab/protocolStateFuzzer/utils/CommandLineParser.java:54-62 | No command handed on contains "--". |
| CommandLine.JoinSegments | src/main/java/gr/ntua/softlab/protocolStateFuzzer/utils/CommandLineParser.java:54-62 | The commands are the maximal runs between separators. Joined back with "--", plus a final "--" when the vector ends with one, they give the whole vector. |
| CommandLine.LeadingSeparator | src/main/java/gr/ntua/softlab/protocolStateFuzzer/utils/CommandLineParser.java:54-62 | A vector starting with "--" yields an empty first command. |
| CommandLine.TrailingSeparator | src/main/java/gr/ntua/softlab/protocolStateFuzzer/utils/CommandLineParser.java:54-62 | A "--" appended to a vector that does not already end in one adds no command. |
| CommandLine.WithArgumentFile | src/main/java/gr/ntua/softlab/protocolStateFuzzer/utils/CommandLineParser.java:77-83 | Only the first argument may change. It gains an '@' exactly when it is not a command name, does not start with '@', and names an existing file. |
| CommandLine.ArgumentFileIdempotent | src/main/java/gr/ntua/softlab/protocolStateFuzzer/utils/CommandLineParser.java:77-83 | Applying the argument-file rule to its own result changes nothing. |
| CommandLine.Prepared | src/main/java/gr/ntua/softlab/protocolStateFuzzer/utils/CommandLineParser.java:59-60 | One argument array is handed on per command. |
| CommandLine.PreparedStep | src/main/java/gr/ntua/softlab/protocolStateFuzzer/utils/CommandLineParser.java:54-62 | The first command, cut at the next separator and passed through the argument-file rule, is handed on before the rest. |
| CommandLine.CommandLineParser.constructor | src/main/java/gr/ntua/softlab/protocolStateFuzzer/utils/CommandLineParser.java:36-42 | The parser starts with no command handed on. The file system is given. |
| CommandLine.CommandLineParser.ProcessCommand | src/main/java/gr/ntua/softlab/protocolStateFuzzer/utils/CommandLineParser.java:65-86 | The array is rewritten in place by the argument-file rule, and that array is what the option parser receives. |
| CommandLine.CommandLineParser.CopyOfRange | src/main/java/gr/ntua/softlab/protocolStateFuzzer/utils/CommandLineParser.java:59 | Returns a fresh array holding `args[from..to]`. |
| CommandLine.CommandLineParser.ScanCommand | src/main/java/gr/ntua/softlab/protocolStateFuzzer/utils/CommandLineParser.java:56-58 | `endCmd` ends at the next "--" or at the end of the vector. |
| CommandLine.CommandLineParser.ParseCommand | src/main/java/gr/ntua/softlab/protocolStateFuzzer/utils/CommandLineParser.java:55-61 | One outer pass hands on exactly the command from `startCmd` to the next separator, after the argument-file rule. |
| CommandLine.CommandLineParser.Parse | src/main/java/gr/ntua/softlab/protocolStateFuzzer/utils/CommandLineParser.java:44-63 | The option parser receives, in order, one prepared array per command of the vector. An empty vector gives one empty array. |
| Credentials.CredentialStore.constructor | src/main/java/com/github/protocolfuzzing/edhocfuzzer/components/sul/mapper/context/ManyFilesAuthenticator.java:52-68 | All credential collections start empty. |
| Credentials.CredentialStore.ResetOwn | src/main/java/com/github/protocolfuzzing/edhocfuzzer/components/sul/mapper/context/ManyFilesAuthenticator.java:70-76 | Both key usages get new, empty inner maps in the three own collections. The own ID_CREDs and the peer collections are left untouched. |
| Credentials.CredentialStore.PutOwn | src/main/java/com/github/protocolfuzzing/edhocfuzzer/components/sul/mapper/context/ManyFilesAuthenticator.java:395-401 | The key, CRED and ID_CRED go under (usage, curve) in the three maps, and the ID_CRED joins the own ones. Every other entry stays. |
| Credentials.CredentialStore.PutPeer | src/main/java/com/github/protocolfuzzing/edhocfuzzer/components/sul/mapper/context/ManyFilesAuthenticator.java:411-412 | The peer key and CRED are stored under the ID_CRED, replacing what was there. The own collections are unchanged. |
| DotBeautify.ShortLabel | experiments/scripts/dot_beautify.py:63-65 | A shortened state label is the label without its quotes and without its first character, and "" for an empty label. |
| DotBeautify.Cleaned | experiments/scripts/dot_beautify.py:61-65 | Cleaning a node keeps its name. |
| DotBeautify.CleanNodes | experiments/scripts/dot_beautify.py:61-69 | The node loop keeps exactly the nodes of the specification `KeptNodes`. |
| DotBeautify.KeptNodesSpec | experiments/scripts/dot_beautify.py:61-69 | A node survives exactly when it is the cleaned form of a state (a name starting with 's') or of the start node. |
| DotBeautify.ClassifyEdge | experiments/scripts/dot_beautify.py:73-93 | An edge leaving the start node, and only such an edge, becomes the initial edge with the given label, even an empty one. No edge is removed. A label that does not split in two raises ValueError. |
| DotBeautify.ClassifyQuoted | experiments/scripts/dot_beautify.py:52-53 | A quoted label `"i / o"` is grouped under the replaced output with the replaced input. Each side is looked up whole in the table. |
| DotBeautify.RolesOf | experiments/scripts/dot_beautify.py:73-93 | Every edge gets its role, and only edges leaving the start node are initial. |
| DotBeautify.GroupEdges | experiments/scripts/dot_beautify.py:72-95 | The edge loop computes the specification `EdgeInfoOf`. |
| DotBeautify.EdgeInfoSpec | experiments/scripts/dot_beautify.py:73-95 | Under each (source, destination, output), the grouping lists exactly the inputs of the matching edges, in order. The groups are well-formed. The initial edge is the last one leaving the start node, or none. |
| DotBeautify.LabelSeparator | experiments/scripts/dot_beautify.py:145 | The label separator is followed by a line break exactly in the multi-line layout. |
| DotBeautify.PairLabels | experiments/scripts/dot_beautify.py:138-152 | There is one padded merged label per (source, destination) pair, in group order. |
| DotBeautify.NewGraph | experiments/scripts/dot_beautify.py:127-132 | Building the graph fails with an AttributeError exactly when there is no initial edge. |
| DotBeautify.CreateNewGraph | experiments/scripts/dot_beautify.py:98-156 | The method builds the graph of the specification `NewGraph`. |
| DotBeautify.GraphOfInfo | experiments/scripts/dot_beautify.py:121-154 | From a well-formed grouping with an initial edge, the graph's only edge leaving the start node comes first, followed by one edge per pair with its padded merged label. |
| DotBeautify.NewGraphEdges | experiments/scripts/dot_beautify.py:36-156 | In the whole pipeline, when some edge leaves the start node, the new graph has exactly one edge from it, first, followed by one merged edge per (source, destination) pair in first-seen order. |
| DotGraph.ReplacementLine | scripts/beautify_model.py:42-49 | A line is read exactly when it splits at the separator into two fields, which are then stripped. Otherwise the script exits. An empty separator raises ValueError. |
| DotGraph.ReadReplacementFile | scripts/beautify_model.py:29-57 | No file name (None or "") gives the empty table. Otherwise the lines are read in order. The same function is in experiments/scripts/dot_beautify.py:5-33. |
| DotGraph.ReplacementWalkFails | scripts/beautify_model.py:41-46 | Reading fails exactly when some line is malformed. |
| DotGraph.ReplacementWalkKeeps | scripts/beautify_model.py:41-55 | A key that no later line mentions keeps its value, or its absence. |
| DotGraph.ReplacementWalkLastWins | scripts/beautify_model.py:51-55 | The last line naming a key decides its replacement: later lines overwrite earlier ones. |
| DotGraph.ReplacementWalkKeys | scripts/beautify_model.py:41-55 | Every key of the table comes from some line. |
| DotGraph.Replace | scripts/beautify_model.py:98-99 | A label part is replaced by its entry when it has one, and kept otherwise. |
| DotGraph.QuotedLabelParts | scripts/beautify_model.py:97 | Stripping the quotes off `"i / o"` and splitting at ` / ` gives back exactly `i` and `o`. |
| DotGraph.FindGroup | scripts/beautify_model.py:139-140 | Finds the first group for (source, destination), or reports that there is none. |
| DotGraph.FindEntry | scripts/beautify_model.py:146-147 | Finds the first entry for an output, or reports that there is none. |
| DotGraph.AddToEntriesLookup | scripts/beautify_model.py:146-149 | Recording an input appends it to its output's list and changes no other output's list. |
| DotGraph.AddInputLookup | scripts/beautify_model.py:139-149 | Recording an input extends exactly the list of its own (source, destination, output). |
| DotGraph.AddInputWellGrouped | scripts/beautify_model.py:139-149 | Recording an edge that does not leave the start node keeps the groups free of duplicates and of the start node. |
| DotGraph.EdgeWalkInputs | scripts/beautify_model.py:120-149 | The edge loop appends to each (source, destination, output) exactly the inputs of the matching grouped edges, in edge order. |
| DotGraph.EdgeWalkWellGrouped | scripts/beautify_model.py:120-149 | The edge loop keeps the grouping well-formed. |
| DotGraph.EdgeWalkInitial | scripts/beautify_model.py:124-128 | The initial edge after the loop is that of the last edge classified as initial, or the one before the loop when there is none. |
| DotGraph.EdgeWalkOk | scripts/beautify_model.py:120-149 | The edge loop succeeds exactly when no edge fails. |
| DotGraph.InsertByLength | scripts/beautify_model.py:185 | Insertion adds exactly one element: the result is a permutation of the list plus `x`. |
| DotGraph.InsertSorted | scripts/beautify_model.py:185 | Inserting into a list sorted by length keeps it sorted. |
| DotGraph.InsertStable | scripts/beautify_model.py:185 | Among elements of each length, insertion puts `x` first and keeps the others in order. |
| DotGraph.SortByLengthSpec | scripts/beautify_model.py:185 | `sorted(key=len)` sorts by length and is a permutation. It is stable: the elements of each length keep their original order. |
| DotGraph.MergeLabels | scripts/beautify_model.py:188-193 | There is one merged label per output, in entry order: the inputs joined by the input separator, then ` / `, then the output. |
| DotGraph.PaddedInitialEdge | scripts/beautify_model.py:206-210 | The initial edge keeps its endpoints. A non-empty label is padded on both sides. An empty one is left alone. |
| DotGraph.GroupedEdges | scripts/beautify_model.py:213-224 | There is one new edge per group, with the group's source and destination and its label, in group order. |
| DotGraph.InitialEdgeOnce | scripts/beautify_model.py:199-224 | A new graph whose first edge is the initial edge has exactly one edge leaving the start node. |
| Ead.EadActionAt | src/main/java/com/github/protocolfuzzing/edhocfuzzer/components/sul/core/protocol/MessageProcessorPersistent.java:3136-3201 | The checks at one position either stop the method without a result, or skip or keep an item whose width (label plus optional byte-string value) lies within the input. |
| Ead.PreParseEad | src/main/java/com/github/protocolfuzzing/edhocfuzzer/components/sul/core/protocol/MessageProcessorPersistent.java:3119-3210 | The array loop, with the final copy into an array of the kept length, returns the specification `PreParseEadSpec`. That includes the NegativeArraySizeException that `new CBORObject[length]` raises before the `length < 0` check can run. |
| Ead.EadItemsKept | src/main/java/com/github/protocolfuzzing/edhocfuzzer/components/sul/core/protocol/MessageProcessorPersistent.java:3133-3209 | What survives is a subsequence of the input from `baseIndex`, in the original order. It is no longer than the input, and every kept label is supported in absolute value. |
| Ead.EadItemsCases | src/main/java/com/github/protocolfuzzing/edhocfuzzer/components/sul/core/protocol/MessageProcessorPersistent.java:3165-3201 | A label/byte-string item is kept when its label's absolute value is supported. It rejects the whole EAD (null) when it is unsupported and critical (negative). It is skipped when it is unsupported and non-critical. |
| Ead.PreParseEadLeqV17 | src/main/java/com/github/protocolfuzzing/edhocfuzzer/components/sul/core/protocol/MessageProcessorPersistent.java:3049-3116 | The pair loop for versions up to 17 returns the specification `PreParseEadLeqV17Spec`. |
| Ead.EadLeqV17InPlace | src/main/java/com/github/protocolfuzzing/edhocfuzzer/components/sul/core/protocol/MessageProcessorPersistent.java:3049-3116 | An accepted EAD comes back as an array of the EAD's length. Each filled slot holds the input item at the same position, and the other slots are null. |
| Ead.EadLeqV17UsesPosition | src/main/java/com/github/protocolfuzzing/edhocfuzzer/components/sul/core/protocol/MessageProcessorPersistent.java:3093-3097 | As written, the keep test asks whether the item's position (`eadIndex - 1`), not its label, is supported. A supported label at position 0 is left out, and an unsupported one is kept when 0 is supported. |
| EdhocLayer.GetKidAsWritten | src/main/java/com/github/protocolfuzzing/edhocfuzzer/components/sul/core/protocol/EdhocLayerPersistent.java:438-467 | An empty option has no kid, and neither has an option whose flag byte sets neither the kid nor the kid-context bit. The kid context length is read as a signed Java byte, as `int s = oscoreOption[index]` does. The same code is at src/main/java/gr/ntua/softlab/edhocFuzzer/components/sul/core/protocol/EdhocLayerPersistent.java:299-328. |
| EdhocLayer.GetKid | src/main/java/com/github/protocolfuzzing/edhocfuzzer/components/sul/core/protocol/EdhocLayerPersistent.java:438-467 | The same parse, with the kid context length read as the unsigned octet that section 6.1 of RFC 8613 defines. An empty option has no kid. A kid is only found when the kid flag is set, and it is shorter than the option. |
| EdhocLayer.GetKidOfOption | src/main/java/com/github/protocolfuzzing/edhocfuzzer/components/sul/core/protocol/EdhocLayerPersistent.java:443-466 | For any option laid out as in RFC 8613 (flag byte, partial IV, optional kid context, optional kid), the parse returns exactly the kid that was put in. |
| EdhocLayer.GetKidAsWrittenShortContext | src/main/java/com/github/protocolfuzzing/edhocfuzzer/components/sul/core/protocol/EdhocLayerPersistent.java:443-466 | The code as written also returns the kid that was put in, as long as the kid context is shorter than 128 octets. |
| EdhocLayer.KidAfterContext | src/main/java/com/github/protocolfuzzing/edhocfuzzer/components/sul/core/protocol/EdhocLayerPersistent.java:450-464 | The kid starts after the flag byte, the n partial-IV octets and, when the flag is set, after s+1 context octets. It runs to the end of the option. |
| EdhocLayer.AsWrittenLongKidContext | src/main/java/com/github/protocolfuzzing/edhocfuzzer/components/sul/core/protocol/EdhocLayerPersistent.java:457-463 | With a kid context of 128 octets, the code as written reads a negative length and raises an index exception, while the unsigned reading returns the kid. |
| EdhocLayer.GetByteString | src/main/java/com/github/protocolfuzzing/edhocfuzzer/components/sul/core/protocol/EdhocLayerPersistent.java:274 | `GetByteString` succeeds exactly on a byte-string item, tags aside, and returns its octets. |
| EdhocLayer.Joined | src/main/java/com/github/protocolfuzzing/edhocfuzzer/components/sul/core/protocol/EdhocLayerPersistent.java:284-293 | The buffer is exactly part 1 followed by part 2 when their total length is at most `maxUnfragmentedSize`. A longer payload raises an IllegalStateException with the source's message. |
| EdhocLayer.JoinParts | src/main/java/com/github/protocolfuzzing/edhocfuzzer/components/sul/core/protocol/EdhocLayerPersistent.java:284-293 | The two `arraycopy` calls into a new buffer produce `Joined`. |
| EdhocLayer.Message3Item | src/main/java/com/github/protocolfuzzing/edhocfuzzer/components/sul/core/protocol/EdhocLayerPersistent.java:260-265 | The message_3 item taken from the stored sequence, after the optional prepended C_R, is a byte string. |
| EdhocLayer.CombinedMessage | src/main/java/com/github/protocolfuzzing/edhocfuzzer/components/sul/core/protocol/EdhocLayerPersistent.java:258-297 | A combined payload is never longer than `maxUnfragmentedSize`. |
| EdhocLayer.CreateCombinedMessage | src/main/java/com/github/protocolfuzzing/edhocfuzzer/components/sul/core/protocol/EdhocLayerPersistent.java:258-297 | The method builds the payload of the specification `CombinedMessage`: both parts as byte strings in the v06 form, and the encoded message_3 followed by the raw OSCORE payload otherwise. |
| EdhocLayer.SplitCombinedMessage | src/main/java/com/github/protocolfuzzing/edhocfuzzer/components/sul/core/protocol/EdhocLayerPersistent.java:309-370 | A null payload gives null. Any pair found has a byte-string message_3. The v07+ form never raises, and any pair it finds has a non-empty OSCORE payload. |
| EdhocLayer.SplitV06 | src/main/java/com/github/protocolfuzzing/edhocfuzzer/components/sul/core/protocol/EdhocLayerPersistent.java:315-331 | The v06 split only accepts a sequence whose items are byte strings, and the message_3 it returns is one. |
| EdhocLayer.SplitV07 | src/main/java/com/github/protocolfuzzing/edhocfuzzer/components/sul/core/protocol/EdhocLayerPersistent.java:333-369 | The v07+ split reads a leading byte string. The OSCORE payload is the rest of the buffer, which must be non-empty. |
| EdhocLayer.SplitV07Encode | src/main/java/com/github/protocolfuzzing/edhocfuzzer/components/sul/core/protocol/EdhocLayerPersistent.java:333-369 | An encoded byte string followed by a non-empty payload splits back into exactly these two. |
| EdhocLayer.SplitV07EmptyPayload | src/main/java/com/github/protocolfuzzing/edhocfuzzer/components/sul/core/protocol/EdhocLayerPersistent.java:349-353 | An encoded message_3 with nothing after it is rejected. |
| EdhocLayer.SplitV06Encode | src/main/java/com/github/protocolfuzzing/edhocfuzzer/components/sul/core/protocol/EdhocLayerPersistent.java:315-331 | Two encoded byte strings split back into the first string and the octets of the second. |
| EdhocLayer.Message3ItemOfEncoded | src/main/java/com/github/protocolfuzzing/edhocfuzzer/components/sul/core/protocol/EdhocLayerPersistent.java:260-262 | From an encoded sequence, the extracted message_3 is the item at index 1 with a prepended C_R, and at index 0 without. |
| EdhocLayer.SplitCreated | src/main/java/com/github/protocolfuzzing/edhocfuzzer/components/sul/core/protocol/EdhocLayerPersistent.java:258-370 | Splitting a payload that `createCombinedMessage` built gives back the stored message_3 and the OSCORE payload, in both forms. The OSCORE payload must be non-empty for v07+. |
| EdhocLayer.SplitParts | src/main/java/com/github/protocolfuzzing/edhocfuzzer/components/sul/core/protocol/EdhocLayerPersistent.java:268-370 | Splitting the concatenation of the two parts built for a message_3 and a payload gives back exactly that message_3 and payload. |
| EdhocLayer.LegacyCombinedPayload | src/main/java/gr/ntua/softlab/edhocFuzzer/components/sul/core/protocol/EdhocLayerPersistent.java:77-110 | The older combined payload is never longer than `maxUnfragmentedSize`. |
| EdhocLayer.LegacyBuildCombinedPayload | src/main/java/gr/ntua/softlab/edhocFuzzer/components/sul/core/protocol/EdhocLayerPersistent.java:92-105 | The older method builds `bstr(CIPHERTEXT_3)` followed by `bstr(old payload)`, or raises over the size limit, as `LegacyCombinedPayload` says. |
| EdhocLayer.ReceiveCombinedRequest | src/main/java/gr/ntua/softlab/edhocFuzzer/components/sul/core/protocol/EdhocLayerPersistent.java:145-191 | A request with the EDHOC option but without the OSCORE option is dropped. The kid is read by the reading it is given: `AsWritten` is `getKid` as written, with the signed length octet; `Intended` is the corrected parse. |
| EdhocLayer.LegacySent | src/main/java/gr/ntua/softlab/edhocFuzzer/components/sul/core/protocol/EdhocLayerPersistent.java:77-105 | What the older layer sends is the CIPHERTEXT_3 item of the stored message_3, followed by the old payload as a byte string. |
| EdhocLayer.LegacyReceived | src/main/java/gr/ntua/softlab/edhocFuzzer/components/sul/core/protocol/EdhocLayerPersistent.java:155-191 | Under either reading of the kid (as written or corrected), whenever that reading finds a kid: on two byte strings, the request payload becomes the second string. message_3 is rebuilt as (C_R, CIPHERTEXT_3), where C_R is the encoded kid and decodes back to it. |
| EdhocLayer.LegacyReceiveSent | src/main/java/gr/ntua/softlab/edhocFuzzer/components/sul/core/protocol/EdhocLayerPersistent.java:77-191 | Under either reading of the kid, whenever that reading finds a kid, what the older layer sends it receives back: the old payload and (C_R, CIPHERTEXT_3). As written, the kid is found for every kid context shorter than 128 octets (`GetKidAsWrittenShortContext`). |
| EdhocLayer.AsWrittenReceiveLongKidContext | src/main/java/gr/ntua/softlab/edhocFuzzer/components/sul/core/protocol/EdhocLayerPersistent.java:299-328 | On the whole receive path (lines 155-191), a well-formed combined request whose OSCORE option has a 128-octet kid context raises as written. With the corrected kid parse, message_3 is rebuilt. |
| EdhocLayer.RebuiltMessage3 | src/main/java/gr/ntua/softlab/edhocFuzzer/components/sul/core/protocol/EdhocLayerPersistent.java:180-191 | The rebuilt message_3 is the encoded sequence (C_R, CIPHERTEXT_3), and it decodes back to those items. |
| Exchange.Offer | src/main/java/com/github/protocolfuzzing/edhocfuzzer/components/sul/core/protocol/EdhocLayerPersistent.java:393 | `offer` appends at the tail of a queue that is not full, and leaves a full queue alone. |
| Exchange.Poll | src/main/java/gr/ntua/softlab/edhocFuzzer/components/sul/mapper/connectors/toSulClient/EdhocServer.java:139 | `poll` removes and returns the head, or returns null for an empty queue. |
| Exchange.OfferBounded | src/main/java/gr/ntua/softlab/edhocFuzzer/components/sul/mapper/connectors/CoapExchanger.java:10-13 | A bounded queue never grows past its capacity. An offer is accepted exactly when the queue was not full. |
| Exchange.OfferSingleSlot | src/main/java/gr/ntua/softlab/edhocFuzzer/components/sul/mapper/connectors/CoapExchanger.java:10-13 | A one-slot queue accepts only into an empty queue. |
| Exchange.CoapExchanger.constructor | src/main/java/gr/ntua/softlab/edhocFuzzer/components/sul/mapper/connectors/CoapExchanger.java:10-13 | Both queues start empty with the given capacity. |
| Exchange.CoapExchanger.OfferDraft | src/main/java/com/github/protocolfuzzing/edhocfuzzer/components/sul/core/protocol/EdhocLayerPersistent.java:393 | An offer to the draft queue succeeds exactly when it is not full, and the received queue is untouched. |
| Exchange.CoapExchanger.OfferReceived | src/main/java/com/github/protocolfuzzing/edhocfuzzer/components/sul/core/protocol/EdhocLayerPersistent.java:399 | An offer to the received queue succeeds exactly when it is not full, and the draft queue is untouched. |
| Exchange.CoapExchanger.PollDraft | src/main/java/gr/ntua/softlab/edhocFuzzer/components/sul/mapper/connectors/toSulClient/EdhocServer.java:139 | Taking from the draft queue is `Poll`, and the received queue is untouched. |
| Exchange.InfoFor | src/main/java/com/github/protocolfuzzing/edhocfuzzer/components/sul/core/protocol/EdhocLayerPersistent.java:379-387 | A new record for the message ID is marked as OSCORE application data exactly when the OSCORE option is present. It is marked EDHOC exactly when the EDHOC option also is. |
| Exchange.OfferConsistent | src/main/java/com/github/protocolfuzzing/edhocfuzzer/components/sul/core/protocol/EdhocLayerPersistent.java:381-402 | Offering consistent records keeps every queued record consistent: the EDHOC flag only with the OSCORE flag. |
| Exchange.AddCoapExchangeInfo | src/main/java/com/github/protocolfuzzing/edhocfuzzer/components/sul/core/protocol/EdhocLayerPersistent.java:372-403 | A request's record is offered to the draft queue and a response's to the received queue, leaving the other queue alone. A null message or session changes nothing. |
| Exchange.LegacyInfoFor | src/main/java/gr/ntua/softlab/edhocFuzzer/components/sul/core/protocol/EdhocLayerPersistent.java:247-259 | The older record is protected exactly when the OSCORE option is present, and unprotected otherwise, never both. It is EDHOC only alongside OSCORE. |
| Exchange.UpdateSessionFromOptions | src/main/java/gr/ntua/softlab/edhocFuzzer/components/sul/core/protocol/EdhocLayerPersistent.java:241-275 | The older layer picks the queue the same way: requests to draft, responses to received. Null inputs change nothing. |
| Exchange.NewLegacyExchanger | src/main/java/gr/ntua/softlab/edhocFuzzer/components/sul/mapper/connectors/CoapExchanger.java:10-13 | Both queues of the exchanger hold one record and start empty. |
| Hex.DigitValueOfHexDigit | src/main/java/com/github/protocolfuzzing/edhocfuzzer/components/sul/mapper/config/EdhocMapperConfig.java:239 | Every hexadecimal digit the printer writes reads back as its value. |
| Hex.BytesToHex | src/main/java/com/github/protocolfuzzing/edhocfuzzer/components/sul/core/protocol/EdhocUtil.java:19 | `bytesToHex` writes two digits per byte. |
| Hex.BytesToHexAt | src/main/java/com/github/protocolfuzzing/edhocfuzzer/components/sul/core/protocol/EdhocUtil.java:19 | Digits 2k and 2k+1 are the high and low nibble of byte k. |
| Hex.HexToBytes | src/main/java/com/github/protocolfuzzing/edhocfuzzer/components/sul/mapper/config/EdhocMapperConfig.java:239 | `hex2ByteArray` gives one byte per two digits, and raises IllegalArgument on an odd length. |
| Hex.HexRoundTrip | src/main/java/com/github/protocolfuzzing/edhocfuzzer/components/sul/mapper/config/EdhocMapperConfig.java:230-240 | Parsing the hex text of any byte string gives it back. |
| Hex.HexToBytesLowerCase | src/main/java/com/github/protocolfuzzing/edhocfuzzer/components/sul/mapper/config/EdhocMapperConfig.java:230-240 | A parsable lower-case hex text is the printing of what it parses to. |
| HexPrint.Spaced | src/main/java/com/github/protocolfuzzing/edhocfuzzer/components/sul/core/protocol/EdhocUtil.java:36-49 | The single-argument form has exactly three characters per byte. |
| HexPrint.FormatDigits | src/main/java/com/github/protocolfuzzing/edhocfuzzer/components/sul/core/protocol/EdhocUtil.java:20-30 | The digit loop writes each byte's two digits and a space, with a line break before every tenth byte but the first when wrapping, as the specification `Body` says. |
| HexPrint.DigitsBody | src/main/java/com/github/protocolfuzzing/edhocfuzzer/components/sul/core/protocol/EdhocUtil.java:20-30 | Walking the first 2k hex digits digit by digit gives the text of the first k bytes. |
| HexPrint.Parity | src/main/java/com/github/protocolfuzzing/edhocfuzzer/components/sul/core/protocol/EdhocUtil.java:21-28 | For digit index i = 2k (+1), `i % 20 == 0` with i ≠ 0 holds exactly before the first digit of every tenth byte but the first. |
| HexPrint.ByteArrayToString | src/main/java/com/github/protocolfuzzing/edhocfuzzer/components/sul/core/protocol/EdhocUtil.java:36-49 | The loop produces `Spaced`: each byte as two digits and a space. |
| HexPrint.ByteArrayToStringWithHeader | src/main/java/com/github/protocolfuzzing/edhocfuzzer/components/sul/core/protocol/EdhocUtil.java:9-34 | Null content gives "\n" + header + ": null\n". Otherwise the result is "\n" + header + " (N bytes):\n", where N is the content length, followed by the wrapped lines and "\n". |
| HexPrint.LegacyByteArrayToString | src/main/java/gr/ntua/softlab/edhocFuzzer/components/sul/core/protocol/MessageProcessorPersistent.java:32-54 | The older processor's copy prints exactly the same headed dump, but a null content raises NullPointerException instead of printing "null". |
| HexPrint.UnwrappedBody | src/main/java/com/github/protocolfuzzing/edhocfuzzer/components/sul/core/protocol/EdhocUtil.java:40-46 | Without wrapping, the body is the spaced digits. |
| HexPrint.WrappedBody | src/main/java/com/github/protocolfuzzing/edhocfuzzer/components/sul/core/protocol/EdhocUtil.java:20-30 | The wrapped body is ten bytes per line, as `Lines` defines. |
| HexPrint.FirstLine | src/main/java/com/github/protocolfuzzing/edhocfuzzer/components/sul/core/protocol/EdhocUtil.java:20-30 | The first ten bytes are printed without a line break. |
| HexPrint.BodyAfterFirstLine | src/main/java/com/github/protocolfuzzing/edhocfuzzer/components/sul/core/protocol/EdhocUtil.java:20-30 | After ten bytes, a line break and the body of the rest follow. |
| HexPrint.SpacedDigits | src/main/java/com/github/protocolfuzzing/edhocfuzzer/components/sul/core/protocol/EdhocUtil.java:36-49 | Removing spaces and line breaks from the dump gives `bytesToHex`, which parses back to the content. |
| HexPrint.LinesDigits | src/main/java/com/github/protocolfuzzing/edhocfuzzer/components/sul/core/protocol/EdhocUtil.java:9-34 | The same holds for the wrapped dump: it carries exactly the content's hex digits. |
| Keystream.ComputeKeystream2 | src/main/java/com/github/protocolfuzzing/edhocfuzzer/components/sul/core/protocol/MessageProcessorPersistent.java:2539-2587 | The method computes `Keystream2`. That is a single derivation with label 0 when the hash is not SHA-256/384/512, or when the length is at most 255 hash lengths. Otherwise the parts are derived with labels 0, -1, -2, … and copied in order into a zeroed buffer. A failed derivation gives null, and a part overflowing the buffer raises. |
| Keystream.DeriveParts | src/main/java/com/github/protocolfuzzing/edhocfuzzer/components/sul/core/protocol/MessageProcessorPersistent.java:2555-2581 | The part loop with its offset produces exactly what the recursive `DeriveFrom` over the part sizes describes. |
| Keystream.PartSizesCover | src/main/java/com/github/protocolfuzzing/edhocfuzzer/components/sul/core/protocol/MessageProcessorPersistent.java:2555-2563 | The part sizes add up to the requested length. Every part but the last has the regular size, and the last is non-zero and at most the regular size. There are parts exactly when the length is positive. |
| Keystream.PartsCover | src/main/java/com/github/protocolfuzzing/edhocfuzzer/components/sul/core/protocol/MessageProcessorPersistent.java:2557-2563 | The same, stated for a quotient and remainder of the regular size. |
| Keystream.DeriveFromExact | src/main/java/com/github/protocolfuzzing/edhocfuzzer/components/sul/core/protocol/MessageProcessorPersistent.java:2566-2581 | When every derivation returns the number of octets requested and the sizes fill the buffer, the loop never raises. Its result is the octets copied so far followed by the concatenated parts, or null on the first failed derivation. |
| Keystream.Keystream2Parts | src/main/java/com/github/protocolfuzzing/edhocfuzzer/components/sul/core/protocol/MessageProcessorPersistent.java:2539-2587 | With such a derivation, the keystream of a long request is the concatenation of the parts, and it has exactly the requested length. |
| LegacyProcessor.MessageTypeFromStructure | src/main/java/gr/ntua/softlab/edhocFuzzer/components/sul/core/protocol/MessageProcessorPersistent.java:56-98 | A missing or undecodable sequence gives -1. Otherwise the result is the error type exactly when `isErrorMessage` holds. Without the error shape, after dropping a request's C_X, 4 or 5 items give message_1, 2 give message_2 and 1 gives message_3; anything else gives -1. |
| LegacyProcessor.AgreesWithNewerProcessor | src/main/java/gr/ntua/softlab/edhocFuzzer/components/sul/core/protocol/MessageProcessorPersistent.java:56-98 | For sequences of at most three items, and protocol versions up to v19, the older and the newer type detection agree on error, message_2 and message_3. |
| LegacyProcessor.LongErrorShapeDiffers | src/main/java/gr/ntua/softlab/edhocFuzzer/components/sul/core/protocol/MessageProcessorPersistent.java:70-83 | A four-item response starting with an integer is an error message for the older processor. The newer one counts it as message_1. |
| LegacyProcessor.WriteErrorMessage | src/main/java/gr/ntua/softlab/edhocFuzzer/components/sul/core/protocol/MessageProcessorPersistent.java:1615-1666 | The result is null exactly when any of these holds: the message replied to is not message_1 to message_4; SUITES_R is neither an integer nor an array of integers; an unspecified error has no diagnostic text; or a wrong-suite error does not reply to message_1. Otherwise the message is the encoded C_X (for a request with an identifier), ERR_CODE, and then the diagnostic text or SUITES_R. |
| LegacyProcessor.ErrorMessageRecognised | src/main/java/gr/ntua/softlab/edhocFuzzer/components/sul/core/protocol/MessageProcessorPersistent.java:56-98 | Every error message the older processor writes is recognised as an error message by its own type detection, and it decodes back to its items. |
| LegacyProcessor.SuitesICheckAsWritten | src/main/java/gr/ntua/softlab/edhocFuzzer/components/sul/core/protocol/MessageProcessorPersistent.java:276-299 | As written, an array SUITES_I is checked as intended. No integer SUITES_I is ever accepted, because a non-negative integer falls through to the final "neither integer nor array" rejection. |
| LegacyProcessor.SuitesICheck | src/main/java/gr/ntua/softlab/edhocFuzzer/components/sul/core/protocol/MessageProcessorPersistent.java:276-299 | The intended check accepts an integer SUITES_I exactly when it is non-negative, and raises on an integer beyond 32 bits. Anything that is neither an integer nor an array is rejected. |
| LegacyProcessor.AsWrittenRejectsPreferredSuite | src/main/java/gr/ntua/softlab/edhocFuzzer/components/sul/core/protocol/MessageProcessorPersistent.java:276-299 | When the initiator selects its most preferred suite, `writeMessage1` sends one integer. The check as written rejects it, and the intended check accepts it. |
| LegacyProcessor.SuitesICheckAcceptsWritten | src/main/java/gr/ntua/softlab/edhocFuzzer/components/sul/core/protocol/MessageProcessorPersistent.java:276-299 | The intended check accepts every SUITES_I that `writeMessage1` builds from non-negative 32-bit suites. |
| LegacyProcessor.Ead1Check | src/main/java/gr/ntua/softlab/edhocFuzzer/components/sul/core/protocol/MessageProcessorPersistent.java:331-363 | EAD_1 is accepted exactly when it has even length and alternates an integer label and a byte-string value. It is stored as null when absent, and as the items otherwise. |
| LegacyProcessor.CheckEad1 | src/main/java/gr/ntua/softlab/edhocFuzzer/components/sul/core/protocol/MessageProcessorPersistent.java:331-363 | The copy loop into the new array gives `Ead1Check` of the items after C_I. |
| LegacyProcessor.ReadMessage1 | src/main/java/gr/ntua/softlab/edhocFuzzer/components/sul/core/protocol/MessageProcessorPersistent.java:225-365 | `readMessage1` under a reading of the SUITES_I check: `AsWritten` is the code as it stands, `Intended` the corrected check, and every other check is the same. A null argument or an undecodable sequence is rejected. An accepted message has its METHOD, SUITES_I, G_X and C_I in place and a SUITES_I that the reading accepts. As written, that SUITES_I is always an array. |
| LegacyProcessor.ReadFromMethod | src/main/java/gr/ntua/softlab/edhocFuzzer/components/sul/core/protocol/MessageProcessorPersistent.java:261-299 | The METHOD and SUITES_I checks under a reading. An accepted message has an integer METHOD that fits 32 bits and is supported, and a SUITES_I the reading accepts; as written, an array one. |
| LegacyProcessor.ReadFromGX | src/main/java/gr/ntua/softlab/edhocFuzzer/components/sul/core/protocol/MessageProcessorPersistent.java:304-365 | The G_X, C_I and EAD_1 checks (the same under both readings). An accepted message has a byte-string G_X, a C_I that decodes, and the EAD_1 that `Ead1Check` accepts and stores. Running off the end raises. |
| LegacyProcessor.WrittenMessage1Accepted | src/main/java/gr/ntua/softlab/edhocFuzzer/components/sul/core/protocol/MessageProcessorPersistent.java:226-365 | Under either reading, a message_1 laid out as `writeMessage1` lays it out is accepted, and its EAD_1 stored, when it has a supported method, a SUITES_I that reading accepts, any G_X, a valid C_I and a well-formed EAD_1. As written, that means an array SUITES_I (`SuitesICheckAsWritten`). |
| LegacyProcessor.WrittenReadFromMethod | src/main/java/gr/ntua/softlab/edhocFuzzer/components/sul/core/protocol/MessageProcessorPersistent.java:230-260 | An encoded message_1 passes the null, decoding, empty and leading-`true` checks, so the reading goes on to METHOD. |
| LegacyProcessor.WrittenItemsLayout | src/main/java/gr/ntua/softlab/edhocFuzzer/components/sul/core/protocol/MessageProcessorPersistent.java:102-215 | Where `writeMessage1` puts each field: the optional `true`, METHOD, SUITES_I, G_X, C_I and then EAD_1. |
| LegacyProcessor.AsWrittenRejectsIntegerSuitesMessage | src/main/java/gr/ntua/softlab/edhocFuzzer/components/sul/core/protocol/MessageProcessorPersistent.java:276-299 | On the whole `readMessage1`, a message_1 whose SUITES_I is a single non-negative integer (the initiator's most preferred suite) is rejected as written and accepted by the intended reading. |
| LegacyProcessor.ItemsAccepted | src/main/java/gr/ntua/softlab/edhocFuzzer/components/sul/core/protocol/MessageProcessorPersistent.java:259-365 | The same acceptance under either reading, stated on the decoded items from METHOD on. |
| LegacyProcessor.MethodStageAccepts | src/main/java/gr/ntua/softlab/edhocFuzzer/components/sul/core/protocol/MessageProcessorPersistent.java:259-299 | Under either reading, a supported METHOD followed by a SUITES_I that this reading accepts passes on to the G_X checks. |
| LegacyProcessor.GXStageAccepts | src/main/java/gr/ntua/softlab/edhocFuzzer/components/sul/core/protocol/MessageProcessorPersistent.java:304-365 | A byte-string G_X, a decodable C_I and a well-formed EAD_1 are accepted. |
| LegacyProcessor.WrittenItemsDecode | src/main/java/gr/ntua/softlab/edhocFuzzer/components/sul/core/protocol/MessageProcessorPersistent.java:240-247 | An encoded message_1 decodes back to its items. |
| ManyFiles.CachedRead | src/main/java/com/github/protocolfuzzing/edhocfuzzer/components/sul/mapper/context/ManyFilesAuthenticator.java:233-248 | A null name raises "Null DER filename provided". A name read before returns the cached octets. Otherwise the file's octets are returned when it exists; a missing file raises. |
| ManyFiles.DerFileCache.constructor | src/main/java/com/github/protocolfuzzing/edhocfuzzer/components/sul/mapper/context/ManyFilesAuthenticator.java:48 | The shared DER cache starts empty, with no file read. |
| ManyFiles.DerFileCache.DerFileToBytes | src/main/java/com/github/protocolfuzzing/edhocfuzzer/components/sul/mapper/context/ManyFilesAuthenticator.java:233-248 | The method returns `CachedRead` of the cache before the call. A file is read from disk, and added to the cache and the read log, only when it was not cached and it exists. |
| ManyFiles.ReadOnlyOnce | src/main/java/com/github/protocolfuzzing/edhocfuzzer/components/sul/mapper/context/ManyFilesAuthenticator.java:238-247 | Reading the same name twice gives the same octets and reads the disk at most once. The second read does not see later changes to the disk. |
| ManyFiles.MissingCcsInputs | src/main/java/com/github/protocolfuzzing/edhocfuzzer/components/sul/mapper/context/ManyFilesAuthenticator.java:317-323 | The missing-input list is empty exactly when kid, key pair and subject name are all present. |
| ManyFiles.BuildCred | src/main/java/com/github/protocolfuzzing/edhocfuzzer/components/sul/mapper/context/ManyFilesAuthenticator.java:313-338 | CWT raises Unsupported. CCS succeeds exactly when kid, key pair and subject name are present; it builds a CCS of those, and otherwise raises with the list of missing inputs. X.509 succeeds exactly with a certificate, which it returns. Any other type raises IllegalState. A built CRED has the requested type. |
| ManyFiles.BuildIdCred | src/main/java/com/github/protocolfuzzing/edhocfuzzer/components/sul/mapper/context/ManyFilesAuthenticator.java:340-375 | An ID_CRED is built exactly when its type has its input: kid, the CRED, the certificate (x5t, x5chain) or the link (x5u). It has the requested type and carries that input. CWT raises Unsupported, and an unknown type raises IllegalState. |
| ManyFiles.CcsTypeOnlyEntries | src/main/java/com/github/protocolfuzzing/edhocfuzzer/components/sul/mapper/context/ManyFilesAuthenticator.java:404-418 | A CCS CRED without an ID_CRED type is registered under kccs and under kid, in that order. |
| ManyFiles.X509TypeOnlyEntries | src/main/java/com/github/protocolfuzzing/edhocfuzzer/components/sul/mapper/context/ManyFilesAuthenticator.java:420-442 | An X.509 CRED without an ID_CRED type is registered under x5t and x5chain. It is also registered under x5u exactly when a link is configured, and always with the certificate as CRED. |
| ManyFiles.BothTypesOneEntry | src/main/java/com/github/protocolfuzzing/edhocfuzzer/components/sul/mapper/context/ManyFilesAuthenticator.java:460-466 | With both types configured, exactly one entry of those types is registered. |
| ManyFiles.NoTypesBothSets | src/main/java/com/github/protocolfuzzing/edhocfuzzer/components/sul/mapper/context/ManyFilesAuthenticator.java:482-500 | With neither type configured, both the CCS and the X.509 CRED must build. Then all entries of both are registered, CCS first. |
| ManyFiles.UntypedKidNeedsCertificate | src/main/java/com/github/protocolfuzzing/edhocfuzzer/components/sul/mapper/context/ManyFilesAuthenticator.java:482-492 | With no CRED type, even a kid ID_CRED needs the certificate, because the X.509 CRED is built first. With the CCS type, the kid alone suffices. |
| ManyFiles.X5uOnlyWithLink | src/main/java/com/github/protocolfuzzing/edhocfuzzer/components/sul/mapper/context/ManyFilesAuthenticator.java:361-366 | An x5u ID_CRED is only ever registered for the configured link. |
| ManyFiles.WithKeysRegisters | src/main/java/com/github/protocolfuzzing/edhocfuzzer/components/sul/mapper/context/ManyFilesAuthenticator.java:411-412 | After the puts, the key map holds exactly the old IDs and the new ones, with the new ones mapped to the key. Other entries are kept. |
| ManyFiles.WithCredsRegisters | src/main/java/com/github/protocolfuzzing/edhocfuzzer/components/sul/mapper/context/ManyFilesAuthenticator.java:411-412 | After the puts, the CRED map holds exactly the old IDs and the new ones. Other entries are kept, and the last put for an ID wins. |
| ManyFiles.WithKeysAppend | src/main/java/com/github/protocolfuzzing/edhocfuzzer/components/sul/mapper/context/ManyFilesAuthenticator.java:411 | One more entry is one more map update. |
| ManyFiles.WithCredsAppend | src/main/java/com/github/protocolfuzzing/edhocfuzzer/components/sul/mapper/context/ManyFilesAuthenticator.java:412 | One more entry is one more map update. |
| ManyFiles.WithKeysConcat | src/main/java/com/github/protocolfuzzing/edhocfuzzer/components/sul/mapper/context/ManyFilesAuthenticator.java:496-497 | Registering two lists in turn is registering their concatenation. |
| ManyFiles.WithCredsConcat | src/main/java/com/github/protocolfuzzing/edhocfuzzer/components/sul/mapper/context/ManyFilesAuthenticator.java:496-497 | The same, for the CRED map. |
| ManyFiles.OwnKeySlots | src/main/java/com/github/protocolfuzzing/edhocfuzzer/components/sul/mapper/context/ManyFilesAuthenticator.java:87-158 | Setup raises "Invalid authentication method" exactly when some suite family is supported and the method is not 0–3. Otherwise a signature slot is filled exactly for methods 0 and 1. A Curve25519 slot is filled exactly when suite 0 or 1 is supported, and a P-256 slot exactly when suite 2 or 3 is. There are at most two slots. |
| ManyFiles.PeerKeySlots | src/main/java/com/github/protocolfuzzing/edhocfuzzer/components/sul/mapper/context/ManyFilesAuthenticator.java:171-229 | The peer slots are signature keys exactly for methods 0 and 2. There are two, one per curve, for methods 0–3 and none otherwise. |
| ManyFiles.MixedMethodKeys | src/main/java/com/github/protocolfuzzing/edhocfuzzer/components/sul/mapper/context/ManyFilesAuthenticator.java:87-229 | Under method 1 with the Curve25519 suites, the mapper gets an Ed25519 signature key, while the peers get X25519 and P-256 static keys. |
| ManyFiles.SulType | src/main/java/com/github/protocolfuzzing/edhocfuzzer/components/sul/mapper/config/authentication/AuthenticationConfig.java:52-58 | The SUL CRED or ID_CRED type is the configured one. When the option was not given, reading it raises NullPointerException, so no authenticator is built. |
| ManyFiles.ManyFilesAuthenticator.constructor | src/main/java/com/github/protocolfuzzing/edhocfuzzer/components/sul/mapper/context/ManyFilesAuthenticator.java:52-68 | The authenticator keeps the method, the four types as `int` values, the cipher suites, the store and the shared cache. It is built only after both SUL types were read (`SulType`). |
| ManyFiles.ManyFilesAuthenticator.AddOwnCredentials | src/main/java/com/github/protocolfuzzing/edhocfuzzer/components/sul/mapper/context/ManyFilesAuthenticator.java:377-402 | A null key pair raises. The call succeeds exactly when the certificate (if configured) reads and CRED and ID_CRED build. Then the key, CRED and ID_CRED of the requested types are stored under (usage, curve), and the ID_CRED joins the own ones. On an error, the store is unchanged. The certificate read goes through the cache: a file read from disk is added to the cache and the read log, and with a null key pair the cache is untouched. |
| ManyFiles.ManyFilesAuthenticator.AddAllPeerIdCredForCcsCred | src/main/java/com/github/protocolfuzzing/edhocfuzzer/components/sul/mapper/context/ManyFilesAuthenticator.java:404-418 | A null key raises with the store unchanged. The call succeeds exactly with a key and a kid, registering the CCS entries. Without a kid, "Null provided kid" is raised after the kccs entry is stored, and no other peer entry changes. The own collections are untouched. |
| ManyFiles.ManyFilesAuthenticator.AddAllPeerIdCredForX509Cred | src/main/java/com/github/protocolfuzzing/edhocfuzzer/components/sul/mapper/context/ManyFilesAuthenticator.java:420-442 | A null key or certificate raises. Otherwise the X.509 entries are registered. The own collections are untouched. |
| ManyFiles.ManyFilesAuthenticator.AddPeerCredentials | src/main/java/com/github/protocolfuzzing/edhocfuzzer/components/sul/mapper/context/ManyFilesAuthenticator.java:444-502 | A null key raises, and so does an unreadable certificate. Otherwise the call succeeds exactly when `PeerEntries` does, and registers its entries. Errors leave the store unchanged. The certificate read goes through the cache: a file read from disk is added to the cache and the read log, and with a null key the cache is untouched. |
| ManyFiles.ManyFilesAuthenticator.AddTypedPeerCredentials | src/main/java/com/github/protocolfuzzing/edhocfuzzer/components/sul/mapper/context/ManyFilesAuthenticator.java:460-474 | With a CRED type, the result and the registered entries are those of `PeerEntries`. |
| ManyFiles.ManyFilesAuthenticator.AddUntypedPeerCredentials | src/main/java/com/github/protocolfuzzing/edhocfuzzer/components/sul/mapper/context/ManyFilesAuthenticator.java:476-500 | Without a CRED type, the result and the registered entries are those of `PeerEntries`. |
| ManyFiles.PeerCert | src/main/java/com/github/protocolfuzzing/edhocfuzzer/components/sul/mapper/context/ManyFilesAuthenticator.java:453-454 | No certificate is read when none is configured. Otherwise the result is the cached read of the configured file. |
| ManyFiles.OwnCredentials | src/main/java/com/github/protocolfuzzing/edhocfuzzer/components/sul/mapper/context/ManyFilesAuthenticator.java:385-398 | The own CRED and ID_CRED have the configured types. |
| MapperConfig.CheckAndReturnHost | src/main/java/com/github/protocolfuzzing/edhocfuzzer/components/sul/mapper/config/EdhocMapperConfig.java:206-219 | An accepted host is returned unchanged and contains a colon. Every rejection is a RuntimeException: either the split does not give two parts, or the port is not an integer. |
| MapperConfig.HostAccepted | src/main/java/com/github/protocolfuzzing/edhocfuzzer/components/sul/mapper/config/EdhocMapperConfig.java:206-219 | A host is accepted exactly when it has one colon and the text after it parses as a Java integer. |
| MapperConfig.ParseHexString | src/main/java/com/github/protocolfuzzing/edhocfuzzer/components/sul/mapper/config/EdhocMapperConfig.java:230-240 | Null maps to null, and only null does. "[]" is the empty identifier. Any other accepted text has two digits per byte, and bad hexadecimal text raises IllegalArgument. |
| MapperConfig.HexToBytesErrors | src/main/java/com/github/protocolfuzzing/edhocfuzzer/components/sul/mapper/config/EdhocMapperConfig.java:239 | The only exception the hexadecimal parser raises is IllegalArgument. |
| MapperConfig.ParseHexRoundTrip | src/main/java/com/github/protocolfuzzing/edhocfuzzer/components/sul/mapper/config/EdhocMapperConfig.java:230-240 | Every identifier written in hexadecimal is read back. The empty identifier is also read back from "[]". |
| MapperConfig.UpperIdempotent | src/main/java/com/github/protocolfuzzing/edhocfuzzer/components/sul/mapper/config/EdhocMapperConfig.java:138-148 | Upper-casing a message code twice is upper-casing it once. |
| MapperConfig.EdhocMapperConfig.constructor | src/main/java/com/github/protocolfuzzing/edhocfuzzer/components/sul/mapper/config/EdhocMapperConfig.java:96-99 | A new configuration has no host yet, and keeps the parsed options. |
| MapperConfig.EdhocMapperConfig.InitializeHost | src/main/java/com/github/protocolfuzzing/edhocfuzzer/components/sul/mapper/config/EdhocMapperConfig.java:104-108 | Once a host is set, later calls leave it alone. While none is set, the call succeeds exactly for an `ip:port` host, which it then stores; a failure raises a RuntimeException and stores nothing. |
| MapperConfig.EdhocMapperConfig.RolesExclusive | src/main/java/com/github/protocolfuzzing/edhocfuzzer/components/sul/mapper/config/EdhocMapperConfig.java:110-116 | At most one of the initiator and responder predicates holds, and one holds exactly when the role is set. |
| MapperConfig.EdhocMapperConfig.AppMessageCodeToCoapServer | src/main/java/com/github/protocolfuzzing/edhocfuzzer/components/sul/mapper/config/EdhocMapperConfig.java:138-140 | The code keeps its length, has no lower-case ASCII letter, and keeps every other character. |
| MapperConfig.EdhocMapperConfig.AppMessageCodeToCoapClient | src/main/java/com/github/protocolfuzzing/edhocfuzzer/components/sul/mapper/config/EdhocMapperConfig.java:146-148 | The same, for the code sent to the client. |
| MapperConfig.EdhocMapperConfig.OwnConnectionId | src/main/java/com/github/protocolfuzzing/edhocfuzzer/components/sul/mapper/config/EdhocMapperConfig.java:174-176 | An unset option stays unset, "[]" gives the empty identifier, and bad hexadecimal text raises IllegalArgument. |
| MapperConfig.EdhocMapperConfig.ForceOscoreSenderId | src/main/java/com/github/protocolfuzzing/edhocfuzzer/components/sul/mapper/config/EdhocMapperConfig.java:182-184 | The same, for the forced OSCORE sender ID. |
| MapperConfig.EdhocMapperConfig.ForceOscoreRecipientId | src/main/java/com/github/protocolfuzzing/edhocfuzzer/components/sul/mapper/config/EdhocMapperConfig.java:186-188 | The same, for the forced OSCORE recipient ID. |
| MapperConfig.EdhocMapperConfig.HostCoapUri | src/main/java/com/github/protocolfuzzing/edhocfuzzer/components/sul/mapper/config/EdhocMapperConfig.java:190-192 | The URI is "coap://" followed by exactly the host. |
| MapperConfig.EdhocMapperConfig.EdhocCoapUri | src/main/java/com/github/protocolfuzzing/edhocfuzzer/components/sul/mapper/config/EdhocMapperConfig.java:194-196 | When the URI is accepted, it is the host URI followed by "/" and the EDHOC resource. A rejected URI raises a RuntimeException. |
| MapperConfig.EdhocMapperConfig.AppCoapUri | src/main/java/com/github/protocolfuzzing/edhocfuzzer/components/sul/mapper/config/EdhocMapperConfig.java:198-200 | The same, with the application resource. |
| MapperConfig.CoapUri | src/main/java/com/github/protocolfuzzing/edhocfuzzer/components/sul/mapper/config/EdhocMapperConfig.java:221-228 | The call succeeds exactly when the URI parser accepts "coap://host/resource", and fails with a RuntimeException otherwise. |
| MapperConfig.CoapUriParts | src/main/java/com/github/protocolfuzzing/edhocfuzzer/components/sul/mapper/config/EdhocMapperConfig.java:221-228 | For a host without '/', an accepted URI reads back as the scheme, then the host up to the first '/', then the resource. |
| MapperState.IdentifierKey | src/main/java/com/github/protocolfuzzing/edhocfuzzer/components/sul/mapper/context/EdhocMapperState.java:162-165 | A null identifier becomes CBOR null, and only a null one does. Any other identifier becomes the byte string holding it. |
| MapperState.IdentifierKeyInjective | src/main/java/com/github/protocolfuzzing/edhocfuzzer/components/sul/mapper/context/EdhocMapperState.java:179-185 | Distinct identifiers give distinct session-map keys, so the own and the forced recipient identifier share an entry only when they are equal. |
| MapperState.EdhocMapperState.constructor | src/main/java/com/github/protocolfuzzing/edhocfuzzer/components/sul/mapper/context/EdhocMapperState.java:100-187 | All of the following are set up: the application profile of methods 0–3 under the session URI; the empty and the own identifier reserved as used; the session is client-initiated exactly when the initiator role matches the CoAP client side, and it carries the method, own identifier, reset flag and forced OSCORE identifiers; it is registered under the own identifier, and under the forced recipient identifier when one is set, and under nothing else. |
| MapperState.EdhocMapperState.PrependedCXExclusive | src/main/java/com/github/protocolfuzzing/edhocfuzzer/components/sul/mapper/context/EdhocMapperState.java:230-240 | The two sides never both prepend C_X. With correlation enabled exactly one of them does, and without it neither does. |
| MessageProcessor.VersionsNest | src/main/java/com/github/protocolfuzzing/edhocfuzzer/components/sul/core/protocol/MessageProcessorPersistent.java:3028-3047 | Each "at most" version predicate implies the next. "At most v19" fails only for the versions after v19. |
| MessageProcessor.EncodeIdentifier | src/main/java/com/github/protocolfuzzing/edhocfuzzer/components/sul/core/protocol/MessageProcessorPersistent.java:2263-2288 | Null is not encoded, and only null. A one-byte identifier in 0x00–0x17 or 0x20–0x37 becomes the CBOR integer (-24..23) whose encoding is that byte. Every other identifier becomes a byte string. |
| MessageProcessor.OneByteDecode | src/main/java/com/github/protocolfuzzing/edhocfuzzer/components/sul/core/protocol/MessageProcessorPersistent.java:2277-2279 | Each such byte decodes by itself to an integer in -24..23 that re-encodes to the byte. |
| MessageProcessor.DecodeIdentifier | src/main/java/com/github/protocolfuzzing/edhocfuzzer/components/sul/core/protocol/MessageProcessorPersistent.java:2291-2315 | A byte string is returned as is, except that a one-byte string in the integer ranges is rejected. An integer is accepted exactly when it is in -24..23, and it gives its one-byte encoding. Every other item is rejected. |
| MessageProcessor.IntegerIdentifierLength | src/main/java/com/github/protocolfuzzing/edhocfuzzer/components/sul/core/protocol/MessageProcessorPersistent.java:2305-2311 | An integer encodes to one byte exactly when it is a plain integer in -24..23. |
| MessageProcessor.DecodeEncodeIdentifier | src/main/java/com/github/protocolfuzzing/edhocfuzzer/components/sul/core/protocol/MessageProcessorPersistent.java:2263-2315 | Decoding the encoding of any identifier gives it back. |
| MessageProcessor.EncodeDecodeIdentifier | src/main/java/com/github/protocolfuzzing/edhocfuzzer/components/sul/core/protocol/MessageProcessorPersistent.java:2263-2315 | Every accepted wire item is the encoding of what it decodes to, tags removed. |
| MessageProcessor.MessageTypeFromStructure | src/main/java/com/github/protocolfuzzing/edhocfuzzer/components/sul/core/protocol/MessageProcessorPersistent.java:45-96 | A missing or undecodable sequence is unknown. Otherwise the result is an error message exactly when there are 2 or 3 items in the error shape. Without that shape, and after dropping a prepended C_X: 4 or 5 items give message_1; 2 items give message_2 up to v19 and unknown after; 1 item gives message_3/4 up to v19 and message_2/3/4 after; anything else is unknown. |
| MessageProcessor.Message1Recognised | src/main/java/com/github/protocolfuzzing/edhocfuzzer/components/sul/core/protocol/MessageProcessorPersistent.java:70-74 | Every encoded sequence of 4 or 5 items, after a C_X where one is expected, is recognised as message_1. |
| MessageProcessor.NoMessage2AfterV19 | src/main/java/com/github/protocolfuzzing/edhocfuzzer/components/sul/core/protocol/MessageProcessorPersistent.java:75-82 | After v19, no sequence is recognised as message_2. |
| MessageProcessor.EncodedStructure | src/main/java/com/github/protocolfuzzing/edhocfuzzer/components/sul/core/protocol/MessageProcessorPersistent.java:45-96 | For an encoded sequence, the result is the structure code of its items. |
| MessageProcessor.BuildCborSequence | src/main/java/com/github/protocolfuzzing/edhocfuzzer/components/sul/core/protocol/MessageProcessorPersistent.java:2129 | The sequence builds exactly when no item is null. |
| MessageProcessor.BuildCborSequenceEncodes | src/main/java/com/github/protocolfuzzing/edhocfuzzer/components/sul/core/protocol/MessageProcessorPersistent.java:2129 | Without nulls, the result is the concatenated encodings. |
| MessageProcessor.WriteErrorMessage | src/main/java/com/github/protocolfuzzing/edhocfuzzer/components/sul/core/protocol/MessageProcessorPersistent.java:2088-2136 | The result is null for a SUITES_R that is neither an integer nor an array, and for an unspecified error without a message. It raises exactly when the items are built and C_X is to be sent but the peer has no identifier. |
| MessageProcessor.ErrorMessageRecognised | src/main/java/com/github/protocolfuzzing/edhocfuzzer/components/sul/core/protocol/MessageProcessorPersistent.java:2067-2136 | Every error message written with ERR_CODE 1, or with ERR_CODE 2 and SUITES_R, is recognised as an error message by the receiver's type detection. |
| MessageProcessor.ErrorMessageEncodes | src/main/java/com/github/protocolfuzzing/edhocfuzzer/components/sul/core/protocol/MessageProcessorPersistent.java:2108-2129 | The written message is the encoding of the items: the optional C_X, ERR_CODE, then the diagnostic text or SUITES_R. |
| MessageProcessor.WrongSuiteWithoutSuitesLooksLikeMessage3 | src/main/java/com/github/protocolfuzzing/edhocfuzzer/components/sul/core/protocol/MessageProcessorPersistent.java:2119-2129 | A wrong-suite error written without SUITES_R is the single integer 2. Up to v19, a client receiving it classifies it as message_3/4, not as an error. |
| CipherSuites.FirstShared | src/main/java/com/github/protocolfuzzing/edhocfuzzer/components/sul/core/protocol/MessageProcessorPersistent.java:1176-1185 | The suite found is in both lists. When none is found, no suite of the first list is in the second. |
| CipherSuites.FirstSharedLeftmost | src/main/java/com/github/protocolfuzzing/edhocfuzzer/components/sul/core/protocol/MessageProcessorPersistent.java:1176-1185 | The suite found is the earliest shared one: no suite before it is shared. |
| CipherSuites.SelectedSuite | src/main/java/com/github/protocolfuzzing/edhocfuzzer/components/sul/core/protocol/MessageProcessorPersistent.java:121-146 | An empty own list raises. Without a non-empty SUITES_R, the initiator's most preferred suite is selected. Otherwise its most preferred suite that the responder supports is selected, and a missing match (-1) gives null. |
| CipherSuites.SelectCipherSuite | src/main/java/com/github/protocolfuzzing/edhocfuzzer/components/sul/core/protocol/MessageProcessorPersistent.java:124-146 | The search loop selects `SelectedSuite`. |
| CipherSuites.PrefixThrough | src/main/java/com/github/protocolfuzzing/edhocfuzzer/components/sul/core/protocol/MessageProcessorPersistent.java:166-173 | The array is a prefix of the own suites. When the selected suite occurs, the prefix ends at its first occurrence; otherwise it is the whole list. |
| CipherSuites.SuitesIFor | src/main/java/com/github/protocolfuzzing/edhocfuzzer/components/sul/core/protocol/MessageProcessorPersistent.java:160-175 | SUITES_I is an integer exactly when the selected suite is the most preferred one, and then it is that suite. Otherwise it is an array that starts with the most preferred suite and, when the selected suite is an own suite, ends with it after at least two items. |
| CipherSuites.BuildSuitesI | src/main/java/com/github/protocolfuzzing/edhocfuzzer/components/sul/core/protocol/MessageProcessorPersistent.java:159-175 | The loop builds `SuitesIFor`: the selected suite as an integer when it is the most preferred one, otherwise the array of own suites up to and including it. |
| CipherSuites.PrefixThroughAt | src/main/java/com/github/protocolfuzzing/edhocfuzzer/components/sul/core/protocol/MessageProcessorPersistent.java:166-173 | The prefix ends at the first position holding the selected suite. |
| CipherSuites.SuiteItems | src/main/java/com/github/protocolfuzzing/edhocfuzzer/components/sul/core/protocol/MessageProcessorPersistent.java:1163-1169 | Accepted array items are read as non-negative 32-bit suites, one per item and in order. |
| CipherSuites.SuiteItemsOfInts | src/main/java/com/github/protocolfuzzing/edhocfuzzer/components/sul/core/protocol/MessageProcessorPersistent.java:1163-1169 | An array of non-negative 32-bit suites is accepted as exactly those suites. |
| CipherSuites.FirstSharedPrefix | src/main/java/com/github/protocolfuzzing/edhocfuzzer/components/sul/core/protocol/MessageProcessorPersistent.java:168-171 | Cutting the list after the first shared suite keeps that suite as the first shared one. |
| CipherSuites.ReadSuitesI | src/main/java/com/github/protocolfuzzing/edhocfuzzer/components/sul/core/protocol/MessageProcessorPersistent.java:1136-1215 | The SUITES_I checks of `readMessage1` and the SUITES_R they call for, under a reading of the offer: `AsWritten` is the code as it stands, `Intended` the corrected offer. Anything but an integer or an array is malformed. A selected suite is never negative. An integer SUITES_I is that suite, and all the responder's suites are offered exactly when it is not one of them. |
| CipherSuites.ReadArraySuitesI | src/main/java/com/github/protocolfuzzing/edhocfuzzer/components/sul/core/protocol/MessageProcessorPersistent.java:1158-1210 | An array SUITES_I is negotiated only with at least two items, and the selected suite is its last item. As written, any SUITES_R offered is empty or all the responder's suites. With the intended offer, a SUITES_R other than all the responder's suites is one shared suite. |
| CipherSuites.ArrayOfferAsWritten | src/main/java/com/github/protocolfuzzing/edhocfuzzer/components/sul/core/protocol/MessageProcessorPersistent.java:1186-1210 | As written, there is no offer exactly when the selected suite is the first shared one. With no shared suite, all the responder's suites are offered. Otherwise the offer is the empty list that `new ArrayList<>(firstSharedCipherSuite)` makes. |
| CipherSuites.AsWrittenReadOffersNothing | src/main/java/com/github/protocolfuzzing/edhocfuzzer/components/sul/core/protocol/MessageProcessorPersistent.java:1194-1210 | On the whole SUITES_I reading, an array that lists a shared suite before the selected one gets an empty SUITES_R as written, and that shared suite alone with the intended offer. |
| CipherSuites.InitiatorChoiceAccepted | src/main/java/com/github/protocolfuzzing/edhocfuzzer/components/sul/core/protocol/MessageProcessorPersistent.java:121-214 | Under either reading of the offer, a SUITES_I that `writeMessage1` builds, after selecting from a responder's SUITES_R, is accepted by that responder with the same selected suite and no counter-offer. |
| CipherSuites.AcceptArray | src/main/java/com/github/protocolfuzzing/edhocfuzzer/components/sul/core/protocol/MessageProcessorPersistent.java:1158-1210 | Under either reading, an array whose last suite is the first one shared with the responder is accepted with no counter-offer. |
| CipherSuites.ArrayOffer | src/main/java/com/github/protocolfuzzing/edhocfuzzer/components/sul/core/protocol/MessageProcessorPersistent.java:1186-1210 | The intended counter-offer: there is none exactly when the selected suite is the first shared one. Otherwise the offer is that first shared suite alone, or all the responder's suites when none is shared. |
| CipherSuites.EarlierSharedSuiteOffersNothing | src/main/java/com/github/protocolfuzzing/edhocfuzzer/components/sul/core/protocol/MessageProcessorPersistent.java:1194-1210 | As written, when a suite listed before the selected one is shared, `new ArrayList<>(firstSharedCipherSuite)` offers an empty SUITES_R. From an empty SUITES_R, the initiator selects as if it had received none. |
| CipherSuites.IntendedOfferSelectsFirstShared | src/main/java/com/github/protocolfuzzing/edhocfuzzer/components/sul/core/protocol/MessageProcessorPersistent.java:121-214 | With the intended offer, the initiator selects the first shared suite next, and the responder accepts the SUITES_I built for it with no further offer. |
| CipherSuites.FirstSharedOfPrefix | src/main/java/com/github/protocolfuzzing/edhocfuzzer/components/sul/core/protocol/MessageProcessorPersistent.java:1176-1185 | A prefix that shares a suite finds the same first shared suite as the whole list. |
| CipherSuites.FirstSharedSingleton | src/main/java/com/github/protocolfuzzing/edhocfuzzer/components/sul/core/protocol/MessageProcessorPersistent.java:129-141 | Searching the own list for a one-suite SUITES_R finds that suite when the list holds it. |
| OutputMapper.FirstAccepting | src/main/java/com/github/protocolfuzzing/edhocfuzzer/components/sul/mapper/mappers/EdhocOutputMapper.java:123-171 | The position found is that of the first reader that accepts, or the end of the list when none does. No earlier reader accepts. |
| OutputMapper.AfterCheck | src/main/java/com/github/protocolfuzzing/edhocfuzzer/components/sul/mapper/mappers/EdhocOutputMapper.java:221-223 | A check yields its output exactly when it succeeded. |
| OutputMapper.EdhocOutput | src/main/java/com/github/protocolfuzzing/edhocfuzzer/components/sul/mapper/mappers/EdhocOutputMapper.java:119-172 | The readers the structure allows are tried in order until one accepts. The output is that reader's message type, and exactly the readers up to it have been called. When none accepts, there is no output and all of them were called. |
| OutputMapper.EdhocOutputSound | src/main/java/com/github/protocolfuzzing/edhocfuzzer/components/sul/mapper/mappers/EdhocOutputMapper.java:119-172 | An EDHOC output is always produced by the last reader called, which accepted; every reader called before it rejected. |
| OutputMapper.AppOutput | src/main/java/com/github/protocolfuzzing/edhocfuzzer/components/sul/mapper/mappers/EdhocOutputMapper.java:86-117 | Application data is reported exactly when the connector flags it. Message_3 with OSCORE application data takes precedence over plain OSCORE application data. |
| OutputMapper.CoapError | src/main/java/com/github/protocolfuzzing/edhocfuzzer/components/sul/mapper/mappers/EdhocOutputMapper.java:213-219 | A CoAP error is reported as an EDHOC error message exactly when `coapErrorAsEdhocError` is set. |
| OutputMapper.CoapOutput | src/main/java/com/github/protocolfuzzing/edhocfuzzer/components/sul/mapper/mappers/EdhocOutputMapper.java:174-211 | The CoAP checks, in order: an error, then an empty message, then an application message, then any non-null payload as a CoAP message. There is an output exactly when one of these applies. |
| OutputMapper.FirstSome | src/main/java/com/github/protocolfuzzing/edhocfuzzer/components/sul/mapper/mappers/EdhocOutputMapper.java:61-83 | The first non-null output of the candidates is taken, and there is none exactly when all are null. |
| OutputMapper.ReceiveOutput | src/main/java/com/github/protocolfuzzing/edhocfuzzer/components/sul/mapper/mappers/EdhocOutputMapper.java:38-84 | Each connector exception maps to its special output: a generic error to socket closed, a timeout to timeout, and send failures to unsupported or unsuccessful. The output is `unknown` exactly when a payload with no EDHOC structure arrives and no connector flag is set. |
| OutputMapper.ReceiveOutputPrecedence | src/main/java/com/github/protocolfuzzing/edhocfuzzer/components/sul/mapper/mappers/EdhocOutputMapper.java:59-83 | For a received payload, the output is the first non-null one among application data, EDHOC output and CoAP output, and `unknown` otherwise. |
| OutputMapper.ApplicationDataFirst | src/main/java/com/github/protocolfuzzing/edhocfuzzer/components/sul/mapper/mappers/EdhocOutputMapper.java:61-67 | When the connector flags application data, the output is an application-data symbol, whatever the payload. |
| OutputMapper.CoapOnlyAfterEdhocDeclines | src/main/java/com/github/protocolfuzzing/edhocfuzzer/components/sul/mapper/mappers/EdhocOutputMapper.java:69-81 | A CoAP output is only given when there is no application data and no EDHOC reader accepted. |
| OutputMapper.Message4OnlyAfterMessage3Fails | src/main/java/com/github/protocolfuzzing/edhocfuzzer/components/sul/mapper/mappers/EdhocOutputMapper.java:139-166 | EDHOC message_4 is only reported for a message_3/4 or message_2/3/4 structure, after the message_3 reader (and, for the latter, the message_2 reader) rejected it. |
| ProbeRunner.VerdictWalkFalse | src/main/java/gr/ntua/softlab/protocolStateFuzzer/testRunner/ProbeTestRunner.java:32-39 | The walk finds no non-determinism exactly when, from that position on, every test has at most one distinct answer and, against a control run, the same answers as the control at the same position. |
| ProbeRunner.VerdictFalse | src/main/java/gr/ntua/softlab/protocolStateFuzzer/testRunner/ProbeTestRunner.java:24-46 | A run is deterministic exactly when every test has a single answer and, unless it is the control run, matches the control run position by position. A non-control run needs a stored control. |
| ProbeRunner.VerdictFirstMultiple | src/main/java/gr/ntua/softlab/protocolStateFuzzer/testRunner/ProbeTestRunner.java:33-35 | The first test with more than one distinct answer makes the run non-deterministic, whatever follows it. |
| ProbeRunner.ControlReplay | src/main/java/gr/ntua/softlab/protocolStateFuzzer/testRunner/ProbeTestRunner.java:24-46 | A deterministic control run, replayed with the same results, is deterministic against itself. |
| ProbeRunner.ProbeTestRunner.constructor | src/main/java/gr/ntua/softlab/protocolStateFuzzer/testRunner/ProbeTestRunner.java:20-22 | No control run is stored yet. |
| ProbeRunner.ProbeTestRunner.IsNonDeterministic | src/main/java/gr/ntua/softlab/protocolStateFuzzer/testRunner/ProbeTestRunner.java:24-46 | The loop returns the verdict of `Verdict` on the stored control. A control run stores its results exactly when it finds them deterministic, and otherwise the stored control is kept. |
| ProtocolMessage.ContentFormatFor | src/main/java/com/github/protocolfuzzing/edhocfuzzer/components/sul/core/protocol/messages/EdhocProtocolMessage.java:51-61 | Without the old numbering, the format is unchanged. With it, the two EDHOC formats become 65000 and 65001, and every other format is unchanged. |
| ProtocolMessage.OldFormatRoundTrip | src/main/java/com/github/protocolfuzzing/edhocfuzzer/components/sul/core/protocol/messages/EdhocProtocolMessage.java:51-61 | Mapping to the old numbers is undone by `RegisteredFormat` for every format other than the old numbers themselves. |
| ProtocolMessage.OldFormatInjective | src/main/java/com/github/protocolfuzzing/edhocfuzzer/components/sul/core/protocol/messages/EdhocProtocolMessage.java:51-61 | Distinct formats remain distinct in the old numbering. |
| ProtocolMessage.EdhocProtocolMessage.constructor | src/main/java/com/github/protocolfuzzing/edhocfuzzer/components/sul/core/protocol/messages/EdhocProtocolMessage.java:20-41 | A new message carries an EDHOC payload type and no payload yet. A CoAP client sends a POST with the connection-identifier format, and a CoAP server sends a Changed response with the plain format. |
| ProtocolMessage.FreshMessageFormats | src/main/java/com/github/protocolfuzzing/edhocfuzzer/components/sul/core/protocol/messages/EdhocProtocolMessage.java:20-61 | A fresh message announces 65 (old: 65001) as a client and 64 (old: 65000) as a server. The old number maps back to the current one. |
| Statistics.StatisticsTracker.constructor | src/main/java/gr/ntua/softlab/protocolStateFuzzer/components/learner/statistics/StatisticsTracker.java:68-71 | A new tracker has not started, holds no counterexamples or hypotheses, and all its counters are zero. |
| Statistics.StatisticsTracker.StartLearning | src/main/java/gr/ntua/softlab/protocolStateFuzzer/components/learner/statistics/StatisticsTracker.java:114-128 | Starting resets the learning and total counters, the counterexample list, the hypothesis list and the finished flag, and takes the start time. The last-counterexample counts and the duration are kept. |
| Statistics.StatisticsTracker.NewHypothesis | src/main/java/gr/ntua/softlab/protocolStateFuzzer/components/learner/statistics/StatisticsTracker.java:133-145 | Learning cost grows by the inputs and tests run since the last counterexample. The current counts become the last-hypothesis counts. A record of the states and a snapshot is made. The record is numbered by the counterexamples so far and appended, except before `startLearning`, where the null list raises. |
| Statistics.StatisticsTracker.NewCounterExample | src/main/java/gr/ntua/softlab/protocolStateFuzzer/components/learner/statistics/StatisticsTracker.java:151-158 | The current counts are remembered and the counterexample is appended. It and a snapshot are attached to the last hypothesis record, which is also updated in the list. Before `startLearning` or before any hypothesis, the null field raises. |
| Statistics.StatisticsTracker.FinishedLearning | src/main/java/gr/ntua/softlab/protocolStateFuzzer/components/learner/statistics/StatisticsTracker.java:165-173 | The model size, the total counts, the duration since the start and the finished flag are recorded, and nothing else changes. |
| Statistics.StatisticsTracker.GenerateStatistics | src/main/java/gr/ntua/softlab/protocolStateFuzzer/components/learner/statistics/StatisticsTracker.java:178-194 | The report carries exactly the recorded counters, duration, counterexamples, hypothesis records and alphabet size. The model size is 0 without a model, and the call raises when no alphabet was given. |
| Statistics.RefinementRound | src/main/java/gr/ntua/softlab/protocolStateFuzzer/components/learner/statistics/StatisticsTracker.java:114-158 | One round of refinement: the first hypothesis is numbered 0 and refuted by the counterexample, and the second is numbered 1. Inputs spent testing the first hypothesis do not count towards learning. |
| SteppedContext.ExecutionContextStepped.constructor | src/main/java/gr/ntua/softlab/protocolStateFuzzer/components/sul/mapper/context/ExecutionContextStepped.java:15-18 | A new context has no steps and execution is enabled. |
| SteppedContext.ExecutionContextStepped.DisableExecution | src/main/java/gr/ntua/softlab/protocolStateFuzzer/components/sul/mapper/context/ExecutionContextStepped.java:26-28 | Execution is disabled and the steps are kept. |
| SteppedContext.ExecutionContextStepped.EnableExecution | src/main/java/gr/ntua/softlab/protocolStateFuzzer/components/sul/mapper/context/ExecutionContextStepped.java:31-33 | Execution is enabled and the steps are kept. |
| SteppedContext.ExecutionContextStepped.AddStepContext | src/main/java/gr/ntua/softlab/protocolStateFuzzer/components/sul/mapper/context/ExecutionContextStepped.java:48-50 | A step numbered by the current count is appended, with no input yet. |
| SteppedContext.ExecutionContextStepped.LatestStepContext | src/main/java/gr/ntua/softlab/protocolStateFuzzer/components/sul/mapper/context/ExecutionContextStepped.java:52-56 | The latest step is the last one, numbered one less than the count. It is null exactly when there are no steps. |
| SteppedContext.ExecutionContextStepped.SetInput | src/main/java/gr/ntua/softlab/protocolStateFuzzer/components/sul/mapper/context/ExecutionContextStepped.java:41-46 | The input goes to the latest step only. Without steps, nothing changes. |
| SteppedContext.ExecutionContextStepped.StepContextAt | src/main/java/gr/ntua/softlab/protocolStateFuzzer/components/sul/mapper/context/ExecutionContextStepped.java:62-64 | A step is returned exactly for an index in range, and it carries that index; otherwise the call raises IndexOutOfBounds. |
| SteppedContext.ExecutionContextStepped.StepCount | src/main/java/gr/ntua/softlab/protocolStateFuzzer/components/sul/mapper/context/ExecutionContextStepped.java:66-68 | The count is the number of steps, and it is positive exactly when there is a latest step. |
| SteppedContext.RunSteps | src/main/java/gr/ntua/softlab/protocolStateFuzzer/components/sul/mapper/context/ExecutionContextStepped.java:41-50 | Adding a step and setting its input, once per input, gives step i numbered i and holding input i. |
| SulWrappers.WrapLayers | src/main/java/gr/ntua/softlab/protocolStateFuzzer/components/sul/core/SulWrapperStandard.java:25-55 | The process wrapper is added exactly when a command is configured. A resetting server wrapper is added exactly when a reset port is configured and a client is fuzzed, and a resetting client wrapper exactly with a reset port and a fuzzed server. The chain always ends with the is-alive wrapper and the symbol and reset counters, and holds no limit wrapper yet. |
| SulWrappers.CountsOfAppend | src/main/java/gr/ntua/softlab/protocolStateFuzzer/components/sul/core/SulWrapperStandard.java:58-80 | Limit wrappers in a chain are counted part by part. |
| SulWrappers.SulWrapperStandard.constructor | src/main/java/gr/ntua/softlab/protocolStateFuzzer/components/sul/core/SulWrapperStandard.java:18-22 | No wrapper and no limit are set yet. |
| SulWrappers.SulWrapperStandard.Wrap | src/main/java/gr/ntua/softlab/protocolStateFuzzer/components/sul/core/SulWrapperStandard.java:25-55 | Wrapping builds the chain of `WrapLayers` and keeps the limits. |
| SulWrappers.SulWrapperStandard.SetTimeLimit | src/main/java/gr/ntua/softlab/protocolStateFuzzer/components/sul/core/SulWrapperStandard.java:58-68 | A null, negative or zero limit, or a second limit, changes nothing. Otherwise the limit is stored and a timeout wrapper is added outermost. At most one timeout wrapper is ever added. |
| SulWrappers.SulWrapperStandard.SetTestLimit | src/main/java/gr/ntua/softlab/protocolStateFuzzer/components/sul/core/SulWrapperStandard.java:70-80 | The same for the test limit, with a test-limit wrapper. |
| SulWrappers.FirstTimeLimitWins | src/main/java/gr/ntua/softlab/protocolStateFuzzer/components/sul/core/SulWrapperStandard.java:58-68 | Of two valid time limits, the first one set stays, with a single timeout wrapper. |
| TestRunner.Distinct | src/main/java/gr/ntua/softlab/protocolStateFuzzer/testRunner/TestRunner.java:37-45 | The keys of the insertion-ordered answer map hold exactly the answers seen. |
| TestRunner.DistinctOnce | src/main/java/gr/ntua/softlab/protocolStateFuzzer/testRunner/TestRunner.java:37-45 | Each answer seen is a key exactly once, and an answer never seen is not a key. |
| TestRunner.FirstIndex | src/main/java/gr/ntua/softlab/protocolStateFuzzer/testRunner/TestRunner.java:37-45 | The first position of an answer in the run order holds that answer. |
| TestRunner.DistinctOrder | src/main/java/gr/ntua/softlab/protocolStateFuzzer/testRunner/TestRunner.java:37-45 | The map keys come in the order in which each answer was first seen, as a `LinkedHashMap` keeps them. |
| TestRunner.DistinctTotal | src/main/java/gr/ntua/softlab/protocolStateFuzzer/testRunner/TestRunner.java:37-45 | The occurrence counts over the distinct answers add up to the number of runs. |
| TestRunner.TalliedCounts | src/main/java/gr/ntua/softlab/protocolStateFuzzer/testRunner/TestRunner.java:37-45 | The answer map holds exactly the answers seen, each with the number of runs that gave it, keyed in first-seen order. |
| TestRunner.TotalCounts | src/main/java/gr/ntua/softlab/protocolStateFuzzer/testRunner/TestRunner.java:37-45 | Summing the map's counts over any keys drawn from the answers equals counting those answers in the runs. |
| TestRunner.TallyProperties | src/main/java/gr/ntua/softlab/protocolStateFuzzer/testRunner/TestRunner.java:36-47 | The counts add up to the number of runs, each count is that answer's frequency, the keys are exactly the answers seen, each once, in first-seen order. |
| TestRunner.RunTest | src/main/java/gr/ntua/softlab/protocolStateFuzzer/testRunner/TestRunner.java:36-47 | The loop over `times` runs builds exactly the tally of the answers. A non-positive `times` gives an empty map. |
| TestRunner.Rendered | src/main/java/gr/ntua/softlab/protocolStateFuzzer/testRunner/TestRunner.java:154-159 | An output is written as "-" exactly when it timed out or has no atomic outputs left. |
| TestRunner.AppendedJoin | src/main/java/gr/ntua/softlab/protocolStateFuzzer/testRunner/TestRunner.java:157-158 | Appending each atomic output with "; " and then deleting the character before the final space equals joining them with "; " and adding one space. |
| TestRunner.AppendAtomics | src/main/java/gr/ntua/softlab/protocolStateFuzzer/testRunner/TestRunner.java:153-159 | The builder gains the rendering of the non-empty atomic outputs. |
| TestRunner.LineText | src/main/java/gr/ntua/softlab/protocolStateFuzzer/testRunner/TestRunner.java:150-155 | A transition line starts with the input followed by " / ". |
| TestRunner.SymbolLines | src/main/java/gr/ntua/softlab/protocolStateFuzzer/testRunner/TestRunner.java:146-160 | A symbol gives one line, or two when a client's first output is an initial client message. The last line is always the transition of that input. |
| TestRunner.AnswerLinesStart | src/main/java/gr/ntua/softlab/protocolStateFuzzer/testRunner/TestRunner.java:145-161 | An answer gives one transition line per input, after at most one initial "- / ..." line. |
| TestRunner.TextsAppend | src/main/java/gr/ntua/softlab/protocolStateFuzzer/testRunner/TestRunner.java:145-161 | Line texts of consecutive parts concatenate. |
| TestRunner.UnlinesAppend | src/main/java/gr/ntua/softlab/protocolStateFuzzer/testRunner/TestRunner.java:144-160 | The line-separated text of consecutive parts concatenates. |
| TestRunner.AppendSymbol | src/main/java/gr/ntua/softlab/protocolStateFuzzer/testRunner/TestRunner.java:146-160 | One symbol is rendered as its lines. A client's first symbol with no atomic outputs raises IndexOutOfBounds at `atomicOutputs.get(0)`. |
| TestRunner.AppendTransition | src/main/java/gr/ntua/softlab/protocolStateFuzzer/testRunner/TestRunner.java:153-160 | The builder gains exactly one transition line. |
| TestRunner.AnswerTextStep | src/main/java/gr/ntua/softlab/protocolStateFuzzer/testRunner/TestRunner.java:145-161 | The text of the first k + 1 symbols is the text of the first k followed by the lines of symbol k. |
| TestRunner.AppendStep | src/main/java/gr/ntua/softlab/protocolStateFuzzer/testRunner/TestRunner.java:145-161 | Each loop step extends the rendering of the first i symbols to the first i + 1, or raises exactly when symbol i cannot be printed. |
| TestRunner.AppendAnswer | src/main/java/gr/ntua/softlab/protocolStateFuzzer/testRunner/TestRunner.java:144-161 | An answer renders as the lines of all its symbols, and raises exactly when some symbol cannot be printed. |
| TestRunner.PrintAnswer | src/main/java/gr/ntua/softlab/protocolStateFuzzer/testRunner/TestRunner.java:144-161 | The rendering of one answer is its specification text. |
| TestRunner.TransitionSequenceString | src/main/java/gr/ntua/softlab/protocolStateFuzzer/testRunner/TestRunner.java:141-164 | The whole text is the rendering of every answer in map order, each after a line separator. |
| TestRunner.SequenceTextShape | src/main/java/gr/ntua/softlab/protocolStateFuzzer/testRunner/TestRunner.java:141-164 | The transition sequence string can be produced exactly when every answer is printable. |
| TestVectors.ParseAll | src/main/java/gr/ntua/softlab/edhocfuzzer/components/sul/mapper/config/authentication/TestVector.java:51-52 | The list parses exactly when every piece is a valid integer, and then holds each piece's value in order. Otherwise it raises NumberFormat. |
| TestVectors.ParseCipherSuites | src/main/java/gr/ntua/softlab/edhocfuzzer/components/sul/mapper/config/authentication/TestVector.java:48-55 | A missing suites string raises NullPointer. Otherwise the text is split at commas and every piece is parsed. |
| TestVectors.CipherSuitesRoundTrip | src/main/java/gr/ntua/softlab/edhocfuzzer/components/sul/mapper/config/authentication/TestVector.java:48-55 | A non-empty list of suites written out comma-separated parses back to the same list. |
| TestVectors.TestVector.constructor | src/main/java/gr/ntua/softlab/edhocfuzzer/components/sul/mapper/config/authentication/TestVector.java:9-42 | A vector holds the fields it was read with, and no suite list has been parsed yet. |
| TestVectors.TestVector.GetCipherSuites | src/main/java/gr/ntua/softlab/edhocfuzzer/components/sul/mapper/config/authentication/TestVector.java:48-55 | The first call parses and caches a successful result, and later calls return the cache. A failed parse caches nothing. |
| TestVectors.TestVector.PublicKey | src/main/java/gr/ntua/softlab/edhocfuzzer/components/sul/mapper/config/authentication/TestVector.java:57-59 | The initiator's public key for the initiator, the responder's otherwise. |
| TestVectors.TestVector.PrivateKey | src/main/java/gr/ntua/softlab/edhocfuzzer/components/sul/mapper/config/authentication/TestVector.java:61-63 | The same choice for the private key. |
| TestVectors.TestVector.CredCbor | src/main/java/gr/ntua/softlab/edhocfuzzer/components/sul/mapper/config/authentication/TestVector.java:65-67 | The same choice for CRED. |
| TestVectors.TestVector.IdCredCbor | src/main/java/gr/ntua/softlab/edhocfuzzer/components/sul/mapper/config/authentication/TestVector.java:69-71 | The same choice for ID_CRED. |
| TestVectors.CipherSuitesCached | src/main/java/gr/ntua/softlab/edhocfuzzer/components/sul/mapper/config/authentication/TestVector.java:48-55 | A second call returns exactly what a successful first call parsed. |
| TestVectors.SplitP256 | src/main/java/gr/ntua/softlab/edhocFuzzer/components/sul/mapper/context/TestVectorAuthenticator.java:155-162 | A raw P-256 key splits exactly when it is 65 bytes long, into two 32-byte coordinates that follow the flag byte. Any other length raises. |
| TestVectors.SplitP256RoundTrip | src/main/java/gr/ntua/softlab/edhocFuzzer/components/sul/mapper/context/TestVectorAuthenticator.java:155-162 | A flag byte followed by two coordinates splits back into those coordinates. |
| TestVectors.SplitP256PublicKey | src/main/java/gr/ntua/softlab/edhocFuzzer/components/sul/mapper/context/TestVectorAuthenticator.java:155-162 | The two `System.arraycopy` calls: a wrong length raises and copies nothing. X is copied from offset 1 and Y from offset 33, each raising IndexOutOfBounds when its array reaches past the key. |
| TestVectors.SplitIntoCoordinates | src/main/java/gr/ntua/softlab/edhocFuzzer/components/sul/mapper/context/TestVectorAuthenticator.java:84-86 | Splitting into two fresh 32-byte arrays gives exactly `SplitP256`. |
| TestVectors.CredentialValues | src/main/java/gr/ntua/softlab/edhocFuzzer/components/sul/mapper/context/TestVectorAuthenticator.java:169-171 | The credential values exist exactly when both texts are hexadecimal and ID_CRED decodes as CBOR. CRED is the byte string, ID_CRED the decoded item, and bad CRED text raises its error. |
| TestVectors.CredentialValuesRoundTrip | src/main/java/gr/ntua/softlab/edhocFuzzer/components/sul/mapper/context/TestVectorAuthenticator.java:169-171 | A CRED written as hexadecimal and an ID_CRED encoded and written as hexadecimal come back as they were. |
| TestVectors.OwnUsage | src/main/java/gr/ntua/softlab/edhocFuzzer/components/sul/mapper/context/TestVectorAuthenticator.java:67-78 | Methods 0 and 1 use the signature key, 2 and 3 the static key, and no other method is valid. |
| TestVectors.OneUsageOnly | src/main/java/gr/ntua/softlab/edhocFuzzer/components/sul/mapper/context/TestVectorAuthenticator.java:65-100 | A method installs own keys of one usage only. With suites 0 or 1 a signature method installs an Ed25519 key. |
| TestVectors.PeerCurve | src/main/java/gr/ntua/softlab/edhocFuzzer/components/sul/mapper/context/TestVectorAuthenticator.java:110-152 | A peer key is installed only for a known method. Ed25519 only for methods 0 and 2, X25519 only for 1 and 3, and P-256 exactly when the configured curve is "P256". |
| TestVectors.TestVectorAuthenticator.constructor | src/main/java/gr/ntua/softlab/edhocFuzzer/components/sul/mapper/context/TestVectorAuthenticator.java:35-49 | As written: the method field is left at 0, whatever the vector says. The other inputs are stored. |
| TestVectors.TestVectorAuthenticator.WithVectorMethod | src/main/java/gr/ntua/softlab/edhocFuzzer/components/sul/mapper/context/TestVectorAuthenticator.java:35-49 | Corrected: the method is the vector's own. |
| TestVectors.TestVectorAuthenticator.OwnCredentialValues | src/main/java/gr/ntua/softlab/edhocFuzzer/components/sul/mapper/context/TestVectorAuthenticator.java:169-171 | The own CRED and ID_CRED come from the vector's side for this role. |
| TestVectors.TestVectorAuthenticator.PeerCredentialValues | src/main/java/gr/ntua/softlab/edhocFuzzer/components/sul/mapper/context/TestVectorAuthenticator.java:187-189 | The peer CRED and ID_CRED come from the other side. |
| TestVectors.TestVectorAuthenticator.AddOwnCredentials | src/main/java/gr/ntua/softlab/edhocFuzzer/components/sul/mapper/context/TestVectorAuthenticator.java:164-180 | A null key pair raises "Null provided keyPair", and bad credential text raises its error; both leave the store unchanged. Otherwise the key, CRED and ID_CRED go under (usage, curve), ID_CRED joins the own set, and the peer maps stay. |
| TestVectors.TestVectorAuthenticator.AddPeerCredentials | src/main/java/gr/ntua/softlab/edhocFuzzer/components/sul/mapper/context/TestVectorAuthenticator.java:182-193 | A null key pair or bad credential text raises and leaves the store unchanged. Otherwise the peer key and CRED are stored under the ID_CRED, and the own maps stay. |
| TestVectors.TestVectorAuthenticator.SetupOwnAuthenticationCredentials | src/main/java/gr/ntua/softlab/edhocFuzzer/components/sul/mapper/context/TestVectorAuthenticator.java:52-101 | Both usages get fresh maps. Setup succeeds exactly when the keys parse and each used family has a valid method (and a 65-byte key for P-256). It then installs exactly the expected own keys, and the peer maps stay. |
| TestVectors.TestVectorAuthenticator.InstallOwnKeys | src/main/java/gr/ntua/softlab/edhocFuzzer/components/sul/mapper/context/TestVectorAuthenticator.java:65-100 | From empty maps, exactly the expected keys of the two families are installed. |
| TestVectors.TestVectorAuthenticator.InstallCurve25519Key | src/main/java/gr/ntua/softlab/edhocFuzzer/components/sul/mapper/context/TestVectorAuthenticator.java:65-80 | With suites 0 or 1, an Ed25519 or X25519 key goes under the method's usage, and an invalid method raises. Without them nothing changes. |
| TestVectors.TestVectorAuthenticator.InstallP256Key | src/main/java/gr/ntua/softlab/edhocFuzzer/components/sul/mapper/context/TestVectorAuthenticator.java:82-100 | With suites 2 or 3, the key is split first (a wrong length raises), then a P-256 key goes under the method's usage. Without them nothing changes. |
| TestVectors.TestVectorAuthenticator.SetupPeerAuthenticationCredentials | src/main/java/gr/ntua/softlab/edhocFuzzer/components/sul/mapper/context/TestVectorAuthenticator.java:104-153 | The peer key is stored exactly when the method and configured curve fit and the key parses, under the curve `PeerCurve` gives. A method outside 0..3 stores nothing, and the own maps stay. |
| TestVectors.AsWrittenIgnoresVectorMethod | src/main/java/gr/ntua/softlab/edhocFuzzer/components/sul/mapper/context/TestVectorAuthenticator.java:35-101 | As written: a method-3 vector with suite 0 installs an Ed25519 signature key and no static key. |
| TestVectors.VectorMethodInstallsStaticKey | src/main/java/gr/ntua/softlab/edhocFuzzer/components/sul/mapper/context/TestVectorAuthenticator.java:35-101 | With the vector's method, the same vector installs an X25519 static key and no signature key. |
| TimingProbe.SetWaits | src/main/java/gr/ntua/softlab/protocolStateFuzzer/timingProbe/TimingProbe.java:103-105 | Every input whose name contains the command gets the new extended wait, and the others keep theirs, in the same order. |
| TimingProbe.ApplyOverwrite | src/main/java/gr/ntua/softlab/protocolStateFuzzer/timingProbe/TimingProbe.java:96-107 | Setting a timing parameter twice leaves only the second value. |
| TimingProbe.ApplySame | src/main/java/gr/ntua/softlab/protocolStateFuzzer/timingProbe/TimingProbe.java:96-107 | Setting an input's wait to the value its matching inputs already have changes nothing. |
| TimingProbe.SetKeeps | src/main/java/gr/ntua/softlab/protocolStateFuzzer/timingProbe/TimingProbe.java:96-107 | Setting a parameter depends only on the settings it does not overwrite, and it keeps those. |
| TimingProbe.Present | src/main/java/gr/ntua/softlab/protocolStateFuzzer/timingProbe/TimingProbe.java:26-30 | The presentation is braced, and it is "{}" for an empty map. |
| TimingProbe.PresentOne | src/main/java/gr/ntua/softlab/protocolStateFuzzer/timingProbe/TimingProbe.java:26-30 | A single entry is shown as "{key=value}". |
| TimingProbe.Prober.constructor | src/main/java/gr/ntua/softlab/protocolStateFuzzer/timingProbe/TimingProbe.java:32-40 | The prober holds the configured probe bounds, the oracle and the current timing. |
| TimingProbe.Prober.SetTimingParameter | src/main/java/gr/ntua/softlab/protocolStateFuzzer/timingProbe/TimingProbe.java:96-107 | A "timeout" command sets the timeout, a "runWait" command the run wait, and any other command the extended wait of every input whose name contains it. The search bounds stay. |
| TimingProbe.Prober.FindLimits | src/main/java/gr/ntua/softlab/protocolStateFuzzer/timingProbe/TimingProbe.java:114-142 | True exactly when the first probe at `probeLo` is deterministic (a timeout probed from 0 always searches), with both bounds at `probeLo`. Otherwise `lo` is `probeLo` or a non-deterministic value with `hi` twice it, and `hi` reached `probeHi` or is deterministic. Only this command's setting changes. It finds exactly what `Limits` describes. |
| TimingProbe.Prober.DoublingStops | src/main/java/gr/ntua/softlab/protocolStateFuzzer/timingProbe/TimingProbe.java:135-141 | The doubling loop keeps `lo` at `probeLo` or at the last non-deterministic value, with `hi` twice it, and it stops once `hi` reaches `probeHi` or is deterministic. |
| TimingProbe.Prober.LimitsFound | src/main/java/gr/ntua/softlab/protocolStateFuzzer/timingProbe/TimingProbe.java:114-142 | `findLimits` reports true exactly when the first probe at `probeLo` is deterministic (never for a timeout probed from 0), and then `lo == hi == probeLo`. Otherwise `probeLo <= lo <= hi`, `lo` is `probeLo` or a non-deterministic value with `hi` twice it, and `hi` reached `probeHi` or is deterministic. |
| TimingProbe.Prober.BinarySearch | src/main/java/gr/ntua/softlab/protocolStateFuzzer/timingProbe/TimingProbe.java:148-156 | The interval only narrows, to at most `probeMin` wide. `lo` stays non-deterministic and `hi` deterministic unless unmoved, and `hi` is returned. The value returned is `Search` of the starting interval. |
| TimingProbe.Prober.SearchWithin | src/main/java/gr/ntua/softlab/protocolStateFuzzer/timingProbe/TimingProbe.java:148-156 | The search result lies within `[lo, hi]`. It is `hi` itself or a value at which the runner sees no non-determinism. |
| TimingProbe.Prober.SearchSameOutside | src/main/java/gr/ntua/softlab/protocolStateFuzzer/timingProbe/TimingProbe.java:148-156 | The search depends only on the runner's verdicts for the searched parameter, so the other parameters can be left as they are. |
| TimingProbe.Prober.SetAllTimingParameters | src/main/java/gr/ntua/softlab/protocolStateFuzzer/timingProbe/TimingProbe.java:90-94 | Every command is set to the value in turn, and the search bounds stay. |
| TimingProbe.Prober.FindDeterministicTimesValues | src/main/java/gr/ntua/softlab/protocolStateFuzzer/timingProbe/TimingProbe.java:73-88 | It raises "Non-determinism at max timing values" exactly when the control run at `probeHi` is non-deterministic. Otherwise the map and the final timing are what `ProbeFrom` gives from the timing with every parameter at `probeHi`. Command by command, in order, the best time recorded and set is `probeLo` when `findLimits` holds and the binary search result otherwise; a later repeat of a command overwrites it. Every command gets a best time of at least `probeLo`, and no other key is added. |
| TimingProbe.Prober.BestTimeAtLeast | src/main/java/gr/ntua/softlab/protocolStateFuzzer/timingProbe/TimingProbe.java:80-86 | A best time is never below `probeLo`. |
| TimingProbe.Prober.ProbeFromRecords | src/main/java/gr/ntua/softlab/protocolStateFuzzer/timingProbe/TimingProbe.java:80-87 | The probe loop records exactly the commands given, each with a best time of at least `probeLo`, and leaves earlier entries alone. |
| TimingProbe.Prober.IsValidCommand | src/main/java/gr/ntua/softlab/protocolStateFuzzer/timingProbe/TimingProbe.java:170-176 | A command is valid exactly when it names the timeout or the run wait, or some input's name contains it. |
| TimingProbe.Prober.IsValid | src/main/java/gr/ntua/softlab/protocolStateFuzzer/timingProbe/TimingProbe.java:162-168 | The probe commands are valid exactly when each comma-separated command is. |
| ToolConfig.NextDollar | src/main/java/gr/ntua/softlab/protocolStateFuzzer/stateFuzzer/config/ToolConfig.java:148 | The first '$' at or after a position, or the end of the string. |
| ToolConfig.NextDollarFirst | src/main/java/gr/ntua/softlab/protocolStateFuzzer/stateFuzzer/config/ToolConfig.java:148 | No '$' occurs before the position found. |
| ToolConfig.LastBrace | src/main/java/gr/ntua/softlab/protocolStateFuzzer/stateFuzzer/config/ToolConfig.java:148 | A '}' found in a range lies in the range. |
| ToolConfig.LastBraceLast | src/main/java/gr/ntua/softlab/protocolStateFuzzer/stateFuzzer/config/ToolConfig.java:148 | The '}' found is the last in the range, and none is found when the range has none. |
| ToolConfig.MatchAt | src/main/java/gr/ntua/softlab/protocolStateFuzzer/stateFuzzer/config/ToolConfig.java:148 | A match at a position starts with "${" and ends at a '}'. |
| ToolConfig.MatchAtGreedy | src/main/java/gr/ntua/softlab/protocolStateFuzzer/stateFuzzer/config/ToolConfig.java:148 | The greedy `[^$]*` group holds no '$', and its closing brace is the last '}' before the next '$'. Without such a brace there is no match. |
| ToolConfig.FindMatch | src/main/java/gr/ntua/softlab/protocolStateFuzzer/stateFuzzer/config/ToolConfig.java:150 | `matcher.find()` returns a match at or after the position. |
| ToolConfig.FindMatchLeftmost | src/main/java/gr/ntua/softlab/protocolStateFuzzer/stateFuzzer/config/ToolConfig.java:150 | The match found is the leftmost, and none is found when no position matches. |
| ToolConfig.GroupRef | src/main/java/gr/ntua/softlab/protocolStateFuzzer/stateFuzzer/config/ToolConfig.java:157 | A group reference in the replacement names a group of the pattern and stays within the text. |
| ToolConfig.ExpandPlain | src/main/java/gr/ntua/softlab/protocolStateFuzzer/stateFuzzer/config/ToolConfig.java:157 | A replacement without '\\' or '$' is appended literally. |
| ToolConfig.Groups | src/main/java/gr/ntua/softlab/protocolStateFuzzer/stateFuzzer/config/ToolConfig.java:148-157 | A match has the whole match and its three groups. |
| ToolConfig.ResolveWalkMatch | src/main/java/gr/ntua/softlab/protocolStateFuzzer/stateFuzzer/config/ToolConfig.java:150-159 | One loop step: an unknown key is skipped, and a known key's replacement is appended after the text before the match. |
| ToolConfig.Resolver.constructor | src/main/java/gr/ntua/softlab/protocolStateFuzzer/stateFuzzer/config/ToolConfig.java:130-131 | The resolver starts with the properties and an empty cache. |
| ToolConfig.Resolver.Resolve | src/main/java/gr/ntua/softlab/protocolStateFuzzer/stateFuzzer/config/ToolConfig.java:136-170 | Null resolves to null. A cached string returns its cached resolution. A string is cached only when it contained a placeholder, and a failed replacement raises without caching. The properties never change. |
| ToolConfig.ReplaceMatch | src/main/java/gr/ntua/softlab/protocolStateFuzzer/stateFuzzer/config/ToolConfig.java:150-159 | One `appendReplacement` advances the walk past the match, without changing the final result. |
| ToolConfig.ResolveString | src/main/java/gr/ntua/softlab/protocolStateFuzzer/stateFuzzer/config/ToolConfig.java:145-165 | The loop computes exactly the resolution and whether any placeholder was found. |
| ToolConfig.ResolvedNeeded | src/main/java/gr/ntua/softlab/protocolStateFuzzer/stateFuzzer/config/ToolConfig.java:145-153 | Resolution is needed exactly when the string contains a "${...}" match. |
| ToolConfig.ResolveWalkUnknown | src/main/java/gr/ntua/softlab/protocolStateFuzzer/stateFuzzer/config/ToolConfig.java:150-162 | When no key from a position on is known, the rest of the string is appended unchanged. |
| ToolConfig.ResolveUnknown | src/main/java/gr/ntua/softlab/protocolStateFuzzer/stateFuzzer/config/ToolConfig.java:150-169 | A string whose keys are all unknown resolves to itself. |
| ToolConfig.ResolvePlaceholder | src/main/java/gr/ntua/softlab/protocolStateFuzzer/stateFuzzer/config/ToolConfig.java:150-169 | "${k}" resolves to the value of a known plain key, and stays as written for an unknown key. Either way it needed resolution. |
| ToolConfig.PlaceholderMatches | src/main/java/gr/ntua/softlab/protocolStateFuzzer/stateFuzzer/config/ToolConfig.java:148-150 | "${k}" matches as a whole exactly once. |
| CoapServerTree.Attach | src/main/java/gr/ntua/softlab/edhocFuzzer/components/sul/mapper/connectors/toSulClient/EdhocServer.java:43-50 | Adding a resource places it at its path. |
| CoapServerTree.AttachAt | src/main/java/gr/ntua/softlab/edhocFuzzer/components/sul/mapper/connectors/toSulClient/EdhocServer.java:43-50 | After adding a resource, the tree holds its path and every old path not under it, unchanged. A child of the same name replaces the old one with everything below it. |
| CoapServerTree.AttachRooted | src/main/java/gr/ntua/softlab/edhocFuzzer/components/sul/mapper/connectors/toSulClient/EdhocServer.java:43-50 | Adding a resource under a parent that exists, or at the root, keeps every resource reachable from the root. |
| CoapServerTree.Components | src/main/java/gr/ntua/softlab/edhocFuzzer/components/sul/mapper/connectors/toSulClient/EdhocServer.java:39-41 | Java's `split("/")` gives names without '/'. |
| CoapServerTree.LeafResourceName | src/main/java/gr/ntua/softlab/edhocFuzzer/components/sul/mapper/connectors/toSulClient/EdhocServer.java:38-41 | The leaf name is the last component, and a path of slashes only raises IndexOutOfBounds. |
| CoapServerTree.LeafOfJoin | src/main/java/gr/ntua/softlab/edhocFuzzer/components/sul/mapper/connectors/toSulClient/EdhocServer.java:38-41 | Names joined with '/' split back into the same names, and the leaf is the last one. |
| CoapServerTree.InnerChainServes | src/main/java/gr/ntua/softlab/edhocFuzzer/components/sul/mapper/connectors/toSulClient/EdhocServer.java:52-89 | The intended builder places each inner resource under the one before it, so every prefix of the path is an inner resource. |
| CoapServerTree.InnerChainKeeps | src/main/java/gr/ntua/softlab/edhocFuzzer/components/sul/mapper/connectors/toSulClient/EdhocServer.java:52-89 | The intended builder keeps every resource under a different root name. |
| CoapServerTree.IntendedLeafPath | src/main/java/gr/ntua/softlab/edhocFuzzer/components/sul/mapper/connectors/toSulClient/EdhocServer.java:22-27 | With the intended builder, the leaf lands exactly at the configured path. |
| CoapServerTree.ComponentsExample | src/main/java/gr/ntua/softlab/edhocFuzzer/components/sul/mapper/connectors/toSulClient/EdhocServer.java:55 | "a/b/c/d" splits into four names. |
| CoapServerTree.AsWrittenMisplacesLeaf | src/main/java/gr/ntua/softlab/edhocFuzzer/components/sul/mapper/connectors/toSulClient/EdhocServer.java:74-84 | As written, "a/b/c/d" puts the inner resources b and c side by side under a, so the leaf is served at a/c/d and no resource a/b/c exists. |
| CoapServerTree.Filled | src/main/java/gr/ntua/softlab/edhocFuzzer/components/sul/mapper/connectors/toSulClient/EdhocServer.java:143-151 | The request is attached to the pending draft entry, or to a fresh entry when there is none, and the flag for its kind is set. The other flag comes from the draft, or is false on a fresh entry. |
| CoapServerTree.HandOff | src/main/java/gr/ntua/softlab/edhocFuzzer/components/sul/mapper/connectors/toSulClient/EdhocServer.java:143-158 | The draft queue loses its head. The filled entry joins the received queue exactly when that queue has room, and both queues stay within capacity. |
| CoapServerTree.EdhocServer.Empty | src/main/java/gr/ntua/softlab/edhocFuzzer/components/sul/mapper/connectors/toSulClient/EdhocServer.java:17-19 | A new server has no resources and keeps the exchanger. |
| CoapServerTree.EdhocServer.CreateInnerResourceTreeAsWritten | src/main/java/gr/ntua/softlab/edhocFuzzer/components/sul/mapper/connectors/toSulClient/EdhocServer.java:52-89 | As written: the tree becomes the as-written inner tree, still reachable from the root. The last resource returned is in the tree. |
| CoapServerTree.EdhocServer.CreateInnerResourceTree | src/main/java/gr/ntua/softlab/edhocFuzzer/components/sul/mapper/connectors/toSulClient/EdhocServer.java:52-89 | Corrected: each inner resource goes under the previous one. A path of at most one name adds nothing and returns null. |
| CoapServerTree.EdhocServer.AddLeafResource | src/main/java/gr/ntua/softlab/edhocFuzzer/components/sul/mapper/connectors/toSulClient/EdhocServer.java:43-50 | The leaf goes under the last inner resource, or onto the server when there is none. |
| CoapServerTree.EdhocServer.HandlePost | src/main/java/gr/ntua/softlab/edhocFuzzer/components/sul/mapper/connectors/toSulClient/EdhocServer.java:134-160 | Without an exchanger, the reply is "EDHOC POST response". Otherwise there is no reply, and the exchange, marked as an EDHOC message, is handed off. |
| CoapServerTree.EdhocServer.HandleAppGet | src/main/java/gr/ntua/softlab/edhocFuzzer/components/sul/mapper/connectors/toSulClient/EdhocServer.java:178-204 | Without an exchanger, the reply is "Application GET response". Otherwise the exchange, marked as application data, is handed off. |
| CoapServerTree.ServedTreeHasBoth | src/main/java/gr/ntua/softlab/edhocFuzzer/components/sul/mapper/connectors/toSulClient/EdhocServer.java:17-28 | Two resource paths with different root names are both served, each as its own kind of leaf. |
| CoapServerTree.NewEdhocServer | src/main/java/gr/ntua/softlab/edhocFuzzer/components/sul/mapper/connectors/toSulClient/EdhocServer.java:17-28 | It raises exactly when one of the paths has no names. Otherwise the server's tree is exactly the intended placement of both resources, and with different root names both leaves are served where configured. |

The current and the older copy of `getKid` (`EdhocLayerPersistent.java` in both packages) are
textually identical, so one pair of functions, `EdhocLayer.GetKidAsWritten` and `EdhocLayer.GetKid`,
stands for both. In the same way, the older processor's connection-identifier codec is the newer
one, modelled once.

## Left out

- Cryptography and hashing (HKDF, EDHOC-KDF, Diffie-Hellman, signatures, AEAD, transcript hashes) belong to Californium and Bouncy Castle. KEYSTREAM_2 takes the key-derivation function as a parameter, and key objects (`OneKey`) are built by the library, which is not part of this model; the authenticators take construction to succeed and to keep the raw key bytes.
- The CBOR library is replaced by the definite-length data model in `Cbor`. Indefinite lengths, floating-point values and the library's canonical-map ordering are not modelled.
- Network and CoAP plumbing are not modelled: connectors, sockets, endpoints, `CoapExchange.respond`, process handling and resetting wrappers. Blocking-queue waits and the OSCORE-context threads are also out; the queues are modelled only by their capacity.
- File I/O is not modelled: reading DER and PEM files, the test-vector JSON, alphabet XML and the learner's outputs. The file system is a set of existing paths and a map from file names to contents, and a missing file is the only I/O error (`NoSuchFileException`).
- JCommander option parsing, the configuration classes and the LearnLib composition are not modelled, and neither is logging or the statistics' state writer. These are library calls and getters.
- pydot's parsing and rendering, and the PDF output of the two scripts, are not modelled. Graphs are the node and edge lists pydot would report.
- `MapperConfig.CoapUri`: `java.net.URI`'s syntax check is a parameter. The model does not decide which texts RFC 3986 accepts.
- `Statistics.StatisticsTracker`: counters are unbounded integers. Java's `long` overflow after 2^63 inputs is not modelled.
- `TestRunner.RunTest`: the membership oracle is not called. The answers of the `times` queries are given as a sequence, one per run.
- `ProbeRunner`: the answers of a run are given as `runTests` counted them. The runner's own I/O is not modelled.
- `TimingProbe.Prober.FindLimits`, `TimingProbe.Prober.BinarySearch` and `TimingProbe.Prober.FindDeterministicTimesValues` require `probeMin >= 1`. With `probeMin = 0` the source can loop forever: doubling from 0 stays at 0, and halving a gap of 1 keeps `lo`.
- `TimingProbe.Prober.FindLimits`: `hi` is an unbounded integer. In Java, `hi * 2` overflows a 32-bit `int` once `hi` exceeds 2^30, which can only happen when `probeHi` is above 2^30; that wrap-around is not modelled. `TimingProbe.Prober.BinarySearch` likewise ignores overflow of `hi - lo`.
- `Strings.Whitespace` holds only the ASCII whitespace. Python's `strip()` also removes Unicode whitespace (for example U+00A0 and U+2003), so labels starting or ending with such characters are stripped less in the model.
- `Strings.ParseInt` accepts only the ASCII digits 0-9. Java's `Integer.parseInt` goes through `Character.digit` and also accepts other Unicode decimal digits (for example Arabic-Indic digits).
- `OutputMapper.ReceiveOutput` classifies a null payload as the connector flags say. In the source, when one of the flags for message_3 with OSCORE application data, OSCORE application data, CoAP error or CoAP application message is set, the log arguments `new String(responsePayload, …)` raise NullPointerException for a null payload; that exception is not modelled.
- `ManyFiles.ManyFilesAuthenticator.constructor` takes both SUL types as `int` values that were read successfully. An unset `-sulCredType` or `-sulIdCredType` makes the read raise before construction (`ManyFiles.SulType`), so the untyped branches of `addPeerCredentials` (`AddPeerCredentials` with a missing type) are not reached from this authenticator, although the options' help says that every type is then generated.
- `TestVectors.SplitP256PublicKey` requires the two coordinate arrays to be distinct objects. Every call site in the source passes two fresh arrays.
- `TestVectors.TestVectorAuthenticator.WithVectorMethod` requires the vector to carry a method. Unboxing a missing `Integer` would raise NullPointerException, and that path is not modelled.
- `CipherSuites.BuildSuitesI` requires a non-empty own suite list. `CipherSuites.SelectedSuite` raises first when the list is empty.
- `ManyFiles`: CRED and ID_CRED values are kept as the inputs they are built from, not as their COSE encodings. The certificate hash of an `x5t` identifier is not computed.
- The Californium constants the code relies on are assumed as listed above, because the library is not part of this model.

## Findings

| source | as written | input that shows it | evidently intended | confidence | as-written member | corrected member |
|---|---|---|---|---|---|---|
| src/main/java/gr/ntua/softlab/edhocFuzzer/components/sul/mapper/connectors/toSulClient/EdhocServer.java:74-84 | `rootResource.add(innerResources)` adds every inner resource directly under the root, so they become siblings, and the leaf goes under the last one | the resource path "a/b/c/d": the leaf is served at a/c/d, and a/b/c does not exist | each inner resource under the previous one, so the leaf is served at its configured path | not executed | CoapServerTree.AsWrittenMisplacesLeaf | CoapServerTree.EdhocServer.CreateInnerResourceTree |
| src/main/java/gr/ntua/softlab/edhocFuzzer/components/sul/mapper/context/TestVectorAuthenticator.java:35-49 | the constructor never assigns `authenticationMethod`, so keys are always chosen for method 0 | a test vector for method 3 with cipher suite 0: an Ed25519 signature key is installed, and no X25519 static key | the vector's own authentication method decides the key usage | not executed | TestVectors.AsWrittenIgnoresVectorMethod | TestVectors.VectorMethodInstallsStaticKey |
| src/main/java/gr/ntua/softlab/edhocFuzzer/components/sul/core/protocol/MessageProcessorPersistent.java:276-299 | SUITES_I is rejected unless it is an array: a negative integer fails the sign check, and a non-negative integer falls into the "neither integer nor array" branch | message_1 from an initiator that selects its most preferred suite, whose SUITES_I is that suite as a single integer | a non-negative integer SUITES_I is accepted, as section 5.2.2 of RFC 9528 allows | not executed | LegacyProcessor.AsWrittenRejectsIntegerSuitesMessage | LegacyProcessor.SuitesICheckAcceptsWritten |
| src/main/java/com/github/protocolfuzzing/edhocfuzzer/components/sul/core/protocol/EdhocLayerPersistent.java:457-458 | the kid-context length `s` is read as a signed Java byte | an OSCORE option with an empty partial IV, a kid context of 128 bytes and a kid: `s` is -128, the index goes negative, and `copyOfRange` raises instead of returning the kid | the length byte read as an unsigned value 0..255 | not executed | EdhocLayer.AsWrittenLongKidContext | EdhocLayer.GetKidOfOption |
| src/main/java/com/github/protocolfuzzing/edhocfuzzer/components/sul/core/protocol/MessageProcessorPersistent.java:1190-1210 | `new ArrayList<>(firstSharedCipherSuite)` treats the suite as a capacity and yields an empty list | a responder that supports a suite listed before the initiator's selected one: its SUITES_R is empty, and the initiator can only fall back to its first suite | SUITES_R holding the first shared suite, so the initiator retries with it | not executed | CipherSuites.AsWrittenReadOffersNothing | CipherSuites.IntendedOfferSelectsFirstShared |
