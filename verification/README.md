# Models of the chat output pipeline, the Base64 codec and the weight converters

This project models the parts of the repository whose correctness is hardest to see from one
function at a time, and proves what they promise.

* **Chat output.** The mapper that turns parsed nodes into tool calls (`ToolCallMapper`), the
  differ that turns snapshots into deltas (`MessageDiff`), and both together over whole runs
  (`Streaming`, `ArgumentSerializer`). Around them the quote normaliser and the brace scanner
  (`QuoteNormalizer`, `JsonText`), the Gemma4 translation (`Gemma4Json`)
  with its value grammar, the texts it reads and the calls of a growing text (`Gemma4Grammar`,
  `Gemma4Leaves`, `Gemma4Growth`, `Gemma4Values`, `Gemma4Texts`, `Gemma4Pieces`, `Gemma4Calls`), the parser
  combinators (`Peg`), the tagged-argument grammar that is generated from a tool's parameters
  (`TaggedArgs`), a whole tool call from its text to the message (`TaggedCalls`), the same
  while its text is still growing (`GrowingParses`, `GrowingArguments`, `GrowingCalls`,
  `CallShapes`, `StreamedCalls`), where that fails (`StreamForks`), the whole output with
  content and any number of calls, read back (`OutputTexts`) and streamed (`StreamedOutput`), and the `<tools>` rewriter
  (`ToolsRewriter`, with `Search`).
* **Template analysis.** Marker segmentation and the argument-opener scan (`Segments`) and the
  two-ended diff of rendered templates (`DiffSplit`).
* **Base64** with both alphabets of RFC 4648, detection and decoding in place (`Base64`).
* **Weight converters.** Factored LoRA tensors and the layout changes applied to them
  (`NdArrays`, `LoraTensor`, `LoraSlices`, `LoraStacks`, `LoraLayouts`), greedy BPE (`Bpe`), expert stacking
  (`ExpertStacking`), MXFP4 repacking (`Mxfp4`) and the loader of old GGML files (`GgmlLoader`).

Where the source updates fields or loops over variables, the model is a class or a method with
a loop, proved equal to a function of its inputs or of the old state; the lemmas are about that
function. Where the source builds values from expressions, the model is a function.

Properties that the code does not have on every input are stated with the exact condition under
which it has them, and with an input that shows the failure:

* A later snapshot can contradict an earlier one: an arguments object after a named call already
  has an argument, a second name, an empty second id, and a value cut inside an escaped apostrophe
  (`Streaming.StepExtendsExactly`, `GrownNodeExactly`, `ArgsAfterArgumentThrows`,
  `SecondNameThrows`, `EscapedApostropheForks`).
* A tool call streams if and only if it has no optional arguments or a marker tells where they
  end, and no such marker can be taken for an optional argument that breaks off
  (`StreamForks.StreamsExactly`, `UnmarkedCallForks`, `UnmarkedExample`, `UnguardedCallForks`,
  `UnguardedExample`).
* A Gemma4 call that is shown disappears, and the differ throws, if and only if the longer text is
  no longer a call there (`Gemma4Calls.CallsStreamExactly`, `BrokenCallThrows`).
* Functions without a name suffix are read if and only if the text behind the name starts with
  the name prefix, so with a start marker of their own no call is read
  (`TaggedCalls.FuncParses`, `StartMarkerHidesArguments`, `NoCallIsRead`).
* The diff of two texts does not always rebuild them: the tail of the walk can match a segment
  that the loop already took (`DiffSplit.ConservesExactly`, `MarkerTakenTwice`, `DifferenceLost`).
* A value that does not contain its close marker can still be cut by it, when the marker overlaps
  with itself (`Peg.AbsenceSufficesExactly`).
* Two parameters of a tool whose names differ only in punctuation share one grammar rule, and the
  first of them is then not read (`TaggedArgs.OwnRulesExactly`, `ReplacedRuleFails`,
  `PunctuationClashes`).
* The `<tools>` rewriter is not idempotent when an opening tag inside a rewritten body and the
  next closing tag that survives enclose a call; otherwise it is
  (`ToolsRewriter.IdempotentExactly`, `InnerOpenIsRewrittenLater`, `InnerOpenCanSettle`).
* The GGML loader accepts every file that is cut off inside its last tensor
  (`GgmlLoader.CutFileLoads`), and stays at the same offset for ever if and only if a wrapped
  byte count takes a header back (`GgmlLoader.StallsExactly`, `StallingFileStalls`).
* A bare slice of a factored tensor with more than two axes also slices A
  (`LoraSlices.BareSliceExactly`, `SecondGroupIsLost`), a slice in a tuple does not slice the A
  of a stack (`LoraStacks.SliceBExactly`), and a bare index or a concatenation does not fit
  pairs that were reshaped (`LoraStacks.IndexExactly`, `ReshapedPairsDoNotCat`).
* A Python literal with a hexadecimal escape does not become a JSON string
  (`QuoteNormalizer.PythonLiteralDecodes`).

`dafny verify dfyconfig.toml` checks the whole project.

## Model

| member | source | states |
|---|---|---|
| Text.TrimTrailingSpace | common/chat-peg-parser.cpp:11-21 | The loop removes only whitespace from the end, at most `max` characters unless `max` is -1, and stops only at another character or at that limit |
| Text.TrimLeadingSpace | common/chat-peg-parser.cpp:23-33 | The same at the front |
| Text.SpaceCodes | common/chat-peg-parser.cpp:11-33 | Whitespace is the six characters that `isspace` accepts |
| JsonText.JsonBraceDepth | common/chat-peg-parser.cpp:41-67 | The scanning loop computes the depth of a fold over the characters, for which the lemmas below hold |
| JsonText.EscapeJsonStringInner | common/chat-peg-parser.cpp:70-76 | Cutting the quotes off the dumped string leaves exactly the escaped characters |
| JsonText.ScanShift | common/chat-peg-parser.cpp:41-67 | The depth at which a scan starts only shifts the depth at which it ends |
| JsonText.PlainDepth | common/chat-peg-parser.cpp:41-67 | Without strings the depth is the number of opening braces minus that of closing ones, and nothing else counts |
| JsonText.EscapedPrefix | common/chat-peg-parser.cpp:70-76 | Escaping is monotone: a longer text escapes to an extension of the escaped shorter one |
| JsonText.ScanDump | common/chat-peg-parser.cpp:41-76 | No dumped string, whatever braces and quotes it holds, changes the state of the brace scanner |
| JsonText.DumpRoundTrip | common/chat-peg-parser.cpp:70-76 | A dumped string decodes (section 7 of RFC 8259) to the text it was made from, for every text |
| QuoteNormalizer.NormalizeQuotesToJson | common/chat-peg-parser.cpp:83-160 | The loop over two flags equals the transducer of the lemmas below and never has both flags set |
| QuoteNormalizer.Simulation | common/chat-peg-parser.cpp:41-160 | From every quote state, the JSON scanner on the output moves in step with a scanner of the raw input that knows both quote styles |
| QuoteNormalizer.NormalizedScan | common/chat-peg-parser.cpp:41-160 | The JSON scan of the output ends inside a string exactly when the normaliser ends in a quoted state, and its depth is that of the braces outside either quote style |
| QuoteNormalizer.IdentityExactly | common/chat-peg-parser.cpp:83-160 | An input is left unchanged if and only if it has no apostrophe outside double quotes |
| QuoteNormalizer.Idempotent | common/chat-peg-parser.cpp:83-160 | Normalising twice is normalising once, on all strings |
| QuoteNormalizer.GrowsExactly | common/chat-peg-parser.cpp:83-160 | The output of a longer input extends the output of a shorter one except exactly when the shorter one stops inside an escaped apostrophe |
| QuoteNormalizer.PythonLiteralDecodes | common/chat-peg-parser.cpp:78-160 | The Python literal of a text becomes a JSON string that decodes to that text if and only if the literal needs no hexadecimal escape |
| MessageDiff.StringDiffExactly | common/chat.cpp:55-68 | The text diff throws exactly when neither text is a prefix of the other, and appending it to the old text gives the new text exactly when the old one is the prefix |
| MessageDiff.ComputeDiffs | common/chat.cpp:154-220 | The method yields the deltas, or the first error in the source's order of checks, that `SentExactly` and `FirstError` describe |
| MessageDiff.FoldResult | common/chat.cpp:154-220 | What a client holds after folding the deltas of any two messages whose diff succeeds |
| MessageDiff.DiffRebuildsExactly | common/chat.cpp:154-220 | The diff succeeds and its fold rebuilds the new message if and only if the new message extends the old one: all calls but the last unchanged, the last one grown by appending |
| MessageDiff.DiffThrowsExactly | common/chat.cpp:154-220 | The exact condition under which the diff throws |
| MessageDiff.FirstError | common/chat.cpp:163-205 | Which error is thrown: texts are compared first, then the number of calls, then the name and the arguments of the last call |
| MessageDiff.SentExactly | common/chat.cpp:163-217 | Every delta that is sent: the part behind the old text for each text that changed, that of the last call that was there if it has news, with name and id only if one of them changed, and then every new call once, in order |
| MessageDiff.SameSendsNothing | common/chat.cpp:163-217 | Between equal messages nothing is sent |
| MessageDiff.GrownCallExample | tests/test-chat.cpp:4650-4666 | A call whose arguments grow is sent without its name and its id |
| MessageDiff.ExtendsTransitive | common/chat.cpp:154-220 | Extension between messages composes, so deltas may skip snapshots |
| MessageDiff.ApplyAppend | tests/test-chat.cpp:1046-1070 | Folding deltas in two batches is folding them in one |
| ToolCallMapper.Mapper.Map | common/chat-peg-parser.cpp:252-397 | One node updates the fields as the step function does and keeps the invariant that a call is pending exactly while it is current and unnamed |
| ToolCallMapper.Mapper.FromAst | common/chat-peg-parser.cpp:221-250 | Visiting all nodes and dropping blank reasoning gives the snapshot of the run; the flush of a named pending call never applies |
| ToolCallMapper.Mapper.MapToolName | common/chat-peg-parser.cpp:295-310 | The name moves the buffered arguments into the call and emits it |
| ToolCallMapper.Mapper.MapArgName | common/chat-peg-parser.cpp:325-338 | An argument name opens the object when nothing was written and appends the quoted trimmed name |
| ToolCallMapper.Mapper.MapArgValue | common/chat-peg-parser.cpp:340-365 | A value is appended escaped or with normalised quotes, and a string value opens a pending quote |
| ToolCallMapper.Mapper.MapToolClose | common/chat-peg-parser.cpp:374-396 | Closing flushes the buffer, closes the quote and every unclosed brace; an unnamed call is always discarded |
| ToolCallMapper.Step | common/chat-peg-parser.cpp:252-397 | Every node keeps the invariant of the mapper's state |
| ToolCallMapper.RunAppend | common/chat-peg-parser.cpp:221-223 | Visiting two node lists in turn is visiting their concatenation |
| ToolCallMapper.RunTexts | common/chat-peg-parser.cpp:253-265 | In every run the content grows by the texts of the content nodes in their order, the reasoning by those of the reasoning nodes, and neither by anything else |
| ToolCallMapper.SnapshotTexts | common/chat-peg-parser.cpp:221-265 | A snapshot shows all content, and all reasoning unless it holds only spaces, tabs and line breaks |
| ToolCallMapper.IdIsRead | common/chat-peg-parser.cpp:287-293 | The current call gets the id without whitespace behind it and without one pair of quotes around it, and changes in nothing else |
| ToolCallMapper.NameIsTrimmed | common/chat-peg-parser.cpp:35-37 | An argument name loses at most one space in front and all whitespace behind |
| ToolCallMapper.ValueIsTrimmed | common/chat-peg-parser.cpp:341 | An argument value loses at most one space on either side |
| ToolCallMapper.JsonCallRuns | common/chat-peg-parser.cpp:312-319 | Arguments in one node are taken whole when they start with a brace and ignored otherwise, in front of the name or behind it; exactly one call is added |
| ToolCallMapper.OpenBracesClose | common/chat-peg-parser.cpp:385-388 | Closing appends as many braces as are open |
| ToolCallMapper.UnnamedCallIsDropped | common/chat-peg-parser.cpp:389-395 | A call that is closed before its name was read leaves nothing in the message, whatever its nodes are |
| Streaming.StepExtendsExactly | common/chat-peg-parser.cpp:252-397 | In every state a node extends the visible message if and only if the guard of the branch it takes holds |
| Streaming.StreamingExactly | common/chat.cpp:154-220 | For a whole run: between every earlier and later snapshot the differ succeeds and its deltas rebuild the later one, if and only if every node passes its guard |
| Streaming.WellFormedIsSafe | common/chat-peg-parser.cpp:252-397 | Streams with one name and at most one id per call, and no arguments object after a named call's arguments began, pass every guard |
| Streaming.ArgsAfterArgumentThrows | common/chat-peg-parser.cpp:312-319 | A concrete stream for which the differ throws: an arguments object replaces arguments already shown |
| Streaming.SecondNameThrows | common/chat.cpp:190-203 | A concrete stream in which a second name does not continue the first one: the differ throws |
| Streaming.EscapedApostropheForks | common/chat-peg-parser.cpp:340-365 | A concrete list value, cut between the backslash and the apostrophe of an escape, that its longer form does not continue |
| Streaming.GrownNodeExactly | common/chat-peg-parser.cpp:312-365 | When only the text of the last node grows, the message is extended if and only if the shorter text was not cut inside an escape, inside removable whitespace or before the object it becomes |
| Streaming.EarlierExtends | common/chat-peg-parser.cpp:221-397 | The snapshot of an earlier parse, whose last node may be shorter, is extended by that of a later parse |
| Streaming.SessionRebuildsFinalMessage | common/chat.cpp:154-220 | Over any chain of growing parses a client that starts empty and folds every batch of deltas ends with the final message |
| ArgumentSerializer.MapperRefinesSerializer | common/chat-peg-parser.cpp:213-396 | In every state a tagged call adds exactly one call whose arguments are the serialised list, wherever between open and close its name arrives |
| ArgumentSerializer.NamePositionIrrelevant | common/chat-peg-parser.cpp:213-310 | The buffered and the direct path give the same message |
| ArgumentSerializer.ExactlyOneBrace | common/chat-peg-parser.cpp:374-388 | With balanced values the arguments end with exactly one closing brace |
| Gemma4Json.Gemma4ToJson | common/chat-peg-parser.cpp:889-982 | The recursive method with its child loops equals the translation that the lemmas are about |
| Gemma4Json.CompleteTree | common/chat-peg-parser.cpp:889-982 | The tree of any value translates to the JSON print of that value |
| Gemma4Json.CompleteTreeDepth | common/chat-peg-parser.cpp:41-67 | The brace scanner ends at depth 0 on that translation |
| Gemma4Json.TruncatedTree | common/chat-peg-parser.cpp:889-982 | A tree cut anywhere along its right spine translates to a prefix of the complete output |
| Gemma4Json.TruncationsNeverFork | common/chat.cpp:55-68 | The differ never throws between two cuts of the same tree |
| Gemma4Json.PartialString | common/chat-peg-parser.cpp:904-913 | A string that is cut off shows its opening quote and the escape of what was read of its content |
| Gemma4Json.PartialKey | common/chat-peg-parser.cpp:936-945 | A key that is cut off shows its opening quote and the escape of what was read of its name |
| Gemma4Json.PartialBlock | common/chat-peg-parser.cpp:915-931 | An array or a dictionary that is cut off shows its opener, its complete children and what there is of the last one |
| Gemma4Leaves.NumberSpans | common/peg-parser.cpp:1293-1307 | A number that reaches the end of the text takes at least as much of every longer text, or is refused there; one that ends before it never changes |
| Gemma4Leaves.ValueByFirst | common/chat.cpp:1149-1154 | The first character of a value decides which of the six rules can read it |
| Gemma4Growth.StringCloses | common/chat.cpp:1124-1125 | A string only grows until its closing quote is read, also when the text stops inside the quote |
| Gemma4Growth.ArgumentsGrow | common/chat.cpp:1124-1154 | On every text and every longer one: complete arguments stay as they are, refused ones stay refused, and otherwise the JSON of the longer text continues the JSON of the shorter one, unless it is refused |
| Gemma4Values.NumeralTakes | common/peg-parser.cpp:1293-1307 | Everything that is read as a number is a number of section 6 of RFC 8259 |
| Gemma4Values.ValueSpells | common/chat.cpp:1124-1154 | Every tree that is read, from any text, spells a value |
| Gemma4Values.ArgumentsSpell | common/chat-peg-parser.cpp:889-982 | So all complete arguments are the JSON print of a value, with every brace closed |
| Gemma4Texts.NumberReads | common/peg-parser.cpp:1293-1307 | Every such number in front of a delimiter is read whole, with the whitespace behind it |
| Gemma4Texts.ValueReads | common/chat.cpp:1124-1154 | The text of every value is read as the tree that spells it, and nothing more is taken |
| Gemma4Texts.ArgumentsRoundTrip | models/templates/google-gemma-4-31B-it.jinja:118-148 | The text printed for any arguments becomes their JSON, whatever text follows |
| Gemma4Pieces.StringPiece | common/chat.cpp:1124-1125 | A string that ends with the text, with or without a part of its closing quote, shows exactly the escape of its content |
| Gemma4Pieces.PieceShows | common/chat.cpp:1124-1154 | Whatever piece of a value a text ends in, at any depth, exactly its JSON is shown |
| Gemma4Pieces.StringValueShows | common/chat-peg-parser.cpp:889-982 | A text that stops inside a string value of the arguments ends in the escape of every character behind the quote |
| Gemma4Pieces.EveryStopShows | common/chat-peg-parser.cpp:889-982 | Wherever printed arguments stop, what is left is a piece of them, and its JSON is shown |
| Gemma4Calls.OneCallGrows | common/chat.cpp:1158-1171 | A complete call stays; a call that is shown keeps its name and its arguments grow, unless the longer text is not a call |
| Gemma4Calls.CallsStreamExactly | common/chat.cpp:1170-1174 | Between any text and any longer one the differ succeeds and its deltas rebuild the later calls, if and only if the call that the shorter text leaves open is still a call; otherwise it throws because a call is gone |
| Gemma4Calls.BrokenCallThrows | common/chat.cpp:1170-1174 | A concrete pair of texts for which it throws |
| Gemma4Calls.CompleteArguments | common/chat-peg-parser.cpp:996-1013 | The arguments of every complete call, in any text, are the balanced JSON print of a dictionary, and its name is that of a tool |
| Gemma4Calls.CallsRoundTrip | models/templates/google-gemma-4-31B-it.jinja:241-256 | Printed calls are read back in order with the JSON of their arguments |
| Gemma4Calls.FirstCallOnly | common/chat.cpp:1170-1174 | Without parallel calls only the first printed call is read |
| Gemma4Calls.StoppedCallShows | common/chat-peg-parser.cpp:996-1013 | Behind any complete calls, a call whose arguments stop somewhere is shown with its name and exactly the JSON of what was read |
| ToolsRewriter.RewriteTools | common/chat.cpp:2739-2758 | The search loop ends and outputs the text with its call blocks renamed and everything between them unchanged |
| ToolsRewriter.NothingLost | common/chat.cpp:2744-2757 | The blocks and the text between them concatenate to the input, each block from a first opening tag to the next closing tag |
| ToolsRewriter.CutIsUnique | common/chat.cpp:2744-2757 | There is exactly one way to cut a text at its blocks, and the loop finds it |
| ToolsRewriter.GrowsByEight | common/chat.cpp:2751-2755 | The text grows by exactly 8 characters for each rewritten block |
| ToolsRewriter.UnchangedExactly | common/chat.cpp:2751-2755 | The text stays as it is if and only if no block holds a call |
| ToolsRewriter.BlockOutputExactly | common/chat.cpp:2750-2755 | A block is rewritten if and only if `"name"` and `"arguments"` both occur in its body |
| ToolsRewriter.ListedToolStays | common/chat.cpp:2751-2755 | A concrete block that lists a tool without calling it stays as it is |
| ToolsRewriter.Idempotent | common/chat.cpp:2739-2758 | A second pass changes nothing when no rewritten body holds an opening tag |
| ToolsRewriter.IdempotentExactly | common/chat.cpp:2739-2758 | On every text a second pass changes nothing if and only if, in the cut of the first pass, no opening tag inside a rewritten body encloses both words with the next closing tag that survives |
| ToolsRewriter.InnerOpenCanSettle | common/chat.cpp:2739-2758 | A concrete text with an inner opening tag that is rewritten once and then stable |
| ToolsRewriter.InnerOpenIsRewrittenLater | common/chat.cpp:2739-2758 | A concrete text with an inner opening tag that the second pass changes again |
| Search.FindShift | common/chat.cpp:2745-2748 | Searching from a position is searching the rest of the text from its start |
| Search.AbsentSeam | common/chat.cpp:2742 | A tag that cannot lie across a seam is absent from a concatenation exactly when it is absent from both parts |
| Peg.CapturesExactly | common/peg-parser.cpp:772-819 | `until` captures a value in front of its delimiter if and only if the delimiter starts nowhere inside the value |
| Peg.AbsenceSufficesExactly | common/peg-parser.cpp:772-819 | That a value does not contain the delimiter is enough for every value if and only if no proper prefix of the delimiter is also its suffix |
| Peg.MarkupIsUnbordered | common/chat-auto-parser-generator.cpp:361-364 | Markup closers with one opening character are such delimiters |
| Peg.NoCaptureHoldsDelimiter | common/peg-parser.cpp:398-574 | For every parser whose tagged captures stop at a delimiter, and on every input, complete or cut short, no captured text contains the delimiter |
| TaggedArgs.SuffixIsCloseAndSpace | common/chat-auto-parser-generator.cpp:361-364 | The close marker differs from the rendered value suffix only by trailing whitespace, which the close parser skips |
| TaggedArgs.BuildRequired | common/chat-auto-parser-generator.cpp:410-416 | The loop chains the required arguments in definition order with optional whitespace between them |
| TaggedArgs.BuildChoice | common/chat-auto-parser-generator.cpp:420-423 | The loop offers every optional argument, earlier ones first |
| TaggedArgs.BuildArgs | common/chat-auto-parser-generator.cpp:385-432 | The loops over the parameters build the grammar of the round trip, with every rule reference resolved to the last rule of its name |
| TaggedArgs.ItemParsesExactly | common/chat-auto-parser-generator.cpp:390-399 | A printed argument, followed by any whitespace, reads back with its name and value if and only if the close marker does not start inside the value |
| TaggedArgs.OtherOpenerFails | common/chat-auto-parser-generator.cpp:391-392 | A text that differs from an argument's opener before either ends is refused at once, so the choice goes on |
| TaggedArgs.OpenersDiverge | common/chat-auto-parser-generator.cpp:391-392 | Openers of different names differ before either ends when no name holds the first character of the name suffix |
| TaggedArgs.RequiredParses | common/chat-auto-parser-generator.cpp:410-416 | The required arguments read back in order |
| TaggedArgs.OptionalParses | common/chat-auto-parser-generator.cpp:419-425 | Any sequence of optional arguments, with repetitions and in any order, reads back as it was printed |
| TaggedArgs.ArgsRoundTrip | common/chat-auto-parser-generator.cpp:410-432 | Required arguments in order, then any sequence of optional ones, with any whitespace after each close marker, read back as the same names and values and nothing more of the text |
| TaggedArgs.OwnRulesExactly | common/peg-parser.cpp:1230-1235 | Every argument keeps its own rule if and only if no two argument names share a rule name |
| TaggedArgs.ReplacedRuleFails | common/chat-auto-parser-generator.cpp:401 | A printed argument is read through its rule exactly when the rule is still its own, and refused otherwise |
| TaggedArgs.PunctuationClashes | common/peg-parser.cpp:1150-1153 | In every tool, `a_b` and `a.b` share one rule name |
| TaggedArgs.PlainNamesKeepRules | common/peg-parser.cpp:1150-1153 | Parameters named with letters, digits and hyphens never share a rule |
| TaggedArgs.ToolArgsRoundTrip | common/chat-auto-parser-generator.cpp:385-432 | The round trip for the grammar that is built from a tool's parameters, when no rule names clash |
| TaggedArgs.NoValueHoldsClose | common/chat-auto-parser-generator.cpp:366-399 | On every text, complete or cut short, no captured value contains the close marker |
| TaggedCalls.RunEssential | common/chat-peg-parser.cpp:252-397 | The mapper depends on no untagged node and on no text of opening and closing markers |
| TaggedCalls.FuncParses | common/chat-auto-parser-generator.cpp:235-271 | A printed call is read with its name and arguments, in each of the three ways to close it, if and only if the function has a name suffix or what follows the name starts with the text that is looked for; what differs from that text is refused |
| TaggedCalls.ListRoundTrip | common/chat-auto-parser-generator.cpp:235-271 | End to end, for every list of required and optional arguments: the printed text of a call, parsed and mapped in any state, adds exactly one tool call with the printed name and the JSON object of the printed names and values in order, under that exact condition |
| TaggedCalls.CallRoundTrip | common/chat-auto-parser-generator.cpp:384-452 | The same for the grammar that is built from a tool's parameters |
| TaggedCalls.StartMarkerHidesArguments | common/chat-auto-parser-generator.cpp:249-251 | Without a name suffix and with a required argument, every call whose start marker differs from the name prefix is refused, whatever it holds |
| TaggedCalls.NoCallIsRead | common/chat-auto-parser-generator.cpp:427-450 | A concrete format and tool of which no call is ever read |
| GrowingParses.RepeatGrows | common/peg-parser.cpp:485-574 | When the text grows, repetitions that ended stay, and further ones only follow, or the list breaks off where a repetition that had begun fails |
| GrowingArguments.UntilGrows | common/peg-parser.cpp:772-819 | When the text grows, what `until` captured stays if its delimiter was found and grows otherwise, also where the end of the text looked like the start of the delimiter |
| GrowingArguments.ArgSettles | common/chat-auto-parser-generator.cpp:390-399 | When the text grows, an argument that was refused stays refused, one that was read keeps its nodes, and one that was being read goes on or its value grows |
| GrowingArguments.AnyGrows | common/chat-auto-parser-generator.cpp:420-423 | The choice of an optional argument is final as soon as one of its nodes was reported; it can only fail where the value prefix should stand |
| GrowingCalls.FirmOptionalThen | common/chat-auto-parser-generator.cpp:419-432 | With an end that refuses texts that break off in an optional argument, nothing that was reported is taken back |
| GrowingCalls.RestRefuses | common/chat-auto-parser-generator.cpp:256-266 | A marker that guards the optional arguments is such an end |
| GrowingCalls.FirmCall | common/chat-auto-parser-generator.cpp:235-271 | The parser of a call, in each of its variants that can stream, never takes back a reported node while the text goes on |
| CallShapes.CallNodes | common/chat-auto-parser-generator.cpp:235-271 | On every text the nodes open the call, name it, give its arguments and perhaps close it, in this order |
| StreamedCalls.CallStreams | common/chat.cpp:154-220 | For every format that can stream, every text that the call's parser does not refuse and every sequence of growing pieces of it, the differ never throws and the folded deltas are the message of the whole text |
| StreamedCalls.GrowingCallStreams | common/chat.cpp:154-220 | The same for the parser that is built for a tool, and no earlier piece is refused |
| StreamedCalls.PrintedCallStreams | common/chat.cpp:154-220 | A printed call streamed in any pieces leaves the client with exactly that call and its JSON arguments |
| StreamForks.UnmarkedCallForks | common/chat-auto-parser-generator.cpp:264-266 | For every format without an end marker and every call: the parse of the call and that of the same call with one more optional argument make the differ throw |
| StreamForks.UnmarkedExample | common/chat-auto-parser-generator.cpp:264-266 | A concrete format and call for which it throws |
| StreamForks.UnguardedCallForks | common/chat-auto-parser-generator.cpp:256-263 | For every marker that does not guard an optional argument, a text that breaks off behind the opener takes back what was shown of it |
| StreamForks.UnguardedExample | common/chat-auto-parser-generator.cpp:256-263 | A concrete format whose close marker starts its openers, and a text that forks |
| StreamForks.StreamsExactly | common/chat-auto-parser-generator.cpp:235-271 | A format whose calls can be read streams if and only if it has no optional arguments, or has a marker behind them that guards each of them unless calls are reported only as a whole |
| StreamForks.ToolStreamsExactly | common/chat-auto-parser-generator.cpp:369-453 | The same for the parser that is built for a tool |
| StreamedOutput.FirmToolChoice | common/chat-auto-parser-generator.cpp:452 | The choice of a tool is firm when the tools' names can be told apart where they end |
| StreamedOutput.FollowsContent | common/chat-auto-parser-generator.cpp:488-490 | Content in front of the first marker only grows, also where the end of the text looked like the start of the marker |
| StreamedOutput.CallsFollow | common/chat-auto-parser-generator.cpp:459-482 | Any number of calls in a section, behind markers or separators, up to the end of the text, take nothing back |
| StreamedOutput.OutputStreams | common/chat-auto-parser-generator.cpp:455-490 | The whole output, with content, optional or required calls, sections and parallel calls of several tools: for every text that is not refused and every way to let it grow, the differ never throws and the folded deltas are the final message |
| OutputTexts.ChoiceReads | common/chat-auto-parser-generator.cpp:447-453 | A printed call of any of the tools is read by the choice as that call, whatever follows it |
| OutputTexts.RowOfCalls | common/chat-auto-parser-generator.cpp:459-482 | Printed calls in a row are all read in order, behind their own markers or behind commas |
| OutputTexts.OutputRoundTrip | common/chat-auto-parser-generator.cpp:455-490 | Content and then any number of printed calls of any of the tools, one when calls are not parallel, with whitespace between all parts: the text is read to its end, and the message is that content with those calls and the JSON of their arguments |
| OutputTexts.ContentOnly | common/chat-auto-parser-generator.cpp:488-490 | An output without calls is all content, and the parser waits for more |
| OutputTexts.EmptyOutput | common/chat-auto-parser-generator.cpp:484-490 | Nothing at all is an output when calls are not required |
| OutputTexts.MoreIsRefused | common/chat-auto-parser-generator.cpp:461-482 | Without parallel calls any text behind the first call that does not end the calls makes the output refused |
| OutputTexts.SecondCallRefused | common/chat-auto-parser-generator.cpp:461-482 | So a second printed call is refused |
| OutputTexts.TwoCallsExample | common/chat-auto-parser-generator.cpp:459-465 | A concrete output with content and two calls, read with parallel calls and refused without |
| Segments.SegmentizeMarkers | common/chat-auto-parser-helpers.cpp:269-299 | The position loop yields the segmentation that the lemmas are about |
| Segments.SegmentationIsCanonical | common/chat-auto-parser-helpers.cpp:269-299 | Segments concatenate to the text, none is empty, markers are closed and text holds no opener that closes |
| Segments.SegmentationIsUnique | common/chat-auto-parser-helpers.cpp:269-299 | Only one list of segments has that shape |
| Segments.SegmentationSplits | common/chat-auto-parser-helpers.cpp:269-299 | Segmentation splits over concatenation after a text that ends on a closed marker |
| Segments.FindBoundary | common/chat-diff-analyzer.cpp:979-994 | The inline scan finds the start of the last marker that starts at or before the argument name, or none |
| Segments.AgreesWithOldScanExactly | common/chat-diff-analyzer.cpp:995-1006 | The scan and the old first-marker scan give the same name suffix if and only if at most one marker starts at or before the argument name |
| Segments.StartsAndSegments | common/chat-diff-analyzer.cpp:983-993 | The markers the scan sees are those of the segmentation, followed by those inside an opener that never closes |
| Segments.AgreesWithSegmentationExactly | common/chat-diff-analyzer.cpp:982-993 | The scan agrees with the segmentation if and only if an unclosed opener hides no marker |
| DiffSplit.CommonPrefixLen | common/chat-auto-parser-helpers.cpp:69-76 | The loop finds the length of the longest common prefix |
| DiffSplit.CommonSuffixLen | common/chat-auto-parser-helpers.cpp:78-85 | The loop finds the length of the longest common suffix |
| DiffSplit.WalkSegments | common/chat-auto-parser-helpers.cpp:102-139 | The four-cursor loop ends in the state of the walk that the lemmas are about |
| DiffSplit.WalkTail | common/chat-auto-parser-helpers.cpp:141-165 | The tail cases after the loop |
| DiffSplit.CalculateDiffSplit | common/chat-auto-parser-helpers.cpp:87-207 | The whole method, with the corrections at its end, equals the split that the lemmas are about |
| DiffSplit.ConservesExactly | common/chat-auto-parser-helpers.cpp:87-207 | For all inputs: prefix, middle and suffix rebuild both inputs if and only if the tail does not match a segment the loop already took, or the corrections at the end repair it |
| DiffSplit.OwnSegmentsConserve | common/chat-auto-parser-helpers.cpp:87-207 | Both inputs are rebuilt whenever each has a segment that the other lacks |
| DiffSplit.EmptySide | common/chat-auto-parser-helpers.cpp:93-100 | Both inputs are rebuilt when one has no segments |
| DiffSplit.EqualInputs | common/chat-auto-parser-helpers.cpp:185-190 | Equal inputs give the whole input as prefix and nothing else |
| DiffSplit.ExitStops | common/chat-auto-parser-helpers.cpp:105-139 | The loop stops only where one side is down to one segment or the segments at both ends differ |
| DiffSplit.MiddlesDiffer | common/chat-auto-parser-helpers.cpp:165-183 | For all inputs: non-empty middles differ in their first character where both sides have text in front, and in their last one where both have text at the end |
| DiffSplit.PlainTexts | common/chat-auto-parser-helpers.cpp:165-205 | Two texts without openers: all prefix when the left one is a prefix of the right one, else the longest common suffix and the longest common prefix of the rest |
| DiffSplit.MarkerTakenTwice | common/chat-auto-parser-helpers.cpp:141-165 | A concrete pair whose suffix holds one marker twice, so the parts do not rebuild it |
| DiffSplit.DifferenceLost | common/chat-auto-parser-helpers.cpp:141-190 | A concrete pair of different texts with an empty diff |
| Base64.Encode | common/base64.hpp:79-144 | The encoding loop outputs whole groups of four characters and pads the last one |
| Base64.GroupOf24Bits | common/base64.hpp:95-139 | The four six-bit values of a group are the bits of its three octets in order (section 4 of RFC 4648) |
| Base64.EncodedSize | common/base64.hpp:338-341 | The output has exactly the announced size |
| Base64.Decode | common/base64.hpp:199-244 | The bit-carrying loop with its padding check decodes as the function that the lemmas are about, or fails at the same inputs |
| Base64.RoundTrip | common/base64.hpp:79-244 | For every octet sequence and both alphabets, decoding what was encoded gives it back, with or without the padding, with the same alphabet or with detection |
| Base64.DetectionExactly | common/base64.hpp:344-389 | Detection succeeds if and only if the standard or the URL-safe decoding does, with the same octets |
| Base64.CharIsLetter | common/base64.hpp:84-86 | The alphabets are the letter sequences of sections 4 and 5 of RFC 4648 |
| Base64.LettersExactly | common/base64.hpp:344-389 | A character has a value if and only if it is in the alphabet, and the value is its position there |
| Base64.DecodesExactly | common/base64.hpp:198-240 | Decoding succeeds if and only if there are only characters of the alphabet before the padding and only padding behind them, or anything in loose mode; detection allows either alphabet |
| Base64.DecodedSize | common/base64.hpp:324-327 | k characters before the padding decode to exactly 6k/8 octets rounded down, within the announced maximum |
| Base64.DecodeInPlace | common/base64.hpp:294-313 | Decoding into the array that is being read gives the same octets or error as into a separate buffer, and touches nothing behind the text |
| NdArrays.PermutedAt | convert_lora_to_gguf.py:166 | Permuting axes moves each item to the permuted index |
| NdArrays.SplitAxisAt | convert_lora_to_gguf.py:148-152 | Reshaping keeps the row-major order: when an axis is split, index (i, j) is item i * m + j |
| NdArrays.PickedAt | convert_lora_to_gguf.py:109-110 | Slicing and index lists pick each item by its index on every axis |
| NdArrays.LayoutIsNatural | convert_lora_to_gguf.py:128-171 | Reshaping, permuting and picking commute with every change of the items |
| LoraTensor.ReshapeMeaning | convert_lora_to_gguf.py:128-152 | A reshaped pair multiplies out to the reshaped product, whatever dimension was left to be computed |
| LoraTensor.ReshapeExactly | convert_lora_to_gguf.py:128-152 | A reshape to given dimensions succeeds if and only if it keeps the row size and the number of rows |
| LoraTensor.MissingSizeFills | convert_lora_to_gguf.py:137-142 | A size of -1 becomes the one with which the shape holds all elements; when there is none, that is an error |
| LoraTensor.UnitRowPicks | convert_lora_to_gguf.py:38-50 | In the product, a row of B that is one at i and zero elsewhere gives row i of A |
| LoraTensor.RowTimesIsLinear | convert_lora_to_gguf.py:38-50 | The product is linear in the rows of B, which with the rows it picks determines it |
| LoraTensor.PermuteMeaning | convert_lora_to_gguf.py:160-166 | A permutation that keeps the last axis, on the pair, multiplies out to the same permutation of the product |
| LoraTensor.TransposeMeaning | convert_lora_to_gguf.py:167-168 | Transposing a 2-D pair by swapping its factors multiplies out to the transposed product |
| LoraTensor.TransposeInvolution | convert_lora_to_gguf.py:173-177 | Transposing twice gives the pair back |
| LoraTensor.AxesDistinct | convert_lora_to_gguf.py:160-168 | Axes that cover every axis name each of them once |
| LoraTensor.GetItemMeaning | convert_lora_to_gguf.py:75-110 | With slices and index lists in a tuple, indexing rows in the second factor and columns in the first multiplies out to indexing the product |
| LoraSlices.BareSliceExactly | convert_lora_to_gguf.py:70-74 | A bare slice multiplies out to the slice of the product if and only if there are two axes, or it selects the only position of A's leading axis, or nothing at all |
| LoraSlices.SecondGroupIsLost | convert_lora_to_gguf.py:70-72 | A concrete pair with three axes of which a bare slice loses the selected group |
| LoraStacks.StackMeaning | convert_lora_to_gguf.py:196-203 | Stacking 2-D pairs multiplies out to the stacked products |
| LoraStacks.CatStacksMeaning | convert_lora_to_gguf.py:204-212 | Concatenating stacks multiplies out to the concatenated products when their factors go together one by one |
| LoraStacks.ReshapedPairsDoNotCat | convert_lora_to_gguf.py:208-212 | Pairs that were reshaped to three axes have no product after concatenation |
| LoraStacks.IndexExactly | convert_lora_to_gguf.py:65-69 | A bare index gives the matrix of the product at that position if and only if the factors go together one by one, or it is the first or the last position |
| LoraStacks.WrappedIndexMeaning | convert_lora_to_gguf.py:97-110 | An index in a tuple, which A takes modulo its length, does so for every stack and every reshaped pair |
| LoraStacks.SliceBothMeaning | convert_lora_to_gguf.py:70-72 | A bare slice of a stack means the slice of the product |
| LoraStacks.SliceBExactly | convert_lora_to_gguf.py:97-110 | A slice in a tuple cuts only B of a stack: it means the slice of the product if and only if there is one matrix or it selects all of them |
| LoraStacks.SliceBOfReshaped | convert_lora_to_gguf.py:97-110 | On a reshaped pair it always does |
| LoraTensor.CatMeaning | convert_lora_to_gguf.py:204-219 | Concatenating 2-D pairs with equal first factors multiplies out to the concatenated products |
| LoraLayouts.LlamaPermuteExactly | convert_hf_to_gguf.py:1671-1676 | On an adapter the rotary permutation succeeds exactly when the rows divide into pairs of half heads, and reorders the rows of the second factor only |
| LoraLayouts.LlamaPermuteMeaning | convert_hf_to_gguf.py:1671-1676 | Applied to the pair it multiplies out to the same permutation of the product |
| LoraLayouts.LlamaRowsInterleave | convert_hf_to_gguf.py:1671-1676 | Within each head, row u of half j goes to position 2u + j |
| LoraLayouts.FalconExactly | convert_hf_to_gguf.py:1416-1425 | On an adapter the QKV regrouping succeeds exactly when the sizes fit, and reorders the rows of the second factor only |
| LoraLayouts.FalconMeaning | convert_hf_to_gguf.py:1416-1425 | Applied to the pair it multiplies out to the same regrouping of the product |
| LoraLayouts.FalconRowsRegroup | convert_hf_to_gguf.py:1416-1425 | Every row goes to its place: all queries, then all keys, then all values, each in group order |
| Bpe.FindPair | convert_hf_to_gguf.py:2234-2240 | The inner loop finds the leftmost pair of lowest rank, or none |
| Bpe.Merge | convert_hf_to_gguf.py:2231-2245 | The loop computes the run that merges the leftmost pair of lowest rank each time |
| Bpe.TokenIsKept | convert_hf_to_gguf.py:2231-2245 | The parts concatenate to the token, and no adjacent pair is ranked below the limit |
| Bpe.RunSettles | convert_hf_to_gguf.py:2233-2245 | The same from any parts, whose number never grows |
| Bpe.SettledExactly | convert_hf_to_gguf.py:2241-2242 | The run changes nothing if and only if no adjacent pair is ranked below the limit |
| Bpe.Resume | convert_hf_to_gguf.py:2233-2245 | Resuming from a limited result with a higher limit, or none, equals running with that limit from the start |
| Bpe.HigherLimitCoarsens | convert_hf_to_gguf.py:2231-2245 | The cuts of a run with a higher limit are among those of a run with a lower one |
| Bpe.LowestFirst | convert_hf_to_gguf.py:2236-2240 | The pair that is merged has the lowest rank of all pairs and is the leftmost of those |
| Bpe.PartsRankBelow | convert_hf_to_gguf.py:2241-2244 | Every part of a token is one byte, or has a rank below the limit |
| Bpe.OwnRankSplits | convert_hf_to_gguf.py:795-796 | Limited to its own rank a token is never put together again, so its last merge can be read off |
| ExpertStacking.Qwen2Moe.constructor | convert_hf_to_gguf.py:2288 | Nothing is buffered at the start |
| ExpertStacking.Qwen2Moe.TakeProjection | convert_hf_to_gguf.py:2308-2316 | The loop takes the weights of one projection out of the buffer in expert order, or finds one missing |
| ExpertStacking.Qwen2Moe.ModifyTensors | convert_hf_to_gguf.py:2290-2325 | One arrival changes the buffers and emits merged tensors as the step function does, or fails for the same reasons |
| ExpertStacking.Qwen2Moe.CheckLeftovers | convert_hf_to_gguf.py:2327-2334 | The final check passes if and only if every buffer is empty |
| ExpertStacking.SizeTest | convert_hf_to_gguf.py:2301 | Counting the buffered tensors tells exactly whether a layer is complete |
| ExpertStacking.RunHolds | convert_hf_to_gguf.py:2290-2325 | For every stream without repeats, in any order, the conversion does not fail, and each buffer holds what arrived for its layer unless the layer is complete |
| ExpertStacking.FinishedExactly | convert_hf_to_gguf.py:2301-2323 | Exactly the layers that become complete come out, each once |
| ExpertStacking.LeftoversExactly | convert_hf_to_gguf.py:2327-2334 | The leftover check passes if and only if no layer got only some of its weights |
| ExpertStacking.StackingIsOrderIndependent | convert_hf_to_gguf.py:2290-2334 | For every order of a complete stream, every layer comes out once, and every buffer ends empty |
| ExpertStacking.EachMergedOnce | convert_hf_to_gguf.py:2306-2323 | For each layer and projection exactly one merged tensor comes out, with the experts in index order |
| Mxfp4.Unpack | convert_hf_to_gguf.py:5918-5940 | Every logical index gets the table value of the low or the high nibble of its source byte, times two to the scale byte of its block minus 127; shapes that do not match are rejected |
| Mxfp4.TableIsE2M1 | convert_hf_to_gguf.py:5680-5682 | The table holds the four-bit floats with a sign, two exponent bits and one fraction bit |
| Mxfp4.ScaleDoubles | convert_hf_to_gguf.py:5919-5940 | Scale byte 127 leaves the table value as it is, and each step of the scale byte doubles it |
| Mxfp4.ShapesExactly | convert_hf_to_gguf.py:5889-5905 | Accepted are rows of whole 16-byte blocks with one scale byte for each |
| Mxfp4.RowKeepsValues | convert_hf_to_gguf.py:5906-5914 | The 17-byte blocks of a row give every logical index its nibble and its scale |
| Mxfp4.RepackingPreservesValues | convert_hf_to_gguf.py:5889-5940 | For all rows and scales, packing rejects the same shapes as unpacking and keeps the nibble, the scale and the value of every logical index |
| Mxfp4.RepackingIsLossless | convert_hf_to_gguf.py:5906-5915 | Every source byte can be read back from the blocks |
| GgmlLoader.Hyperparameters.Load | convert_llama_ggml_to_gguf.py:60-76 | Seven words are read into the fields; an unknown file type is an error |
| GgmlLoader.Hyperparameters.SetNFf | convert_llama_ggml_to_gguf.py:54-58 | The feed-forward size is the second dimension of the last tensor with layer 0's name |
| GgmlLoader.Vocab.Load | convert_llama_ggml_to_gguf.py:84-98 | The loop appends the tokens that the file holds and returns the bytes it passed, or the first error |
| GgmlLoader.Tensor.Load | convert_llama_ggml_to_gguf.py:110-131 | A tensor header fills the fields, with padding and a 64-bit byte count |
| GgmlLoader.GgmlModel.ValidateHeader | convert_llama_ggml_to_gguf.py:144-166 | Magic and version choose the file format, or the matching error |
| GgmlLoader.GgmlModel.LoadTensors | convert_llama_ggml_to_gguf.py:191-195 | The offset loop collects every tensor and maps each name to its last tensor |
| GgmlLoader.GgmlModel.Load | convert_llama_ggml_to_gguf.py:180-201 | The whole load leaves in the objects what the file holds and returns the final offset, or the first error |
| GgmlLoader.ByteCountFits | convert_llama_ggml_to_gguf.py:126-127 | Without overflow the byte count is the exact one and not negative |
| GgmlLoader.LoadUndoesWrite | convert_llama_ggml_to_gguf.py:180-201 | Loading the serialisation of any well-formed model gives back its header, parameters, vocabulary and tensor headers with their byte ranges, and the final offset is the file length |
| GgmlLoader.RangesHoldData | convert_llama_ggml_to_gguf.py:128-129 | The byte ranges that come back hold exactly the bytes that were written |
| GgmlLoader.LoadedRanges | convert_llama_ggml_to_gguf.py:191-195 | For every file that loads: padded tensors start at multiples of 32, every range ends before the next header, and the final offset is the file length if and only if every range lies within the file |
| GgmlLoader.CutFileLoads | convert_llama_ggml_to_gguf.py:180-201 | Every well-formed file that is cut anywhere inside the padding or data of its last tensor loads like the whole file, with a final offset behind its end |
| GgmlLoader.ByteCountExactly | convert_llama_ggml_to_gguf.py:126-127 | The byte count is the product of all factors, wrapped to 64 bits, divided by the block size |
| GgmlLoader.StallsExactly | convert_llama_ggml_to_gguf.py:191-195 | The loop does not advance if and only if it comes to a tensor whose wrapped byte count is at most minus the size of its header with name and padding |
| GgmlLoader.StallingFileStalls | convert_llama_ggml_to_gguf.py:180-195 | A whole concrete file, loaded from its start, that keeps the loop at one offset |
| GgmlLoader.StallsOnlyOnOverflow | convert_llama_ggml_to_gguf.py:191-195 | The loop advances at every tensor whose byte count does not overflow, so it ends |
| GgmlLoader.OverflowStalls | convert_llama_ggml_to_gguf.py:126-130 | A concrete header whose byte count overflows leaves the offset where it was |
| GgmlLoader.FeedForwardIsLast | convert_llama_ggml_to_gguf.py:54-58 | The feed-forward size is `dims[1]` of the last tensor with layer 0's name, and missing if and only if there is no such tensor |
| GgmlLoader.NameText | convert_llama_ggml_to_gguf.py:55 | That name, letter by letter |
| GgmlLoader.WordIsLittleEndian | convert_llama_ggml_to_gguf.py:61-69 | Words are read with the first byte as the lowest one |
| GgmlLoader.HeaderExactly | convert_llama_ggml_to_gguf.py:144-166 | Exactly which magics and versions are accepted, and as which format |
| GgmlLoader.FtypesExactly | convert_llama_ggml_to_gguf.py:168-178 | Exactly which file types are known, and which are converted from which version |
| GgmlLoader.TokenExactly | convert_llama_ggml_to_gguf.py:84-98 | A token is refused exactly for an absurd length or missing bytes |
| GgmlLoader.TensorExactly | convert_llama_ggml_to_gguf.py:110-123 | A tensor header is refused exactly for more than four dimensions, a long name, an unknown type or missing bytes |

## Left out

- Text is a sequence of characters: UTF-8 validity, incomplete code points at the end of the input, and the error of dumping invalid UTF-8 are not modelled.
- JsonText.DumpRoundTrip: the decoder does not read surrogate pairs, which the dumper never writes.
- Streaming.SessionRebuildsFinalMessage: parses are given as lists of nodes, and that a later parse continues an earlier one is a hypothesis; StreamedCalls and StreamedOutput derive it from the grammar of tagged calls, other grammars are not covered.
- StreamForks.StreamsExactly: the names of optional arguments do not hold the first character of the name suffix, and no opener starts with whitespace; formats outside that are not classified.
- OutputTexts.OutputRoundTrip: tools are told apart by where their names end; whitespace behind the last of parallel calls without an end marker makes the parser wait for another call and is not covered.
- StreamedOutput.OutputStreams: text in front of the content for reasoning is not modelled, and the condition that the section's end marker differs from what starts another call is sufficient only. Rules of different tools that share a name are not modelled.
- ToolCallMapper.Mapper.Map: a node that follows a discarded tool call reaches a destroyed object in the source; the model has no current call then. Server-side generation of ids and throttling of updates are not modelled.
- Gemma4Json.TruncatedTree: the relation between a cut tree and the whole one is a hypothesis here; Gemma4Growth derives what it is for from the grammar.
- Gemma4Calls.CallsStreamExactly: names of tools do not hold an opening brace; the content and the reasoning in front of the calls, and calls that are required, are not modelled.
- Gemma4Texts.ArgumentsRoundTrip: keys do not start with whitespace, which the grammar skips; a null is printed as the word that the grammar reads, and numbers as RFC 8259 writes them.
- TaggedArgs.ArgsRoundTrip: arguments whose schema is not a string go through a JSON parser with a schema, which is not modelled; neither is the call id section.
- TaggedArgs.NoValueHoldsClose: an empty value suffix never closes a value, so it is not covered.
- TaggedArgs.OwnRulesExactly: rules of different tools can also clash; the model covers the arguments of one tool.
- Peg: string content, JSON rules other than numbers and words, grammar output and the not-lenient mode are not modelled; sequences and choices have two parts each instead of a list.
- Chat templates, their analysis beyond the functions above, and the parsers of individual models are not modelled.
- LoraTensor.GetItemMeaning: several index lists at once are not modelled.
- LoraTensor.CatMeaning: pairs with more than two dimensions are treated in LoraStacks, for three axes.
- Tensor items are integers; floating-point rounding, data types and lazy tensors are not modelled.
- ExpertStacking.Qwen2Moe.ModifyTensors: tensor names are already split into layer, expert and projection; the state after an error is not described, and zero experts are excluded in the lemmas about whole streams.
- Mxfp4.Unpack: values are real numbers; that the largest ones overflow a 32-bit float is not modelled.
- GgmlLoader.GgmlModel.LoadTensors: a tensor that does not advance the offset is an error in the model, where the source goes on from the same or an earlier offset; loaded tensors are recorded as values instead of objects.
- GgmlLoader.Vocab.Load: scores are kept as their four bytes; the table of tensor types is a parameter.
- GgmlLoader: the conversion that follows the load is not modelled.
- Base64.Decode: what was written before an error is not described; the overloads for strings and buffers are one method.
- Bpe.Merge: ranks are a map from byte strings to integers; the vocabulary files are not read.
