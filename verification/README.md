# Verified models of SLING

This project models the parts of the SLING repository whose correctness is hardest to see from the code, and proves
what they are for.

- **The WikiFunctions compiler** (`Wiki*.dfy`, from wikifunc/wikifunc.js). Intermediate code with nested blocks has a
  meaning: what running it in a JavaScript host returns, or that it fails, with calls answered by an oracle of any
  depth. Composition, elision of inverse conversions, scoped common-subexpression elimination, constant conversion,
  dead-code elimination, naming and reachability are functions with laws, and the compiler's mutable blocks and work
  lists are classes whose methods are proved to compute these functions. The main result says, from conditions on the
  source alone, that a compiled program does what its compositions mean.
- **The SLING codecs** (`Sling*.dfy`, from app/lib/frame.js). The binary encoder and decoder and the text printer and
  reader are both functions on heaps of frames and classes that update buffers, positions and tables in place. The
  main results are two round trips up to isomorphism of graphs, from the bytes of variable-length integers up.
- **The collaboration protocol** (`Collab*.dfy`, from case/collabd.cc and case/app). Clients, the server, the monitor
  thread and the sockets form a state machine. The main results are convergence of clients that listen and of clients
  that write, over all runs, and the exact condition for logging in while updates are pending. `Name*.dfy` are the
  name indexes of server and client.
- **The LEX document format** (`Lex*.dfy`, from app/lib/document.js): text with nested mentions that are annotated
  with frames in text form. The main result is the exact condition of the round trip; it uses the text codec.
- **MD5** (`Md5*.dfy`, from app/lib/hash.js) against RFC 1321, and **calendar times** (`Calendar.dfy`, from
  app/lib/datatype.js).

Where the source loops over state, the model has a class or a method with the same loop, tied to a function by its
`ensures`; the laws are proved about the functions. What a format or an update means is also stated without these
functions: by what is read off the output, by what becomes of each slot, or character by character on whole examples.
Where the code does not do what its tests or documentation promise, the model follows the code; such properties are
listed under Findings with an input and the exact condition.

## Model

| member | source | states |
|---|---|---|
| WikiCseRun.CseMeaningExact | wikifunc/wikifunc.js:435-471 | Run by run: after common-subexpression elimination on a function body, a run from any environment has the same result, value or failure, if it tests no variable whose definition was removed, and otherwise it fails; when no constant comes after a loosely equal, different one in its block or in the part of an enclosing block before the branch |
| WikiCseRun.CsePreservesMeaning | wikifunc/wikifunc.js:435-471 | The pass changes neither the returned value nor failure, from any environment, when no conditional of the body tests a removed variable and there is no such pair of constants |
| WikiMerge.MergesExact | wikifunc/wikifunc.js:118-136 | Some step of the pass replaces a constant by a different one if and only if such a pair of constants stands in the code; constants of different branches are never compared |
| WikiApart.ApartExact | wikifunc/wikifunc.js:742-824 | The emitted code of a body has no such pair if and only if the composition has none, its arguments taken from left to right and a test before both branches |
| WikiCse.CseScopedIffTestsKept | wikifunc/wikifunc.js:293-307 | After the pass every variable is read only where it is visible if and only if no conditional tests a variable whose definition was removed |
| WikiCse.CseDefs | wikifunc/wikifunc.js:118-136 | Exactly the removed variables lose their definition, no other variable does, and none is added |
| WikiOnce.NothingAgain | wikifunc/wikifunc.js:435-471 | After the pass over well-formed code no call, conversion, list or constant is computed a second time where the first is in scope, in branches too; false, the empty string and objects do not count |
| WikiConst.ConvertPreservesMeaning | wikifunc/wikifunc.js:421-433 | Converting constants at compile time leaves every run of a block as it is, in nested blocks too, when the number converter gives what parseInt gives for the marked constants |
| WikiEach.AllFolded | wikifunc/wikifunc.js:421-433 | Every conversion of a number constant by the number converter is replaced by the number, in whichever branch it stands, and every other instruction stays |
| WikiDce.DceIsLeastDemand | wikifunc/wikifunc.js:138-175 | One backward pass over well-formed code ends with the least set of variables closed under what tests, returns and kept instructions read; so it removes as much as possible |
| WikiEach.OnlyLiveKept | wikifunc/wikifunc.js:138-175 | The pass over well-formed code leaves exactly the returns and the instructions whose variable is in the live set that it ends with, in whichever branch they stand |
| WikiIR.ListedExact | wikifunc/wikifunc.js:219-233 | A printed list is the intended one if and only if all its elements are given values; an element without one is dropped at the end of the list and leaves a hole elsewhere |
| WikiDce.DceMeaningExact | wikifunc/wikifunc.js:138-175 | For each run of well-formed code: the block after the pass runs in step with the block before it, branches included, with the same values of all variables that are needed or come from outside, if and only if every kept list that the run builds has only such elements, told from the block before the pass; then the same value is returned, and otherwise some kept list comes out different. For the rule as written and for the rule that marks the elements of lists |
| WikiDce.DcePreservesMeaning | wikifunc/wikifunc.js:473-482 | No returned value is changed, whatever the live set at the start: always with the rule that marks elements; with the rule as written when needed lists have needed elements |
| WikiDce.DceScopedExact | wikifunc/wikifunc.js:298-302 | After the pass every variable is read only where it is visible if and only if the rule marks elements or needed lists have needed elements |
| WikiComposeProof.ComposeCorrect | wikifunc/wikifunc.js:742-824 | Whatever has been emitted before, if an expression has a value then running the code that composing it adds succeeds and leaves that value in the returned variable; conditionals run one branch only |
| WikiComposeProof.NativeArgsCorrect | wikifunc/wikifunc.js:368-413 | Reusing the source of an earlier conversion instead of converting back gives a native call the same arguments as converting every argument, when the converters that meet are inverse |
| WikiSample.NestedCalls | wikifunc/wikifunc.js:368-413 | The code of a native call inside a native call, instruction by instruction: arguments are converted and results converted back, but the inner result is passed on as it is |
| WikiSample.Choice | wikifunc/wikifunc.js:742-824 | The code of a conditional: its result is declared and then assigned at the end of both branches |
| WikiBlock.Block.EliminateCommonSubexpressions | wikifunc/wikifunc.js:435-467 | The loops over the mutable block, overwriting and renaming in place, do what the recursive pass does, for any enclosing scope |
| WikiBlock.Block.ConstantConversion | wikifunc/wikifunc.js:421-433 | Conversion in place does what the recursive pass does |
| WikiBlock.Block.EliminateDeadCode | wikifunc/wikifunc.js:473-482 | The backward loop in place leaves the block and the live set of the recursive pass |
| WikiCompiler.Compiler.ComposeExpr | wikifunc/wikifunc.js:742-824 | Composing into a mutable block emits exactly the specified code, and loads exactly the functions that the expression calls |
| WikiCompiler.ComposeSucceeds | wikifunc/wikifunc.js:742-824 | Whether composing an expression throws does not depend on what has been emitted: it succeeds if and only if every argument is a parameter, every called function is in the catalogue with as many parameters, and nothing is unknown |
| WikiCompiler.Compiler.ComposeAllLoaded | wikifunc/wikifunc.js:659-680 | The work list terminates on every catalogue. It succeeds if and only if what was loaded is part of a set of functions of the catalogue that is closed under calls and whose compositions all compose; then every function that is called by a loaded one is loaded, and every loaded composition has code |
| WikiCompiler.Compiler.Compile | wikifunc/wikifunc.js:642-703 | Compiling succeeds if and only if the function is part of such a set; then the program is closed under calls, and every body, the main one included, has gone through all passes |
| WikiProgram.ProgramCorrect | wikifunc/wikifunc.js:642-740 | For every depth of calls, every emitted function returns what the composition means, recursion included, when the conditions of the passes hold for the emitted bodies |
| WikiSource.SourceSuffices | wikifunc/wikifunc.js:118-175 | Conditions on the expression alone imply all conditions of the passes on the emitted code: adjacent converters cancel, no constant comes after a loosely equal, different one, parseInt reads constants as the converter does, conditionals test an argument, the result of another conditional or the only call of a function in the body, and, with the list rule as written, lists hold only arguments |
| WikiSource.CompiledCorrect | wikifunc/wikifunc.js:642-740 | A compiled program whose bodies meet these conditions on the source does what it means: started on any arguments, the emitted main body returns what invoking the compiled function gives |
| WikiProgram.MainCorrect | wikifunc/wikifunc.js:646-657 | The emitted main body, started with arguments in the first local variables, returns what invoking the function means |
| WikiReach.Reach | wikifunc/wikifunc.js:703-712 | The nested loops return the least set that holds the items of the main body and with every function the items of its body; and it is enough: when calls of functions and converters outside the set fail, every run of the main body, from any environment and at any depth of calls, has the outcome that it has when everything can be called |
| WikiReach.ClosedEnough | wikifunc/wikifunc.js:309-312 | Any set that holds the items of the main body and is closed under the bodies of its functions is enough to run the program, in any host; both branches of conditionals count |
| WikiEach.ItemsExact | wikifunc/wikifunc.js:265-268 | What code refers to is exactly what some instruction in it calls, converts with, or has been converted with, in whichever branch it stands |
| WikiReach.ReachableIsProvided | wikifunc/wikifunc.js:703-712 | Every function and converter that emitted code refers to has been loaded or is in the catalogue |
| WikiReach.BaptizeDistinct | wikifunc/wikifunc.js:65-75 | Names generated for any code are pairwise distinct, and exactly the local variables that the code makes, assigns or tests get one |
| WikiReach.ReadsNamedExact | wikifunc/wikifunc.js:278-302 | After dead-code elimination every local variable that is read has a name if and only if the rule marks elements or needed lists have needed elements; otherwise a list is printed with an element that has no name |
| WikiOutput.Generate | wikifunc/wikifunc.js:642-740 | One run of the compiler: it succeeds if and only if the function is part of a closed set of functions that compose; then the program is closed under calls, the reachable set is the least one and enough for every run of the main body, everything in it can be printed, names are pairwise distinct, and exactly the arguments and the variables that some printed code makes, assigns or tests have one |
| SlingVarint.ReadVarint32Exact | app/lib/frame.js:592-601 | The 32-bit reader recovers what was written if and only if the number is below 2^28, and rejects all others |
| SlingVarint.ReadVarint64Exact | app/lib/frame.js:604-623 | The 64-bit reader recovers every number below 2^53 wherever its bytes stand, in spite of 32-bit shifts |
| SlingEncoder.Encoder.WriteVarint | app/lib/frame.js:1040-1051 | Writing a number below 2^53 appends its LEB128 bytes, at most the eight that were reserved; buffer growth changes nothing that was written |
| SlingEncoder.Encoder.Reserve | app/lib/frame.js:1016-1026 | Growing the buffer keeps contents, position and tables, and makes enough room unless the allocation fails |
| SlingEncoder.Encoder.Write | app/lib/frame.js:868-943 | The encoder object appends the specified encoding of a value, whose bytes the rows for SlingFormat tell, and leaves the specified reference table |
| SlingEncoder.EncodeObjects | app/lib/frame.js:846-866 | A new encoder's output for a list of objects is the whole specified encoding, marker included |
| SlingFormat.FirstLeb | app/lib/frame.js:1040-1051 | Numbers are written seven bits a byte, the lowest first, with 128 added to all bytes but the last, and without a digit too many |
| SlingFormat.PlainFormat | app/lib/frame.js:868-893 | Read off the output, the low three bits of the first number are 2 for a string, with its length and bytes; 5 for integers and truth values, with 30 bits; 6 for other numbers; 7 for null, which is special number 1 |
| SlingFormat.PartsFormat | app/lib/frame.js:926-943 | Arrays are special number 5 and qualified strings special number 8, followed by a size and the parts |
| SlingFormat.FrameFormat | app/lib/frame.js:894-925 | A frame is written out with tag 1 and the number of its slots; as special number 7 with that number and an index when it had only been linked to; afterwards tag 0 and its index are written; frames that are not there are linked to with tag 4 and their id |
| SlingFormat.LinkFormat | app/lib/frame.js:962-980 | Inside other objects, frames that are not anonymous are linked to with tag 4 the first time and referred to afterwards |
| SlingFormat.SlotFormat | app/lib/frame.js:945-959 | A slot is its name and its value; the value has tag 3 if and only if the name is that of ids, and then it is the id |
| SlingFormat.SymbolFormat | app/lib/frame.js:852-862 | The standard symbols are special numbers 2, 3, 4 and 9 from the start |
| SlingFormat.StringBytes | app/lib/frame.js:983-990 | The string "a" is encoded as 0, 10, 97 |
| SlingFormat.GraphBytes | app/lib/frame.js:868-1051 | All bytes of a graph with a link, a frame filled later, an anonymous frame inside itself, an array and null |
| SlingDecoder.DecodeObjects | app/lib/frame.js:579-830 | The decoder object, with its moving position and its table of references, gives the specified values and store, or the specified error, on every input |
| SlingFormat.ReadFormat | app/lib/frame.js:660-741 | What the decoder makes of a number by its low three bits: earlier objects, strings for both kinds of strings, links to the frame of an id or a new proxy, signed integers of 30 bits, floats and the special values |
| SlingIso.ValueBack | app/lib/frame.js:660-788 | Lockstep: after any value has been written and read back, the encoder's counter is the length of the decoder's table, every number in the encoder's table names the copy of its frame, the value read is the copy of the value written, and frames still being written are left alone; a root that has been linked must start with its id |
| SlingTrip.RootsEncode | app/lib/frame.js:868-980 | Any list of roots of a graph can be encoded, with sharing and cycles, after any other output |
| SlingTrip.RoundTrip | app/lib/frame.js:571-1051 | Decoding into an empty store what was written for any roots gives an isomorphic graph: sharing and cycles kept, frames that were linked first filled in place, public frames that were only linked returned as proxies; when no root whose id slot is not its first is linked by the roots before it |
| SlingTrip.FirstIdsPrompt | app/lib/frame.js:96-110 | When the id of every frame comes first, as in the frames and proxies that a store makes from an id, the condition on roots holds for any roots in any order |
| SlingLimits.RegisterExact | app/lib/frame.js:744-788 | Registering a late id of a frame keeps encoder and decoder in lockstep if and only if the entry of the reference table that it overwrites belongs to no other frame |
| SlingGraph.Wrap30Exact | app/lib/frame.js:868-874 | An integer is read back as itself if and only if it lies in [-2^29, 2^29); otherwise it comes back modulo 2^30 |
| SlingFormat.CopyFormat | app/lib/frame.js:868-893 | What a round trip makes of values: strings and null stay, truth values become 1 and 0, integers keep 30 bits, other numbers lose two bits, and arrays and qualified strings are copied part by part |
| SlingTextIso.TextRoundTrip | app/lib/frame.js:1099-1607 | For every graph and root frame, on one line or with any indentation: printing and reading succeed, and what is read is the same graph, with sharing, if and only if no frame that is printed in full leads back to itself through anonymous frames |
| SlingLexis.QuoteBack | app/lib/frame.js:1213-1224 | Unquoting a quoted string gives the string, for every string of bytes |
| SlingWords.WordsPrinted | app/lib/frame.js:1475-1496 | True, false and nil are printed as the words `true`, `false` and `nil` |
| SlingWords.WordsRead | app/lib/frame.js:1081-1087 | The texts `true`, `false`, `nil` and `null` are read as true, false, null and null |
| SlingWords.SlotsPrinted | app/lib/frame.js:1550-1569 | The marks of slots: `=` before an id, `:` before a type, `+` before an included frame, `:` or `: ` between another name and its value |
| SlingWords.SlotsRead | app/lib/frame.js:1376-1411 | The reader takes these marks for slots with an id, a type and an included frame, and anything else for a name, a colon and a value |
| SlingWords.Characters | app/lib/frame.js:1144-1210 | Which characters are white space, which are tokens by themselves, and which make names |
| SlingWords.QuotedCharacter | app/lib/frame.js:1481 | How each character is quoted, after section 7 of RFC 8259 |
| SlingSample.SampleTexts | app/lib/frame.js:1459-1607 | The whole texts of a public frame and of anonymous frames with an array, a qualified string and a shared frame, on one line and indented |
| SlingSample.PublicRead | app/lib/frame.js:1308-1456 | Reading the first of these texts gives a public frame with exactly these slots and a proxy for its type |
| SlingSample.AnonymousRead | app/lib/frame.js:1308-1456 | Reading the others, in either layout, gives the two anonymous frames with exactly these slots, the inner one shared |
| SlingTextLimits.SymbolExact | app/lib/frame.js:1268-1306 | A printed symbol is read as a link to the frame with that id if and only if the id is not a keyword |
| SlingTextLimits.QualifierExact | app/lib/frame.js:1483-1491 | A qualified string is printed without its qualifier if and only if the qualifier counts as false |
| SlingWords.FalseValues | app/lib/frame.js:1486 | What counts as false: undefined, null, false, zero and the empty string |
| SlingPrinter.PrintObject | app/lib/frame.js:1459-1607 | The printer object, with its growing output, nesting level and table of printed frames, writes the specified text, whose words and marks the rows for SlingWords and SlingSample tell |
| SlingReader.Reader.ReadAll | app/lib/frame.js:1099-1456 | The reader object, character by character and token by token, gives on every input the specified value and store, or the specified error; what words and marks mean is told by SlingWords |
| Collab.HandlersAgree | case/collabd.cc:927-1063 | The server's and the client's handler of an update give the same case if and only if the update is unambiguous for them: names of folders that occur twice, and lists of topics that say something new, are what they disagree on |
| CollabMeaning.ServerFolder | case/collabd.cc:975-991 | On the server the first folder of a name gets the new list or the new name, every other folder stays, and nothing happens when there is none |
| CollabMeaning.ClientFolder | case/app/case.js:1884-1895 | In a client every folder of the name gets it |
| CollabMeaning.FolderList | case/collabd.cc:994-1023 | A new list of folders has the given names in order; each keeps the topics of the last old folder of its name, or is empty; both sides do the same |
| CollabMeaning.TopicStored | case/collabd.cc:927-948 | A topic update stores the content, adds a new topic at the end, and changes nothing else; both sides do the same |
| CollabMeaning.TopicDropped | case/collabd.cc:1025-1042 | Deleting drops the first occurrence of a topic from the list and nothing else; both sides do the same |
| CollabMeaning.TopicsStored | case/collabd.cc:950-973 | The server takes lists of topics from clients and the clients take them from the server, one topic after the other; neither takes the other kind |
| Collab.ImportReplay | case/collabd.cc:1085-1138 | Replaying the notifications of an import gives the server's case if and only if all ids are new and the folder is not ambiguous |
| CollabMeaning.Imported | case/collabd.cc:1085-1138 | An import adds the topics at the end, in order and with their contents, and their ids to the first folder of the name if there is one |
| CollabMeaning.NumberedTopics | case/collabd.cc:1090-1098 | Imported topics get the ids t/case/number with the next numbers in order |
| Collab.RedirectReplay | case/collabd.cc:1140-1202 | Replaying the notifications of a redirect always gives the server's case |
| Collab.RedirectStores | case/collabd.cc:1149-1192 | A redirect stores the redirected contents of every topic but the target, and leaves all other contents alone; what becomes of each slot is told by CollabMeaning.RedirectLinks |
| CollabMeaning.RedirectLinks | case/collabd.cc:1149-1192 | Slot by slot, in every topic but the target: a link to the source, also in a slot of a qualifier, becomes a link to the target if that exists and its id otherwise; the source's id in an is-slot becomes the target's id; all names, other values and orders stay, and so do topics and folders |
| CollabCase.ServerCase.Update | case/collabd.cc:927-1063 | The object's handler turns its fields into what the specified server step gives |
| CollabCase.ServerCase.ImportTopics | case/collabd.cc:1085-1138 | The loops of the bulk import turn the fields into the specified case, with fresh ids from the counter, and return its notifications |
| CollabCase.ClientCase.Receive | case/app/collab.js:94-141 | The client's handlers, which splice and push in place, turn its fields into what the specified client step gives |
| CollabCase.Service.SendNote | case/collabd.cc:1077-1083 | The loop over clients puts a notification into the socket of every client but its source, and nothing else |
| CollabMeaning.Delivered | case/collabd.cc:1077-1083 | A notification is put at the end of the inbox of every client but its source, and no view changes |
| CollabMeaning.LoggedIn | case/collabd.cc:1560-1594 | Logging in sends one snapshot with the present topics, their contents and the folders, and changes nothing else |
| CollabRuns.FollowerConverges | case/collabd.cc:1560-1626 | Over every run of logins, updates, imports, redirects and monitor steps: replaying its socket and the pending notifications, the one in the monitor's hand included, gives a client that sends nothing the server's topics, contents and folders |
| CollabRuns.QuietFollower | case/collabd.cc:1856-1884 | Once nothing is under way, such a client shows what the server has |
| CollabLogin.RunRecorded | case/collabd.cc:1821-1884 | Over every run of clients that respect the rules: the updates that are still pending lead from some earlier case, through cases without duplicate folders or topics, to the server's case |
| CollabReplay.ReplayExact | case/collabd.cc:1560-1594 | Replaying pending updates on the case that has them already changes nothing if and only if topics and folders are settled: no topic whose deletion is pending stands before one whose deletion is not; with no list of folders pending, every folder goes through the pending renames and updates by itself and comes back; with one, every folder of the first list that keeps its topics finds the topics that it has now |
| CollabLogin.LoginExact | case/collabd.cc:1560-1594 | In every world of such a run, a client on a new connection that logs in follows if and only if the server's topics and folders are settled under the pending updates |
| CollabLogin.LoginSafe | case/collabd.cc:1560-1594 | It follows when no deletion and no rename is pending, and no update of a folder before a list of folders; other pending updates do no harm |
| CollabLogin.LoginWithoutLists | case/collabd.cc:1560-1594 | With no list of folders pending and no folder under a new name, it follows if and only if topics are settled and every folder has the name that it had before the pending updates |
| CollabRuns.IdsUnique | case/collabd.cc:921-925 | Over every run the ids given out, one by one or by imports, are pairwise distinct and below the counter |
| CollabWriters.WriterConverges | case/app/collab.js:94-141 | Over every run in which crossing updates touch different topics and folders, what a writing client will show when everything has arrived is what the server will have, up to the order of topics |
| CollabWriters.QuietWriter | case/app/collab.js:94-141 | Once nothing is under way in either direction, the writer shows the server's case |
| NameIndex.TopicNameIndex.Search | case/collabd.cc:730-787 | The search over the lazily rebuilt sorted list appends what a linear scan of all live names finds in sorted order, cut off at one hit more than the limit |
| NameIndex.TopicNameIndex.Find | case/collabd.cc:789-806 | A full match is found if and only if some topic has the name, and then it is a name of the topic found |
| NameIndex.SearchIndex.FindHits | case/app/search.js:178-232 | The hits are the topic that the index has under the id, then what a linear scan of the sorted names finds, then the matches of parts of names |
| NameIndex.IdsExact | case/app/search.js:137-176 | The index, filled topic by topic, has under an id the last topic that has the id or a redirect from it, and if there is none, the first topic that has it as an identifier elsewhere; it has nothing if and only if there is neither |
| NameOrder.FindLowerBound | case/app/search.js:178-232 | Halving stops at the first name that is not less than the query, or at the last name |
| NameMeaning.LessExact | case/app/search.js:163-168 | Dictionary order: a word comes before another if it is smaller where they first differ, or ends there |
| NameMeaning.MatchesExact | case/collabd.cc:745-787 | The three kinds of matches: the beginning of a name, the whole name, or a part that stands anywhere in it |
| NameMeaning.HitsExact | case/collabd.cc:745-787 | Every matching entry is a hit as often as it is in the list, in its order, and nothing else is |
| NameMeaning.CutExact | case/collabd.cc:747-770 | A search ends with one hit more than the limit, earlier ones included; up to that it gives all hits |
| NameMeaning.NamesExact | case/collabd.cc:672-690 | The names of a topic are the strings in its slots for name, alias, name at birth (P1477) and married name (P2562), normalized |
| NameMeaning.EntriesExact | case/app/search.js:144-159 | The client's list has an entry for every such slot of every topic that is not a proxy, and marks aliases only |
| NameMeaning.PartsExact | case/app/search.js:208-224 | The further hits of a keyword search are exactly the names and aliases of which the query is a part |
| LexExact.RoundTripExact | app/lib/document.js:390-459 | For every text without LEX characters and all mentions in it, annotated with symbols or anonymous frames: printing succeeds, and reading gives the text, the same spans in closing order and the same graph of annotations if and only if no mention is empty, all are nested, none begins where another ends, and no annotation leads back to itself through anonymous frames |
| LexExact.ReadLaminar | app/lib/document.js:147-239 | Whatever is read, its mentions are nested or apart, and those found first stay |
| LexTags.IdExact | app/lib/document.js:408-419 | An id in an annotation, which is written as it is, is read as the symbol of that name if and only if it is a symbol as it is |
| LexDocument.ParseLex | app/lib/document.js:147-239 | The parser, which switches between characters and objects of one reader, gives on every input what the format prescribes; what brackets, bars and annotations mean is told by LexNotes |
| LexNotes.SeveralNotes | app/lib/document.js:168-202 | Reading text in brackets with n symbols behind the bar, separated by spaces, gives n mentions over the text, the i-th annotated with the frame of the i-th symbol, for every n from 1 on and all ids that are no keywords |
| LexNotes.NestedRead | app/lib/document.js:159-221 | Brackets inside brackets give two mentions without annotations over their texts, the inner one first |
| LexNotes.PlainRead | app/lib/document.js:168-236 | Text without an opening bracket is read as it is, and an opening bracket that is not closed leaves no mention |
| LexNotes.LastSymbol | app/lib/document.js:193 | A symbol at the end of the input is lost when another annotation comes before it, and kept otherwise |
| LexNotes.Signs | app/lib/document.js:159-224 | The characters with a meaning are square brackets, the bar and braces, and those of tags and references |
| LexDocument.ToLex | app/lib/document.js:390-459 | The printer with two cursors over the mentions sorted in both orders writes what the format prescribes, and fails exactly when an annotation cannot be printed |
| LexNotes.LabelPrinted | app/lib/document.js:408-419 | What is printed before the closing bracket of a mention: nothing, a bar and an id, or a bar and an anonymous frame; anything else cannot be printed |
| LexEscape.DetagEscape | app/lib/document.js:9-30 | Removing tags and references from escaped text gives the text, for every text |
| LexEscape.EscapePlain | app/lib/document.js:28-30 | Escaped text contains no character that means something to LEX or in a tag |
| LexEscape.TagsRemoved | app/lib/document.js:20-22 | A tag goes from `<` over at least one character to the next `>`, or to the end of the text; text before it stays, and `<>` is no tag |
| LexEscape.ReferenceRead | app/lib/document.js:23-25 | Every decimal character reference below 2^16 is read as its character, whatever follows |
| LexEscape.EscapedCharacters | app/lib/document.js:9-30 | Exactly eight characters are escaped, each by its reference |
| LexDom.MentionsExact | app/lib/document.js:32-81 | For every edited document: a mention covers the text that its node has produced if and only if it is empty or no paragraph was trimmed to a length below its end. The one exception are mentions behind the closing tag of a paragraph that was trimmed: they had produced only white space, and cover what was written after the paragraph |
| LexDom.AllSafeExact | app/lib/document.js:52-64 | No mention of a paragraph ends behind the text that is left by trimming if and only if no mention of the document was cut; then all mentions end within the text |
| LexMarkup.ElementText | app/lib/document.js:42-73 | What each kind of element adds: spans nothing, paragraphs a new line and their tags around trimmed text, divisions a paragraph and a new line, others their tags |
| LexMarkup.SpaceExact | app/lib/document.js:62 | What is trimmed at the end of a text is exactly one of the 25 code points that are white space or end a line in JavaScript |
| LexDom.EditedReadBack | app/lib/document.js:314-327 | Saving an edited document: text, mentions and annotations are read back if and only if no mention is empty, none begins where another ends, and no annotation leads back to itself |
| Md5.Md5Digest | app/lib/hash.js:6-145 | The digest of every message shorter than 2^29 bytes is that of the table-driven algorithm of RFC 1321; for longer ones only the padding differs |
| Md5.PaddingExact | app/lib/hash.js:48-59 | The padding is that of RFC 1321, sections 3.1 and 3.2, if and only if the message is shorter than 2^29 bytes |
| Md5.PadLeast | app/lib/hash.js:48-59 | The padding takes the least number of whole blocks that holds message, marker and length |
| Md5.AdIsAddition | app/lib/hash.js:18-22 | Adding signed words in two halves is addition modulo 2^32 |
| Md5.RlRotates | app/lib/hash.js:24-26 | The two shifted halves together are the circular shift of section 3.4 |
| Md5Meaning.MixBits | app/lib/hash.js:32-46 | The four auxiliary functions bit by bit: a choice by b, a choice by d, parity, and c against b or not d |
| Md5Meaning.WordBits | app/lib/hash.js:32-46 | And, or, exclusive or and complement of words, bit by bit |
| Md5Meaning.Rounds | app/lib/hash.js:61-140 | Which word of the block and which shift each of the 64 steps uses |
| Md5Meaning.SineTable | app/lib/hash.js:61-140 | The 64 constants are the first 32 binary digits of the sines of 1 to 64, computed by the addition theorem |
| Md5Meaning.Initial | app/lib/hash.js:61-66 | The initial registers are printed as 0123456789abcdeffedcba9876543210 |
| Md5Meaning.PaddingBytes | app/lib/hash.js:48-59 | Byte for byte, the words are the message, the byte 128 and zeros, low-order byte first |
| Md5Meaning.StepExact | app/lib/hash.js:28-30 | What one step makes of the four registers, by sums modulo 2^32 |
| Md5Meaning.BlocksAdd | app/lib/hash.js:66-145 | Each block adds the result of its 64 steps to the registers, starting from the initial ones |
| Calendar.AfterDays | app/lib/datatype.js:318-357 | Next at day precision reaches 1 January of the following year after exactly the days that are left, and not before |
| Calendar.NewYear | app/lib/datatype.js:318-357 | From 1 January it takes exactly 365 or 366 steps to the next |
| Calendar.NextIncreases | app/lib/datatype.js:318-373 | Both numbers of a time strictly increase from one time to the next, at every precision and in every year |
| Calendar.MonthLengths | app/lib/datatype.js:111-139 | The lengths of the twelve months, with 29 days in February when the year is divisible by four |
| Calendar.SomeTimes | app/lib/datatype.js:318-373 | Next times across the ends of months and years at every precision, and decimal times in March of a common and a leap year |
| Calendar.SomeValues | app/lib/datatype.js:142-315 | Printed and read values at every precision |
| Calendar.ValueExact | app/lib/datatype.js:142-202 | From year 1000 on, a printed value is read back if and only if it is a day, a month, year or decade up to year 9999, or the first year of a century up to 9999; a millennium never is |

## Findings

Properties that are false of the code, each with the source line, an input on which it fails and the exact condition
under which it holds.

| property | source | fails on | holds exactly when |
|---|---|---|---|
| Common-subexpression elimination keeps code well scoped and its meaning | wikifunc/wikifunc.js:304-307: renaming in a conditional leaves out the tested variable | `WikiLimits.DuplicateTestLost`: a call repeated before a conditional that tests the second result; the code then tests a variable that is never set, and fails | for scoping, no conditional tests a removed variable (`WikiCse.CseScopedIffTestsKept`); for meaning, the run reaches no such test (`WikiCseRun.CseMeaningExact`); from the source it suffices that conditionals test an argument, the result of another conditional or the only call of a function in the body (`WikiSource.SourceSuffices`) |
| Equal constants are interchangeable | wikifunc/wikifunc.js:130: constants are compared with a loose `!=` | `WikiLimits.LooseConstantsMerged`: a list of the text "1" and the Boolean true comes out as "1" twice | no constant comes after a loosely equal, different one in its block or in the part of an enclosing block before the branch (`WikiMerge.MergesExact`; told from the source, `WikiApart.ApartExact`) |
| Dead-code elimination keeps the meaning of lists | wikifunc/wikifunc.js:169: the loop marks the indices of a list's elements, not the elements | `WikiLimits.ListElementLost`: a list of one call result; the call is removed, its variable gets no name, and the list comes out empty; with another element after it, the list comes out with a hole | every kept list that the run builds has only elements that are needed otherwise or come from outside (`WikiDce.DceMeaningExact`); for scoping, `WikiDce.DceScopedExact`. With the evident intent, marking the elements, always (`WikiDce.DcePreservesMeaning` for that rule) |
| Frames whose id slot is not the first survive the binary round trip | app/lib/frame.js:767-775: an id that is known overwrites the entry of the reference table at its length when the frame began | `SlingLimits.LateIdLost`: a list with a link to a frame, the frame, whose first slot holds another frame and whose second is its id, and the other frame; reading back, the third object is the second | the overwritten entry belongs to no other frame (`SlingLimits.RegisterExact`); for the whole round trip it suffices that no root with a late id is linked by the roots before it (`SlingTrip.RoundTrip`) |
| Arrays are read back whatever their length | app/lib/frame.js:592-601: the 32-bit reader rejects numbers of more than four digits | `SlingLimits.LongListRejected`: any array of 2^28 or more elements | the length is below 2^28 (`SlingVarint.ReadVarint32Exact`) |
| Integers survive the binary round trip | app/lib/frame.js:870-871: 30 bits are written | any integer outside [-2^29, 2^29) | the integer is in that range (`SlingGraph.Wrap30Exact`) |
| Frames survive the text round trip | app/lib/frame.js:1347-1353, 1424-1428: a frame that refers to itself is replaced, not filled | `SlingTextIso.SelfLinkLost`: a public frame with a link to itself is read as one with a link to a proxy | no frame that is printed in full leads back to itself through anonymous frames (`SlingTextIso.TextRoundTrip`) |
| Every symbol is printed so that it is read as itself | app/lib/frame.js:1592-1600 | an id that is `nil`, `null`, `true` or `false` | the id is no keyword (`SlingTextLimits.SymbolExact`) |
| A string is read back | app/lib/frame.js:1222: the literal is cut one character short at the end of the input | `SlingTextLimits.StringRootLost`: every text that is one string | something comes after the string (`SlingLexis.LexString`) |
| Qualified strings are printed with their qualifier | app/lib/frame.js:1486 | a qualifier that is 0, false, empty or nil | the qualifier does not count as false (`SlingTextLimits.QualifierExact`) |
| An annotation's id is read back | app/lib/document.js:415: the id is written without quotes | an id with a space, which is read as two annotations | the id is a symbol as it is (`LexTags.IdExact`) |
| Mentions cover the same text after editing | app/lib/document.js:62: the text of a paragraph is trimmed after mentions were placed | `LexDom.TrimMovesMention`: a mention with a space at its end, at the end of a paragraph; it then covers part of the closing tag | the mention is empty, or its end is at most the trimmed length of every paragraph around it (`LexDom.MentionsExact`, which also says what becomes of mentions wholly within the white space that is cut off) |
| Mentions are read back as they were | app/lib/document.js:421-447: brackets that open are printed before those that close | a mention that begins where another ends | see `LexExact.RoundTripExact` |
| A client that logs in is in step | case/collabd.cc:1560-1594: the snapshot has updates whose notifications are still queued | `CollabLogin.LoginDuringRename`: a run after which a rename and a new folder of the old name are pending; the topics of the renamed folder are lost to the client | topics and folders are settled under the pending updates (`CollabLogin.LoginExact`); by kinds of updates, `CollabLogin.LoginSafe` and `CollabLogin.LoginWithoutLists` |
| Clients follow updates of several topics | case/app/collab.js:98-141: there is no handler for lists of topics | `CollabRuns.TopicsNotFollowed`: any such update that adds a topic | the update says nothing new (`Collab.HandlersAgree`) |
| Server and client agree on folders | case/collabd.cc:975-991: the server changes the first folder of a name, the client all | two folders of the same name with different topics | the folder is unambiguous (`Collab.HandlersAgree`) |
| A redirect stored as a link is found by its id | case/collabd.cc:665-668: the id of the name is added, not that of the value | `NameIndex.RedirectLost`: a redirect whose value is a link; the id that is stored is that of the property | the redirect is given as a string, or the id is that of the property (`NameIndex.IdsIndexed`) |
| A printed time is read back | app/lib/datatype.js:142-202, 264-315 | a century whose year is not its first; every millennium | `Calendar.ValueExact` |
| The digest is that of RFC 1321 | app/lib/hash.js:57: the upper word of the length is left zero | messages of 2^29 bytes or more | the message is shorter (`Md5.PaddingExact`, about the padding) |

## Left out

Compiler:

- Loading items, asynchronous code, choosing among implementations, the JSON layout of items, printing of code and
  annotations: the catalogue is a finite map of functions with one implementation.
- Native code, converters, `toNumber`, parseInt, truthiness of native values and equality in the host are parameters of
  the host; built-in functions have no value.
- Call arguments come in the order of the callee's parameters; given names of parameters are assumed distinct from
  generated names.
- Nested blocks are values inside conditionals, and a method works on them through a block of its own: aliasing of
  nested blocks is not captured.
- WikiCseRun.CseMeaningExact: the condition speaks of the variables that the pass removes; WikiSource.SourceFits states
  it on the source, one way.
- WikiSource.CompiledCorrect: with the list rule as written, lists hold only arguments; lists of elements that are used
  elsewhere are not told from the source, and WikiDce.DceMeaningExact is the exact condition for them.
- WikiMerge.MergesExact: says when a constant is replaced by a different one, not when that changes a result.

Codecs:

- Strings are given by their UTF-8 bytes; UTF-8 itself and Unicode are not modelled.
- Floats are opaque 32-bit patterns in the binary form, whose two low bits are dropped; the text form of floats is not
  modelled, and numbers in text are integers that JavaScript represents exactly.
- Arrays and qualified strings are values, not shared objects: an array that contains itself, on which the encoder does
  not end, has no model.
- Stores have no globals, ids are strings, the INDEX tag is an error, and buffers of 2^50 bytes or more cannot be
  allocated.
- SlingTrip.RoundTrip: requires a reference table below 2^28 entries; the condition on late ids is sufficient, not
  necessary: an overwritten entry does no harm if the frame that owned it is not referred to again.
- SlingTextIso.TextRoundTrip: graphs whose public frames start with an id that they do not repeat and that is no
  keyword, without floats, undefined values and qualifiers that count as false; the root is a frame and no standard
  symbol; reading is into an empty store. SlingTextLimits has what happens outside.
- SlingReader.Reader.ReadAll: four-digit escapes beyond ASCII, numbers and indices without digits, and floats are errors
  in the model; so are invalid characters and arrays that are not closed, on which the program does not end.
- Printing without references for anonymous frames (the `anon` argument of `text`).

Collaboration and name index:

- One case. WebSockets, locks, lazy loading, disk files, time stamps, participants, invitations and credentials;
  handlers are atomic, sockets first-in first-out, and the width of the id counter is not modelled.
- CollabRuns.FollowerConverges: updates of several topics must say nothing new, topics that are updated must have ids
  that were given out, and folder names stay distinct.
- CollabWriters.WriterConverges: crossing updates touch different topics and folders.
- CollabLogin.LoginExact: the client is on a new connection, so that no pending update is its own.
- Normalization of names is a parameter, as are the printed form of identifiers and which properties are identifiers;
  names have no NUL character; in the client's index, redirects that are neither strings nor topics are left out.

LEX:

- Phrase maps, themes and parse errors inside annotations: reading gives None for the last two. Positions count bytes.
- LexExact.RoundTripExact: annotations are anonymous frames or have ids that are symbols as they are (LexTags.IdExact);
  reading is into an empty store; HTML output is not modelled.

Arithmetic:

- Md5: messages are byte strings.
- Calendar: reals for floating-point numbers; strings for years before 1000, free-text dates and names of months
  are left out; every fourth year is a leap year, as in the code.
