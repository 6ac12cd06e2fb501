# Hooq and breakpad, modelled and proved

Hooq records what a user does in a Qt application, compiles the log to a script and plays the script back through code
injected into the application. Its crash handling is a vendored copy of google-breakpad. This project models the
algorithms of both and proves what they are for.

`dafny verify dfyconfig.toml` checks everything.

| area | files |
|---|---|
| shared | `Wrappers` |
| address indexes | `Addresses`, `ContainedRangeMap` (tree function and its theory), `ContainedRangeMapHeap` (nodes on the heap), `RangeMap`, `SymbolLookup` |
| playback protocol | `AckProtocol` (state machine and invariants), `AckProgress` (no deadlock), `Playback` (the classes, as runs of that machine) |
| codecs and digest | `Utf`, `UtfConverters`, `Registers`, `Md5` |
| script compiler | `Items`, `Passes`, `ItemStrings` (the code), `ScriptMeaning` (what a list of items does), `Identifiers`, `Literals`, `Printing`, `VariableNames`, `ObjectPass`, `StringPass`, `NameClash`, `EventPasses`, `MovePass`, `MoveTime`, `CompiledScript` (the results) |
| object names, mouse replay | `Paths`, `ObjectNames`, `MouseReplay` |
| small machines | `LinkedPtr`, `PostfixMachine`, `PostfixPrograms`, `MinidumpWriter`, `Decimals` |

## How the model is built

Code that changes state is a class or a method with loops. Its contract equates the new state with a function of the old
one, and the lemmas are about that function: the heap tree refines a tree function, the Player's methods are runs of the
protocol machine, the `Convert*` loops write what a character-by-character reference yields, `MD5Update` refines the
one-shot digest, the script passes refine step functions on lists.

What the environment does is a parameter: bytes that arrive before each wake-up of an event loop, whether the operating
system extends a file and how much of a write it performs, which characters are letters or numbers, the list of
top-level widgets, whether a path resolves.

A script means the calls it makes: none if any of its statements is a syntax error; else statements run in order, a
declaration binds its name, a call resolves its target and argument in the bindings at that point. Names and literals of
declarations are read from the very text the passes produce. A statement is a syntax error also when a string in it
cannot be read back as it was: texts and paths of declarations are escaped, paths inside a parameter list are printed as
they are, and the place markers of `QString::arg` are those its documentation describes. Which characters may start or
continue an identifier is a parameter beyond ASCII.

## Where the code does not do what one would expect

Each is kept as the code has it, with the exact condition under which the expectation holds or a statement of what
happens instead.

- `RetrieveNearestRange` reports the high address of a range below as its base, so `LookupAddress` names a function just
  past its end, and a function ending at the last address is never named (`SymbolLookup.FunctionPromiseExactly`); for
  the same reason a PUBLIC symbol can be missed, or used wrongly when a sum wraps (`SymbolLookup.PublicPromiseExactly`).
- `isLegalUTF8` checks only the upper bound of the second byte after 0xED and 0xF4 (`Utf.LegalExactly`,
  `Utf.Utf8AcceptedExactly`). The value checks after decoding are unreachable, so the strict flag has no effect in that
  direction (`Utf.FlagMakesNoDifference`).
- `UTF16ToUTF8` reads its buffer as a C string that nothing terminates (`UtfConverters.WholeTextExactly`).
- The end of the document is acknowledged through the register of the last event, so its ACK can be lost
  (`AckProtocol.EndAckLostExactly`, `AckProgress.WaitCanSucceedExactly`); a client that waits as the Interpreter does
  never sees this.
- A widget whose keyword is no identifier, such as `2nd` or `new`, makes the whole script a syntax error
  (`ObjectPass.ObjectPassKeepsMeaningExactly`).
- An object variable can be called `stringK` and then hides a string constant (`NameClash.VariablesKeepMeaningExactly`);
  `escapeString` leaves U+2028 and U+2029 alone, which a literal may not hold (`Literals.EscapeReadsBack`), so that one
  such widget name stops the whole script (`ObjectPass.SeparatedName`).
- A log that ends in a move gets that move twice (`MovePass.MovePassExactly`), and a run that ends where it began is not
  played back at all (`MouseReplay.CollapsedReplays`). A collapsed run of length `n` waits `n + 1` times its
  duration over `n`, rounded down, and the pause after it, which is part of that duration, stays in the script too
  (`MoveTime.TimeExactly`).
- Replacing `::` by `:_:` can make different names equal (`Paths.EscapeNameCollidesExactly`), and
  leaves a separator in a run of three colons (`Paths.EscapeNameExactly`).
- A `TypedMDRVA` that was never allocated is still written when it is destroyed (`MinidumpWriter.UnallocatedFlush`).
- `MD5Final` clears only as many bytes of the context as a pointer has; what is left is stated with the digest
  (`Md5.Context.MD5Final`).

## Model

| member | source | states |
|---|---|---|
| `ContainedRanges.StoreCorrect` | google-breakpad/src/processor/contained_range_map-inl.h:57-147 | From any tree whose children are disjoint, ordered by high address and strictly inside their parent: a store is accepted exactly when the new range is disjoint from, strictly inside or strictly around every range anywhere in the tree; acceptance keeps the guarantees and adds exactly that range, re-parenting included; refusal changes nothing |
| `ContainedRanges.StoreSizedCorrect` | google-breakpad/src/processor/contained_range_map-inl.h:57-67 | The same for base and size as the caller gives them: refused for size 0 and for a range that runs past the last address |
| `ContainedRanges.RetrieveCorrect` | google-breakpad/src/processor/contained_range_map-inl.h:151-178 | The entry returned is that of the smallest stored range that contains the address, and none is returned exactly when no stored range contains it |
| `ContainedRanges.SameStoredSameAnswer` | google-breakpad/src/processor/contained_range_map-inl.h:151-178 | Two trees that store the same ranges answer every address alike, whatever their shapes |
| `ContainedRanges.RunKeepsOk` | google-breakpad/src/processor/contained_range_map-inl.h:57-147 | Every run of stores keeps the guarantees, and the tree holds exactly what it held before and the ranges of the calls it accepted |
| `ContainedRanges.AllAccepted` | google-breakpad/src/processor/contained_range_map-inl.h:57-147 | Pairwise compatible ranges are all accepted and all stored |
| `ContainedRanges.OrderIrrelevant` | google-breakpad/src/processor/contained_range_map.h:34-48 | Storing the same compatible ranges in any order accepts them all and gives the same answer at every address |
| `ContainedRangeMaps.ContainedRangeMap.StoreRange` | google-breakpad/src/processor/contained_range_map-inl.h:57-147 | The heap version, which moves child nodes between maps in place, computes the tree function above; footprints stay disjoint |
| `ContainedRangeMaps.ContainedRangeMap.RetrieveRange` | google-breakpad/src/processor/contained_range_map-inl.h:151-178 | The heap version answers as the tree function does |
| `ContainedRangeMaps.ContainedRangeMap.Clear` | google-breakpad/src/processor/contained_range_map-inl.h:182-191 | Every node below is deleted exactly once, children before parents, and the map is empty; in a tree that meets the guarantees there is one node for every stored range, at any depth |
| `ContainedRangeMaps.PostOrderIs` | google-breakpad/src/processor/contained_range_map-inl.h:182-191 | The order of deletion lists every stored range once, and none before a range inside it |
| `RangeMaps.RangeMap.StoreRange` | google-breakpad/src/processor/range_map-inl.h:50-104 | Succeeds exactly when the range is valid and disjoint from every stored range; then exactly that range is added, else nothing changes |
| `RangeMaps.RetrieveCorrect` | google-breakpad/src/processor/range_map-inl.h:108-133 | Agrees with a scan of the unordered set of ranges: the range that holds the address with its base and size, or nothing |
| `RangeMaps.NearestCorrect` | google-breakpad/src/processor/range_map-inl.h:137-164 | The containing range with its base; else the highest range wholly below the address, with its high address reported as base; nothing exactly when every range is above |
| `RangeMaps.RangeMap.RetrieveRangeAtIndex` | google-breakpad/src/processor/range_map-inl.h:168-192 | The range at a position in address order; refused outside the count |
| `RangeMaps.AddressMap.Store` | google-breakpad/src/processor/address_map-inl.h:47-59 | Succeeds exactly when the address is new, and then adds exactly it |
| `RangeMaps.PredecessorCorrect` | google-breakpad/src/processor/address_map-inl.h:62-83 | The entry with the highest address at or below the one asked for, nothing exactly when all are above |
| `SymbolLookup.Module.LookupAddress` | google-breakpad/src/processor/basic_source_line_resolver.cc:416-498 | Fills the frame with the name, base, file and line the lookup decides on, and leaves it alone when nothing names the address; stack data comes from FRAME_DATA, then FPO, then the parameter size of the symbol. In addresses of the process: an instruction inside a stored function of the module as loaded, short of the last address, gets the name of that function and its loaded base, and an instruction inside one of its lines the number and loaded base of that line |
| `SymbolLookup.FunctionPromiseExactly` | google-breakpad/src/processor/basic_source_line_resolver.cc:455-457 | "A FUNC is named exactly when a stored function contains the address" holds at an address if and only if no function ending at the last address contains it and the nearest function below does not reach it when counted from its high address |
| `SymbolLookup.CoveredNaming` | google-breakpad/src/processor/basic_source_line_resolver.cc:455-480 | A function that contains the address names it, unless it ends at the last address, where the end wraps and any PUBLIC above address 0 is used instead |
| `SymbolLookup.BelowNaming` | google-breakpad/src/processor/basic_source_line_resolver.cc:455-480 | What is named above the nearest function: that function within one size of its high address, else a PUBLIC above the sum of the two, wrapped around if need be, else nothing |
| `SymbolLookup.PublicPromiseExactly` | google-breakpad/src/processor/basic_source_line_resolver.cc:471-476 | "A PUBLIC is used exactly when no function meets the interval from it to the address" holds for the highest PUBLIC if and only if it is not missed (nearest function high < symbol <= high + size) and not misused (the sum has wrapped below the symbol, or a containing function ends at the last address) |
| `SymbolLookup.PublicIsSound` | google-breakpad/src/processor/basic_source_line_resolver.cc:471-476 | A PUBLIC that is named is the highest at or below the address, and no function comes between exactly when no sum has wrapped |
| `SymbolLookup.PublicCanBeMissed` | google-breakpad/src/processor/basic_source_line_resolver.cc:471-480 | Counterexample to the converse: a PUBLIC with no function in between is not used |
| `SymbolLookup.FunctionPastItsEnd` | google-breakpad/src/processor/basic_source_line_resolver.cc:455-457 | Counterexample: an address just past the end of a function gets its name |
| `AckProtocol.ExpandAcks` | injectedHooq/Player.cpp:406-513 | A command the client waits for yields exactly one ACK, from its last event; a drag-and-drop with all its parts yields one |
| `AckProtocol.DragPlaces` | injectedHooq/Player.cpp:422-507 | A drag-and-drop waits once and drops once, on its target; focus, press and every move up to the first after the wait go to the source, the last move and the drop to the target point; nothing between wait and drop lets other events in; the drag begins: the press is where asked, the wait is longer than the drag time and the next move further than the drag distance |
| `AckProtocol.SingleEvent` | injectedHooq/Player.cpp:515-586 | Any other command but the root element yields one event, acknowledged, for its target, of its own kind |
| `AckProtocol.StepKeepsInv` | injectedHooq/Player.cpp:186-355 | Every step of client or Player, reads inside a flush included, keeps: channels in order; events taken and queued are those of the commands read; the re-entrancy guard set exactly while the loop, a sleep or a pick is active; pending count = commands in flight + ACK-producing events queued + acknowledged sleep in progress + ACKs in flight (+ an unwritten final one) |
| `AckProtocol.RunKeepsInv` | injectedHooq/Player.cpp:140-355 | The same over every interleaving of any length |
| `AckProtocol.NeverNegative` | hooq/Interpreter.cpp:257-268 | The client count is never negative in any run |
| `AckProtocol.AckedMeansHandled` | hooq/Interpreter.cpp:286-311 | When the count is zero, all events of every command up to the last one waited for are done, in send order, none skipped or added |
| `AckProtocol.RunAckedMeansHandled` | hooq/Interpreter.cpp:286-311 | The same in every state a session can reach |
| `AckProtocol.FinishedMeansAllHandled` | injectedHooq/Player.cpp:349-354 | When the Player has finished, every command sent has been handled |
| `AckProtocol.EndAckLostExactly` | injectedHooq/Player.cpp:186-204 | The ACK for the end of the document is not written exactly when the last event taken is an unacknowledged part of a drag-and-drop whose own ACK is still queued, or nothing was ever taken and the register is false; it is lost exactly when, besides, the end was not read in a flush of a reading loop that an acknowledged sleep or pick will end |
| `AckProtocol.FateSettled` | injectedHooq/Player.cpp:186-204 | Once the end is read no run changes whether its ACK is lost, and by the time the Player has finished it shows |
| `AckProtocol.LostMeansStuck` | injectedHooq/Player.cpp:147-153 | After a lost ACK the count stays positive for ever |
| `AckProtocol.WaitingClientGetsFinalAck` | hooq/Interpreter.cpp:140-164 | A client that ends the document with count zero never loses the final ACK, however the run goes on |
| `AckProtocol.WaitingClientNeverEndsInFlush` | injectedHooq/Player.cpp:236-241 | Such a client's end of document is never read inside a flush |
| `AckProtocol.ImpatientClientCanLoseFinalAck` | injectedHooq/Player.cpp:147-204 | Counterexample: without that wait the final ACK can be lost |
| `AckProgress.WaitCanSucceedExactly` | hooq/Interpreter.cpp:286-311 | No deadlock: from every reachable state some continuation without further sends brings the count to zero, if and only if the final ACK is neither lost nor bound to be (an end sent with no event before it and the register false) |
| `Playback.TransitionIsStep` | injectedHooq/Player.cpp:186-355 | Each transition of the Player code is a step of the protocol on the whole system |
| `Playback.RunIsGuarded` | injectedHooq/Player.cpp:206-215 | Every run of transitions keeps the re-entrancy guard right |
| `Playback.RunIsWorldRun` | injectedHooq/Player.cpp:186-355 | Every run of the Player code, with what arrives written by the client, is a run of the protocol |
| `Playback.CountIsEnough` | hooq/Interpreter.cpp:257-268 | So, in every session, the client has counted every ACK on its way to it, as it asserts |
| `Playback.Player.ProcessEvents` | injectedHooq/Player.cpp:206-355 | The loop performs a run of the machine: one transition per event taken, with flush re-entries that only enqueue |
| `Playback.Player.ReadNext` | injectedHooq/Player.cpp:186-204 | Reading elements, processing after each and acknowledging an end that a flush has read meanwhile, performs a run of the machine and returns idle with the guard right |
| `Playback.Player.WaitFinished` | injectedHooq/Player.cpp:140-145 | The end of a sleep acknowledges if asked to and goes on with the queue, as a run of the machine |
| `Playback.Player.EndPick` | injectedHooq/Player.cpp:111-120 | The end of a pick goes on with the queue, as a run of the machine |
| `Playback.Interpreter.ProcessSocketData` | hooq/Interpreter.cpp:506-535 | Reads every line there is and counts down once per ACK |
| `Playback.Interpreter.WaitForAck` | hooq/Interpreter.cpp:286-311 | True exactly when the count reached zero; the count moves by the ACKs received |
| `Playback.Interpreter.WriteCommand` | hooq/Interpreter.cpp:345-351 | In any session where the server answers the wake-ups by its own steps: success of a command that waits means that all events of every waited command so far, and of those before it, have been handled, in order |
| `Md5.OptimisedFunctions` | google-breakpad/src/common/md5.c:151-154 | The optimised F1 to F4 equal F, G, H and I of section 3.4 of RFC 1321 on all words |
| `Md5.RoundOne` | google-breakpad/src/common/md5.c:174-189 | The first sixteen unrolled steps equal steps 0 to 15 of the standard's table-driven form |
| `Md5.RoundTwo` | google-breakpad/src/common/md5.c:191-206 | Steps 16 to 31 |
| `Md5.RoundThree` | google-breakpad/src/common/md5.c:208-223 | Steps 32 to 47 |
| `Md5.RoundFour` | google-breakpad/src/common/md5.c:225-240 | Steps 48 to 63 |
| `Md5.CounterIsExact` | google-breakpad/src/common/md5.c:65-68 | Two words, a carry test and a shift count 8 x length modulo 2^64 |
| `Md5.CounterGivesOdd` | google-breakpad/src/common/md5.c:70-70 | The low word of the counter gives the bytes in the partial block |
| `Md5.Context.MD5Update` | google-breakpad/src/common/md5.c:59-101 | For any input length and any partial block the context goes on to stand for the bytes fed so far plus the new ones |
| `Md5.Context.MD5Final` | google-breakpad/src/common/md5.c:107-146 | The digest is that of padding and folding all bytes fed, sections 3.1 to 3.5 of RFC 1321; the wipe clears one or two words of the chaining value, by the size of a pointer, and leaves the rest of the digest, the counter and the last block of the padded message |
| `Md5.HashChunks` | google-breakpad/src/common/md5.c:44-146 | However a message is cut into updates, the digest is the one-shot digest of the whole |
| `Md5.WordAtReads` | google-breakpad/src/common/md5.c:86-95 | The words of a block are read low-order byte first: the four bytes a word is written as are the four it was read from |
| `Md5.InitialCounts` | google-breakpad/src/common/md5.c:44-49 | The initial value is the byte string 01 23 .. ef fe .. 10 of section 3.3 of RFC 1321 |
| `Registers.RotateLeftIs` | google-breakpad/src/common/md5.c:157-158 | Rotating left by s multiplies by 2 to the s and adds what overflows |
| `Registers.PlusIs` | google-breakpad/src/common/md5.c:157-158 | A sum of registers is the sum of the numbers, less 2 to the 32 when it overflows |
| `Conversion.StopsOnBoundary` | google-breakpad/src/common/convert_UTF.c:212-277 | With any target size a converter stops on a character boundary having written exactly the conversion of what it consumed |
| `Conversion.ExhaustedExactly` | google-breakpad/src/common/convert_UTF.c:261-264 | The target is exhausted exactly when the whole output does not fit |
| `Conversion.PiecesEqualWhole` | google-breakpad/src/common/convert_UTF.c:333-401 | Stopping and resuming with fresh buffers that each hold a character gives the output and result of one large call |
| `Utf.LegalExactly` | google-breakpad/src/common/convert_UTF.c:292-315 | isLegalUTF8 accepts exactly the well-formed characters of section 4 of RFC 3629 and, after 0xED and 0xF4 only, a second byte that is too low |
| `Utf.LegalDecodesToScalar` | google-breakpad/src/common/convert_UTF.c:333-362 | Every legal sequence, loose ones included, decodes to a scalar value |
| `Utf.FlagMakesNoDifference` | google-breakpad/src/common/convert_UTF.c:362-396 | So strict and lenient UTF-8 decoding agree everywhere: the value checks are never reached |
| `Utf.Utf16RoundTrips` | google-breakpad/src/common/convert_UTF.c:212-277 | Strict conversion succeeds exactly on well-formed UTF-16; it then yields well-formed UTF-8 of at most three bytes a unit, and converting back gives the text again |
| `Utf.Utf8RoundTripsExactly` | google-breakpad/src/common/convert_UTF.c:333-401 | Every well-formed UTF-8 text is accepted; an accepted text comes back the same from UTF-16 exactly when it was well-formed |
| `Utf.LooseUtf8Accepted` | google-breakpad/src/common/convert_UTF.c:300-308 | Counterexample family: every sequence with a loose second byte is accepted though not well-formed |
| `Utf.Utf8AcceptedExactly` | google-breakpad/src/common/convert_UTF.c:333-401 | A whole text is accepted exactly when it is a concatenation of characters that are well-formed or have a loose second byte |
| `Utf.Utf16StopsExactly` | google-breakpad/src/common/convert_UTF.c:218-244 | What is converted is well-formed; what is left is called exhausted exactly when it is a lone high surrogate, illegal exactly when it starts with a low one or with a high one that another unit follows |
| `Utf.Utf8StopsExactly` | google-breakpad/src/common/convert_UTF.c:337-352 | What is converted consists of accepted characters; what is left is called exhausted exactly when it is shorter than its first byte asks for, illegal exactly when it is not and no accepted character starts it |
| `Utf.LeadBits` | google-breakpad/src/common/convert_UTF.c:172-181 | The table of trailing bytes counts the leading 1 bits of the first byte |
| `UtfConverters.ConvertUTF16toUTF8` | google-breakpad/src/common/convert_UTF.c:212-277 | The array-writing loop gives the result, position and bytes of the conversion and touches nothing else |
| `UtfConverters.ConvertUTF8toUTF16` | google-breakpad/src/common/convert_UTF.c:333-401 | Likewise in the other direction |
| `UtfConverters.UTF16ToUTF8` | google-breakpad/src/common/string_conversion.cc:120-153 | For any units, swapped or not, and whatever the new target holds: the string up to the first NUL of the target after the conversion, none if there is none, empty if the units are not well-formed; the target of four bytes a unit always suffices |
| `UtfConverters.WholeTextExactly` | google-breakpad/src/common/string_conversion.cc:136-150 | The whole text comes back if and only if it is not empty, holds no NUL, and the uninitialised byte after it happened to be NUL |
| `UtfConverters.SwappedTwice` | google-breakpad/src/common/string_conversion.cc:116-133 | Swapping the bytes of every unit twice gives the text again |
| `UtfConverters.UTF8ToUTF16Char` | google-breakpad/src/common/string_conversion.cc:57-82 | Widening the window finds the first character and its length, or 0 if it is not legal or not within the input |
| `LinkedPointers.Pool.Join` | google-breakpad/src/processor/linked_ptr.h:73-78 | The walk around the circle ends, and the pointer is linked in as one more member |
| `LinkedPointers.Pool.Depart` | google-breakpad/src/processor/linked_ptr.h:82-88 | The walk ends, the others stay a circle, and true is returned exactly for the last member |
| `LinkedPointers.Pool.Capture` | google-breakpad/src/processor/linked_ptr.h:159-162 | The new pointer holds the object, alone in its circle; nothing is deleted |
| `LinkedPointers.Pool.Copy` | google-breakpad/src/processor/linked_ptr.h:164-170 | The new pointer holds what the other holds; all circles stay right; no other pointer changes its object |
| `LinkedPointers.Pool.Assign` | google-breakpad/src/processor/linked_ptr.h:115-121 | Self-assignment does nothing; else the old object is deleted exactly if this was its last pointer, and the new one is shared |
| `LinkedPointers.Pool.Reset` | google-breakpad/src/processor/linked_ptr.h:124-124 | The old object is deleted exactly if this was its last pointer, and the new one is captured |
| `LinkedPointers.Pool.Destroy` | google-breakpad/src/processor/linked_ptr.h:102-102 | The object is deleted exactly if no other live pointer holds it |
| `LinkedPointers.Pool.DeletedExactlyOnce` | google-breakpad/src/processor/linked_ptr.h:155-157 | In every reachable state a captured object has been deleted once if no live pointer holds it, and not at all otherwise |
| `LinkedPointers.Pool.SameCircleExactly` | google-breakpad/src/processor/linked_ptr.h:65-92 | Following the links from one live pointer meets another exactly when both hold the same object |
| `LinkedPointers.Pool.WalkReturns` | google-breakpad/src/processor/linked_ptr.h:73-88 | From every live pointer the links come back to it, through live pointers only |
| `VariableNames.UnusedIsLeast` | hooq/XmlToQtScript_ObjectVariablesPostProcessor.cpp:54-63 | The numbered search always finds a free name, and the least one |
| `VariableNames.ChooseName` | hooq/XmlToQtScript_ObjectVariablesPostProcessor.cpp:45-64 | The search loop terminates with the specified name |
| `VariableNames.ChooseIsNew` | hooq/XmlToQtScript_ObjectVariablesPostProcessor.cpp:43-64 | The name is not in use and is one word of letters, numbers and underscores |
| `ObjectPass.NamingInjective` | hooq/XmlToQtScript_ObjectVariablesPostProcessor.cpp:43-65 | Over a whole pass different paths have different names, and every target has one |
| `ObjectPass.ObjectPassKeepsMeaningExactly` | hooq/XmlToQtScript_ObjectVariablesPostProcessor.cpp:30-72 | For every recorded list and any positions in the inserter: the script does what the items ask for if and only if every name given is an identifier of section 7.6 of ECMA-262 and every string printed can be read back; otherwise it is a syntax error and does nothing. Against the script compiled without the pass, only the names matter. Every variable is declared once and before its first use |
| `ObjectPass.NumberedName` | hooq/XmlToQtScript_ObjectVariablesPostProcessor.cpp:74-89 | Counterexample: a button called 2nd |
| `ObjectPass.SeparatedName` | hooq/XmlToQtScript.cpp:265-274 | Counterexample: a button with U+2028 in its name |
| `ObjectPass.ObjectPassKeepsCalls` | hooq/XmlToQtScript_ObjectVariablesPostProcessor.cpp:30-72 | Names aside, the calls made are unchanged and the variables declared are those of the naming |
| `ScriptMeaning.InsertDeclaration` | hooq/XmlToQtScript_Item_Inserter.cpp:35-53 | A declaration of a new name inserted at any position changes no call, and keeps scoping |
| `ScriptMeaning.ScopedMeans` | hooq/XmlToQtScript_ObjectVariablesPostProcessor.cpp:66-71 | Scoping means: each use has exactly one declaration in the whole list, and it comes before |
| `StringPass.StringPassIs` | hooq/XmlToQtScript_StringVariablesPostProcessor.cpp:30-51 | The list built is all constants at the top, in order of first use, then the input with each text by name, wherever the inserter's index is |
| `StringPass.HoistedParses` | hooq/XmlToQtScript_StringVariablesPostProcessor.cpp:30-51 | The new list is in the grammar exactly when the old one is |
| `StringPass.StringPassKeepsMeaningExactly` | hooq/XmlToQtScript_StringVariablesPostProcessor.cpp:30-51 | A script in the grammar does the same if and only if no object variable declared before a text has its constant's name; scoping holds exactly when the names are disjoint |
| `StringPass.StringPassOnRecorded` | hooq/XmlToQtScript_StringVariablesPostProcessor.cpp:30-51 | Without object variables the pass changes nothing a script does, whatever the texts, and scoping holds |
| `StringPass.BothPassesKeepMeaningExactly` | hooq/XmlToQtScript.cpp:192-216 | Both passes in a row: the script does what the items ask for if and only if every name given is an identifier, every string printed can be read back and no text is shadowed in the list the first makes |
| `NameClash.AheadStep` | hooq/XmlToQtScript_Item_Inserter.cpp:28-59 | With the inserter at or past the end, a declaration lands right before its item, and the inserter stays there |
| `NameClash.BehindStep` | hooq/XmlToQtScript_Item_Inserter.cpp:28-59 | With the inserter one behind, as in the first pass, it lands before the item before that, and the inserter stays one behind |
| `NameClash.ClashFreeExactly` | hooq/XmlToQtScript_Item_Inserter.cpp:28-59 | The list of the object pass is free of clashes exactly when the recorded script is, for both positions of the inserter |
| `NameClash.VariablesKeepMeaningExactly` | hooq/XmlToQtScript.cpp:192-216 | The exact condition for both passes on the recorded script alone, for both positions of the inserter: names are identifiers, strings can be read back, and no object first mentioned by then has the name of a text's constant |
| `NameClash.ClashingName` | hooq/XmlToQtScript.cpp:192-216 | Counterexample: text sent to an object named string0 |
| `Literals.EscapeReadsBack` | hooq/XmlToQtScript.cpp:360-368 | An escaped text read back as a literal of section 7.8.4 of ECMA-262 is the text itself if and only if it has no U+2028 or U+2029 |
| `Printing.RawReadsBack` | hooq/XmlToQtScript.cpp:248-259 | A path printed unescaped between quotes reads back as itself if and only if it has no quote, no backslash and no line terminator |
| `MovePass.GatherTakesRun` | hooq/XmlToQtScript_SimplifyMouseMovementsPostProcessor.cpp:44-66 | The gathering loop takes exactly the longest run of moves on one target, the last parameters and the total time |
| `MovePass.MovePassExactly` | hooq/XmlToQtScript_SimplifyMouseMovementsPostProcessor.cpp:32-86 | For every alternating log and both positions of the inserter: sleeps aside, the output is the events in order with every longest run of moves on one target made one, if and only if the log does not end in a move; otherwise its last move is repeated |
| `MovePass.OneMoveIs` | hooq/XmlToQtScript_SimplifyMouseMovementsPostProcessor.cpp:67-85 | The single move has the point of the first move as origin, that of the last as destination, the time of the run, and the other parameters of the last |
| `MovePass.MomentsAreEvents` | hooq/XmlToQtScript.cpp:355-358 | The moments the reference works on are the log's events in order |
| `MoveTime.TimeExactly` | hooq/XmlToQtScript_SimplifyMouseMovementsPostProcessor.cpp:43-77 | For every recorded log, wherever the inserter stands: played back, the new list waits as long as the log plus, over the longest runs of moves, what the replay of the run waits, less the time of the run, plus the pause after it; time is kept if and only if that sum is 0 |
| `MoveTime.TimeGained` | hooq/RemoteObjectPrototype.cpp:133-153 | Counterexample: from 0 to 10 with pauses of 10 and 5, the 15 become 16 |
| `MoveTime.TimeLost` | hooq/RemoteObjectPrototype.cpp:127-130 | Counterexample: a run of 20 that ends where it began takes nothing |
| `Passes.ObjectVariablesPostProcessor.Process` | hooq/XmlToQtScript_ObjectVariablesPostProcessor.cpp:30-72 | One item, in place, as the step function of the pass |
| `Passes.StringVariablesPostProcessor.Process` | hooq/XmlToQtScript_StringVariablesPostProcessor.cpp:30-51 | One item, in place, as the step function of the pass |
| `Passes.SimplifyMouseMovementsPostProcessor.Process` | hooq/XmlToQtScript_SimplifyMouseMovementsPostProcessor.cpp:32-86 | The loop that consumes the input, as the step function of the pass |
| `EventPasses.KeysKeepOthers` | hooq/XmlToQtScript_SimplifyStringsPostProcessor.cpp:34-110 | The pass that turns keys into texts leaves everything but keys, texts and sleeps as it is and in order, wherever the inserter stands |
| `EventPasses.KeysBecomeText` | hooq/XmlToQtScript_SimplifyStringsPostProcessor.cpp:34-110 | A run of keys of one target, starting with a press, ending with a release and without modifiers but Shift, becomes one text in its place: what the keys write, Backspace taking back the character before it; nothing is sent if they write nothing |
| `EventPasses.PressStaysExactly` | hooq/XmlToQtScript_SimplifyStringsPostProcessor.cpp:44-64 | A press is left as it is exactly when it has another modifier or no key of its target follows its pause |
| `EventPasses.StripPassIs` | hooq/XmlToQtScript_MouseMovePostProcessor.cpp:26-43 | For every recorded log, the pass that strips moves leaves the log without its moves and the sleeps right behind them, in order |
| `ItemStrings.RunPass` | hooq/XmlToQtScript.cpp:203-215 | The driver loop performs one whole pass, then resets the inserter |
| `ItemStrings.ItemString` | hooq/XmlToQtScript.cpp:168-216 | All six passes that are switched on, in order, on one shared output list |
| `CompiledScript.CompiledMeansExactly` | hooq/XmlToQtScript.cpp:168-216 | From recorded log to last pass, with any options before the variables: the compiled script does what the simplified log asks for if and only if names are identifiers, no text is shadowed and every string printed can be read back |
| `CompiledScript.LogMeansExactly` | hooq/XmlToQtScript.cpp:168-216 | With mouse movements simplified before the variables and under that condition, the compiled script does, sleeps aside, what the recorded events ask for with every longest run of moves on one target made one, and the last move once more if the log ends in one |
| `CompiledScript.SkippedMovesGone` | hooq/XmlToQtScript.cpp:180-183 | With mouse movements skipped no move is left in the script, whatever the log and the other options |
| `PostfixPrograms.ExpressionPushes` | google-breakpad/src/processor/postfix_evaluator-inl.h:75-195 | The postfix form of an expression pushes one token that stands for its value, or stops the machine where the value is missing or a divisor is zero |
| `PostfixPrograms.EvaluateIsExact` | google-breakpad/src/processor/postfix_evaluator-inl.h:67-202 | For every sequence of assignments and every text whose words are its postfix form: same dictionary, same marks, same outcome (success, failure, division by zero) as direct evaluation modulo 2^32, with an empty stack |
| `PostfixPrograms.ProgramText` | google-breakpad/src/processor/postfix_evaluator-inl.h:72-75 | Such a text exists for every program |
| `PostfixPrograms.OnlyVariablesChange` | google-breakpad/src/processor/postfix_evaluator-inl.h:160-187 | Whatever the text, only names starting with $ change, and exactly the assigned ones are marked |
| `PostfixMachine.PostfixEvaluator.PopValue` | google-breakpad/src/processor/postfix_evaluator-inl.h:205-262 | The top of the stack as literal, else through the dictionary; refused when empty or undefined |
| `PostfixMachine.ReadLiteralSigned` | google-breakpad/src/processor/postfix_evaluator-inl.h:220-232 | A value pushed as text reads back as the same value; a plus sign before it changes nothing, a minus sign gives what adds up to 0 with it |
| `PostfixMachine.SumIs` | google-breakpad/src/processor/postfix_evaluator-inl.h:112-117 | A sum overflows at most once, and adding undoes subtracting, operands in the order they were pushed |
| `PostfixMachine.ProductIs` | google-breakpad/src/processor/postfix_evaluator-inl.h:118-120 | A product is off by a multiple of 2 to the 32 |
| `PostfixMachine.QuotientIs` | google-breakpad/src/processor/postfix_evaluator-inl.h:121-126 | Quotient and remainder belong together, and only division by 0 traps |
| `PostfixMachine.TokensSplit` | google-breakpad/src/processor/postfix_evaluator-inl.h:72-75 | Any of the six spaces separates words |
| `PostfixMachine.OneToken` | google-breakpad/src/processor/postfix_evaluator-inl.h:72-75 | and nothing else does |
| `PostfixMachine.PostfixEvaluator.Evaluate` | google-breakpad/src/processor/postfix_evaluator-inl.h:67-202 | The token loop computes the machine function and always leaves the stack empty |
| `ObjectNames.RawObjectName` | common/ObjectHookName.cpp:35-73 | The sibling-counting loop gives the name, or class and place among the siblings of the class |
| `ObjectNames.ObjectPath` | common/ObjectHookName.cpp:75-85 | The parent walk joins the names from the outermost ancestor down |
| `ObjectNames.FindObject` | injectedHooq/Player.cpp:673-713 | Splitting, taking the last part and joining again at every level follows the split names one by one |
| `ObjectNames.PathFindsExactly` | injectedHooq/Player.cpp:673-713 | The path of an object leads back to it if and only if the names on the way can be told apart after joining and each is the first of its name where it is looked for |
| `ObjectNames.SeparableExactly` | common/ObjectHookName.cpp:28-33 | They can be told apart exactly when no name has three colons in a row and none but the last ends in a colon |
| `ObjectNames.GivenNamesFound` | injectedHooq/Player.cpp:673-713 | With names unique as the application gives them and without the text :_:, every object under a top-level widget is found again exactly when no name on the way has three colons in a row and none but the last ends in one |
| `ObjectNames.UniqueNamesFound` | injectedHooq/Player.cpp:673-713 | The same for names that are unique after the replacement |
| `ObjectNames.UnnamedSiblingsDiffer` | common/ObjectHookName.cpp:28-72 | Unnamed siblings get different names if a class name stands for one meta object, and keep different ones after the replacement if no class name holds its text |
| `Paths.EscapeNameInjective` | common/ObjectHookName.cpp:31-31 | Names without :_: that are different stay different |
| `Paths.EscapeNameCollidesExactly` | common/ObjectHookName.cpp:31-31 | Another name has the same outcome if and only if the name has a separator that no colon follows, or the replacement text with neither of its colons part of a separator |
| `Paths.SplitJoinExactly` | injectedHooq/Player.cpp:675-676 | Splitting undoes joining exactly for parts without a separator of which none but the last ends in a colon |
| `Paths.EscapeNameExactly` | common/ObjectHookName.cpp:31-31 | A separator survives the replacement exactly in a run of three or more colons |
| `MouseReplay.MoveMouse` | hooq/RemoteObjectPrototype.cpp:99-155 | The loop raises exactly the moves and waits of the specification |
| `MouseReplay.ReplayCounted` | hooq/RemoteObjectPrototype.cpp:99-155 | In the parameters of the move, dx and dy its extent: abs(dx) + abs(dy) + 1 moves, each within half a pixel of the straight line on each axis and with the other parameters, and after each a wait of the duration divided by abs(dx) + abs(dy), rounded towards zero; nothing at all if both are 0 |
| `MouseReplay.ReplayWalks` | hooq/RemoteObjectPrototype.cpp:133-153 | Starts at the origin, ends at the destination, moves at most one pixel per axis and step and never back |
| `MouseReplay.ReplayTime` | hooq/RemoteObjectPrototype.cpp:133-152 | Waits add up to at most duration + duration / length, and to more than that minus length |
| `MouseReplay.CollapsedReplays` | hooq/RemoteObjectPrototype.cpp:99-155 | A collapsed run played back: as many moves as the points are pixels apart on both axes together, and one, from its first point to exactly its last recorded move, or nothing if they coincide |
| `MouseReplay.QRoundIsNearest` | hooq/RemoteObjectPrototype.cpp:148-148 | Rounding by cases is rounding half up |
| `MinidumpWriter.MinidumpFileWriter.Allocate` | google-breakpad/src/client/minidump_file_writer.cc:204-228 | Fails exactly when the file must grow and cannot; else the chunk lies at the old position, at a multiple of 8, inside the file and after all others; nothing already written changes |
| `MinidumpWriter.MinidumpFileWriter.Copy` | google-breakpad/src/client/minidump_file_writer.cc:230-252 | Writes exactly the given bytes at the position, or nothing if they do not fit in the file |
| `MinidumpWriter.ChunksApart` | google-breakpad/src/client/minidump_file_writer.cc:204-228 | Chunks never overlap |
| `MinidumpWriter.OthersKept` | google-breakpad/src/client/minidump_file_writer.cc:230-252 | A write inside one chunk leaves the bytes of all others alone |
| `MinidumpWriter.ElementInside` | google-breakpad/src/client/minidump_file_writer-inl.h:71-85 | Elements follow the object without gaps to the end of the chunk, so an indexed write stays inside exactly when the index is below the count allocated |
| `MinidumpWriter.TypedMDRVA.CopyIndex` | google-breakpad/src/client/minidump_file_writer-inl.h:71-76 | The element is written at its place, and no other chunk changes |
| `MinidumpWriter.TypedMDRVA.CopyIndexAfterObject` | google-breakpad/src/client/minidump_file_writer-inl.h:78-85 | The element is written after the object, and no other chunk changes |
| `MinidumpWriter.TypedMDRVA.Destroy` | google-breakpad/src/client/minidump_file_writer.h:192-196 | The object is written unless it is an array; an allocated one stays in its chunk; one never allocated lands on the first chunk allocated since it was made if there is one and the file has room, else touches no chunk |
| `MinidumpWriter.UnallocatedFlush` | google-breakpad/src/client/minidump_file_writer.cc:230-252 | Some object of its size changes the bytes of a chunk if and only if anything was allocated since it was made and the object fits in the file |

## Left out

- AckProtocol.Command: carries paths, the points of a drag-and-drop and the time of a wait, not keys, buttons or other coordinates; what a delivered event does to a widget, and the mapping of points to the screen, are not modelled.
- AckProtocol.Init: the initial value of the acknowledgement register is a parameter, since the code gives it none.
- Playback.Player.ReadNext: that resetting the device of the stream reader also resets its token is taken from the documentation of Qt, whose code is not part of this model.
- LinkedPointers.Pool.Capture: each object is captured at most once, as the code asks; `release` is not modelled.
- MinidumpWriter.MinidumpFileWriter.Allocate: the layout is guaranteed as long as the 32-bit position does not wrap; 64-bit sizes are taken as unbounded. Elements of varying size within one string are not modelled.
- MovePass.MovePassExactly: durations are unbounded integers; 32-bit overflow of their sum is not modelled.
- MouseReplay.ReplayWalks: positions are computed in exact arithmetic, not in floating point.
- Passes.First: taking from an empty list, which the code does not guard against in logs that end in a sleep or a lone key, yields no item.
- Passes.SimplifyMouseMovementsPostProcessor.Process: a parameter that is text is not read as a number; recorded coordinates and times are numbers.
- EventPasses.KeysKeepOthers: the text keys become is stated run by run (`EventPasses.KeysBecomeText`), not for whole logs; a leading Backspace is dropped, and runs that mix targets or end in a press are left to the refinement of the pass.
- ScriptMeaning.Calls: whether a generated name hides a global of the script engine is not modelled, nor are numeric and Unicode escapes in literals.
- UtfConverters.WriteCharacter: the shifts and masks of the code are written as the arithmetic they amount to.
- ConvertUTF32toUTF16, ConvertUTF16toUTF32, ConvertUTF32toUTF8, ConvertUTF8toUTF32: the same loops with a wider unit.
- The big-endian build of MD5 (`byteReverse`).
- Printing.Printable: which strings can be read back is modelled, not the text of other parameters and statements; the names of enumerations are taken to print well. Place markers follow the documentation of Qt, whose code is not part of this model.
- The outer PLAY and DIE loop of `injectedHooq/Marshall.cpp` beyond one session: only the DIE that ends a session is in the protocol.
- Reading and writing XML, sockets, process injection, the user interface, test set files, and the minidump processor other than the classes named above.
