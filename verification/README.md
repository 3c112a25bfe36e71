# MojoZork and friends: a verified model

This project models the parts of the repository that carry real invariants and proves what they are
for. `dafny verify dfyconfig.toml` checks all of it.

* **The version 3 Z-Machine interpreter** (`native/C/z-machine/mojozork.c`), a virtual machine over a
  story file of bytes and one flat stack of 2048 words.
  * `ZState`, `CallStack`, `Instruction` give one instruction as a function on machine states
    (`Instruction.Step`), with a stopped state for `quit`, for `die`, and for accesses the program
    gives no meaning. `Interpreter.Machine` is the interpreter itself: a class whose registers, stack
    and story are updated in place, each method proved to do to the machine what the function does to
    its state, up to `RunInstruction` and the main loop.
  * `CallStack` and `Runs`: the flat stack with its linked frame headers stands for a list of frames,
    and loses nothing of it. Over every run (any story, any input) the chain of frames stays intact,
    older frames are never touched, and a return puts the caller back exactly where it was.
  * `SaveRestore`: a restore undoes any run since the save.
  * `Forest`, `Objects` and `ForestRuns`: the parent, sibling and child bytes of the object table refine
    an ordered forest; every sequence of `insert_obj` and `remove_obj` does to the bytes what it does to
    the forest, and over whole runs of the machine nothing else touches it.
  * `Properties`: the variable-length tables refine a map from property numbers to values.
  * `Text` and `Decoder`: the meaning of an encoded string is a recursive function on its
    z-characters (sections 3.2 to 3.4 of the Z-Machine Standards Document 1.1); the bit-unpacking
    decoder with its shift, abbreviation and escape registers computes it, whatever the capacity of
    its buffer.
  * `Dictionary` and `Tokenizer`: packing a word into a dictionary key, and splitting a line into
    words that are looked up and recorded in the parse buffer.
* **The pi spigot** (`native/C/pi.c`), module `Pi`: conservation of the number the mixed-radix array
  stands for, the digit identity for any number of rounds, and the overflow bounds.
* **The rasterisers** (`src/fb.c`), module `Raster`: how far the pixels of a circle and a line are from
  the true ones, that both are unbroken, and for which shapes no value leaves its width.
* **The banked memory** (`src/mem.c`), module `BankedMemory`: one allocation refines a map from bank and
  address to byte, over every run of stores, page switches and library calls.

The machine's addresses are offsets into the story. Stack words used as variables hold big-endian
bytes; the words of a frame header are native words of a little-endian host, so the two kinds differ
by `Bytes.Swap`. What comes from outside (the random number, the typed line, how writing the save file
went) is the parameter `Env` of a step.

Where the code does not do what one would expect, the model follows the code and the exact condition
is proved: `InsertKeepsAcyclicIff` (the interpreter lets an object be moved into itself),
`RoundTripExactlyForLetters` (the encoder shifts to alphabet A2 with 3, the decoder with 5),
`OverrunsExactly` (the encoder writes past its array when a character of two z-characters comes as the
twelfth), `NextPropOfMissing` and `PutPropOfMissing` (a missing property makes the interpreter die),
`PropertyFound` (property 0 is always found, at the byte that ends the table), `ShiftFits` (a line that
rises too far overflows its fixed-point slope), `ReadsBackUnlessAtTop` and `BaseNamesCellRead` (above
0xF000 reads come from bank 0 while most writes and all pointers go to the bank shown). `jin` on object 0
goes on without reading its branch, and `inc`, `dec`, `load` and `store` push or pop when they name
variable 0, unlike section 6.3.4 of the Standard; both are in `Step` as the code has them.

## Model

| member | source | states |
|---|---|---|
| `CallStack.WriteVarAssignsTop` | native/C/z-machine/mojozork.c:161-196 | writing a variable succeeds exactly when there is room to push, the running routine has that local, or the global lies in the story; it then pushes onto, or sets one local of, the newest frame, or puts the value big-endian into the story, and changes nothing else of the machine |
| `CallStack.WriteThenRead` | native/C/z-machine/mojozork.c:161-196 | reading a variable gives what was written to it, for variable 0 by the pop that undoes the push |
| `CallStack.ReadVarOfTop` | native/C/z-machine/mojozork.c:161-196 | reading a variable gives the local, or pops the last evaluation word; of the frames only a pop changes anything |
| `CallStack.SameFrameKeepsOlderFrames` | native/C/z-machine/mojozork.c:161-196 | whatever leaves the cells below the running routine's locals alone keeps the chain intact and every older frame, and the newest one's return information, as they were |
| `CallStack.EnterPushesFrame` | native/C/z-machine/mojozork.c:199-262 | entering a routine adds exactly one frame, resuming after the store byte, with an empty evaluation stack; all older frames stay |
| `CallStack.EnteredLocals` | native/C/z-machine/mojozork.c:236-257 | after entering a routine each of its locals on the stack is the call's argument when it passed one, and otherwise the initial value in the routine's header; the stack ends with the locals |
| `CallStack.LeavePopsFrame` | native/C/z-machine/mojozork.c:264-291 | dropping the frame header gives back the caller's frames and its next instruction |
| `CallStack.ReturnPopsFrame` | native/C/z-machine/mojozork.c:264-291 | a return removes the newest frame, resumes at its return address and assigns the result to the variable it names, in the caller's frame or in the story, and changes nothing else of the machine |
| `Runs.FramesInjective` | native/C/z-machine/mojozork.c:219-257 | the list of frames determines sp, bp and every used cell of the flat stack, headers included |
| `Runs.InstructionOnFrames` | native/C/z-machine/mojozork.c:1654-1730 | every instruction but restore changes the newest frame only, or adds one frame, or removes the newest and assigns one variable of its caller |
| `Runs.RunsStayWellFormed` | native/C/z-machine/mojozork.c:178-291 | in every state a run without restore reaches, each frame header is intact, has at most 15 locals inside the used stack and a smaller saved bp, and following saved bps ends at 0 |
| `Runs.OlderFramesUntouched` | native/C/z-machine/mojozork.c:161-291 | while a run keeps more than d frames, it never changes the d oldest ones, nor the return address and store byte of the one above them |
| `Runs.OlderCellsUntouched` | native/C/z-machine/mojozork.c:161-291 | the same for the flat stack: no cell below that frame's header changes |
| `Runs.CallEnters` | native/C/z-machine/mojozork.c:199-262 | one step on a call instruction, unless it names routine 0, is entering that routine; before it only the caller's newest frame can have changed, by operands popped from its evaluation stack |
| `Runs.FewerFramesReturn` | native/C/z-machine/mojozork.c:264-381 | an instruction that leaves fewer frames than it found returns from the newest one, with the operand of a return instruction or with 0 or 1 of a branch |
| `Runs.CallThenReturn` | native/C/z-machine/mojozork.c:199-291 | from a call to its matching return, through any nesting of calls, returns, pushes and writes: pc and bp are the caller's again, its stack differs only in the variable the call named, which has exactly the value returned, and story, header, operands, output and save file are as the return found them but for that variable when it is a global |
| `SaveRestore.StepKeepsFile` | native/C/z-machine/mojozork.c:1501-1517 | no instruction but save writes the save file |
| `SaveRestore.SaveThenRestore` | native/C/z-machine/mojozork.c:1501-1550 | after a successful save, any run that saves nothing else and leaves static memory alone, then a restore: story, stack, pc, sp and bp are those just after the save's own branch |
| `Objects.FindLinkFinds` | native/C/z-machine/mojozork.c:638-664 | on a chain the walk stops at the link that names the object after as many steps as siblings precede it, and never asks for object 0 |
| `Objects.UnparentUnlinks` | native/C/z-machine/mojozork.c:652-664 | on every well-formed forest unlinking ends without dying and redirects the one link that led to the object |
| `Objects.InsertMoves` | native/C/z-machine/mojozork.c:666-687 | insert_obj takes the object out of its old parent's child list and puts it at the head of the destination's; all other lists and their order stay, and the lists are again duplicate-free and list exactly the objects whose parent byte points there |
| `Objects.RemoveDetaches` | native/C/z-machine/mojozork.c:689-704 | remove_obj only takes the object out of its parent's list, and the forest is again well-formed |
| `Objects.MovesTouchLinks` | native/C/z-machine/mojozork.c:652-704 | both write parent, sibling and child bytes of object records and no other byte |
| `Objects.InsertKeepsAcyclicIff` | native/C/z-machine/mojozork.c:666-687 | after insert_obj the parent relation is acyclic exactly when the destination is not in the moved object's subtree |
| `Objects.RemoveKeepsAcyclic` | native/C/z-machine/mojozork.c:689-704 | remove_obj keeps the parent relation acyclic |
| `Objects.HungNeverEnds` | native/C/z-machine/mojozork.c:659-661 | a walk along siblings that has taken as many steps as the story has bytes without ending never ends, whatever the object table holds |
| `Objects.RunMovesRefinesForest` | native/C/z-machine/mojozork.c:652-704 | over every run of insert_obj and remove_obj the records link the forest the same moves make of the child lists, and only link bytes change |
| `ForestRuns.StepQuiet` | native/C/z-machine/mojozork.c:1654-1730 | every instruction but the two moves and restore changes no link byte, as long as globals, storew, storeb and the buffers of read lie elsewhere, attributes are below 32 and put_prop works on well-formed tables |
| `ForestRuns.RunKeepsForest` | native/C/z-machine/mojozork.c:652-704 | over every such run of the whole machine, whatever else it does, the records link the forest that the run's insert_obj and remove_obj instructions make of the child lists |
| `Forest.DetachedForest` | native/C/z-machine/mojozork.c:652-664 | splicing an object out of a forest's links removes it from its parent's list and keeps every other list |
| `Forest.AttachedForest` | native/C/z-machine/mojozork.c:676-686 | linking a parentless object as first child puts it at the head of that list and keeps every other list |
| `Forest.MoveKeepsAcyclicIff` | native/C/z-machine/mojozork.c:666-687 | redirecting one parent keeps an acyclic relation acyclic exactly when the new parent is not below the node |
| `Properties.EntriesOrdered` | native/C/z-machine/mojozork.c:708-744 | the entries of a table descend strictly and their data areas follow one another without overlap |
| `Properties.FindPropFinds` | native/C/z-machine/mojozork.c:708-744 | the walk ends and finds a property exactly when the table lists it, at its address and with its size; property 0 is found at the end of the table |
| `Properties.PropertyFound` | native/C/z-machine/mojozork.c:708-744 | the same from an object's record on, past its short name |
| `Properties.NextPropOfMissing` | native/C/z-machine/mojozork.c:851-868 | get_next_prop makes the interpreter die exactly on properties the object does not have |
| `Properties.EnumerationListsTable` | native/C/z-machine/mojozork.c:851-868 | iterating get_next_prop from 0 gives every property once, in descending order, and then 0 |
| `Properties.GetPropOfListed` | native/C/z-machine/mojozork.c:798-817 | get_prop of a listed property gives its byte, or its first two bytes |
| `Properties.GetPropOfMissing` | native/C/z-machine/mojozork.c:783-817 | get_prop of a property the object does not have gives the default |
| `Properties.GetPropOfZero` | native/C/z-machine/mojozork.c:708-817 | get_prop of property 0 reads what follows the byte that ends the table, as much as that byte says |
| `Properties.AddrThenLen` | native/C/z-machine/mojozork.c:819-849 | get_prop_addr gives the address of a listed property's data and get_prop_len of that address its size |
| `Properties.AddrOfMissing` | native/C/z-machine/mojozork.c:819-849 | both give 0 for a property the object does not have |
| `Properties.AddrOfZero` | native/C/z-machine/mojozork.c:819-849 | for property 0 they give the byte after the table's end and the size in the byte that ends it |
| `Properties.PutPropOfMissing` | native/C/z-machine/mojozork.c:765-781 | put_prop makes the interpreter die exactly when the property is neither 0 nor listed |
| `Properties.PutPropOfZero` | native/C/z-machine/mojozork.c:765-781 | put_prop of property 0 overwrites the one or two bytes after the table's end |
| `Properties.PutPropWrites` | native/C/z-machine/mojozork.c:765-781 | put_prop of a listed property stores into its data, the low byte or both, and nowhere else |
| `Properties.StoreKeepsTables` | native/C/z-machine/mojozork.c:765-781 | put_prop keeps every object's table, entry for entry |
| `Properties.PutThenGet` | native/C/z-machine/mojozork.c:765-817 | after put_prop of a listed property, get_prop of it gives the value (its low byte when the size is 1), and every object's table is well-formed with the same entries |
| `Properties.PutThenGetOther` | native/C/z-machine/mojozork.c:765-817 | every other property of every object, defaults included, reads as before; property 0 reads what now follows the table's end |
| `Decoder.NextMeaning` | native/C/z-machine/mojozork.c:966-1052 | one z-character moves the shift, abbreviation and escape registers exactly as the recursive meaning of the remaining string demands |
| `Decoder.WrittenPrefix` | native/C/z-machine/mojozork.c:1002-1010 | writing with a capacity writes exactly the leading characters that fit and nothing else |
| `Decoder.DecodeZscii` | native/C/z-machine/mojozork.c:946-1073 | for every terminated string and every capacity c the decoder dies exactly when the string's meaning does, reports the full length of the meaning and the bytes of the string, and writes exactly the first min(c, n) characters, nested abbreviations included |
| `Decoder.PrintZscii` | native/C/z-machine/mojozork.c:1075-1095 | the text printed is the whole meaning whether or not it needs its second pass |
| `Decoder.ReadZChar` | native/C/z-machine/mojozork.c:1012-1052 | the decoder's case analysis is the register machine's step |
| `Decoder.InitAlphabetTable` | native/C/z-machine/mojozork.c:1732-1773 | the three rows of the table hold the alphabets A0, A1 and A2 |
| `Dictionary.KeyUnpacks` | native/C/z-machine/mojozork.c:1252-1270 | a stored key decodes as one string of four bytes whose z-characters are the word's first six, padded with 5; the end bit disturbs none of them |
| `Dictionary.LettersRoundTrip` | native/C/z-machine/mojozork.c:1225-1270 | a word that begins with letters only decodes from its key as its first six letters in lower case |
| `Dictionary.RoundTripExactlyForLetters` | native/C/z-machine/mojozork.c:1225-1270 | encode then decode gives back the first six characters in lower case, in every story, if and only if they are all letters |
| `Dictionary.OverrunsExactly` | native/C/z-machine/mojozork.c:1232-1252 | the encoder writes past its array of twelve z-characters exactly when a character of two z-characters comes while eleven places are taken |
| `Dictionary.OverrunHappens` | native/C/z-machine/mojozork.c:1232-1252 | eleven letters and the digit 1 are such a word |
| `Tokenizer.WordsOfLine` | native/C/z-machine/mojozork.c:1203-1229 | the recorded words follow one another through the line, each non-empty, without separator inside and with exactly one after it |
| `Tokenizer.WordsStop` | native/C/z-machine/mojozork.c:1229-1231 | unless the parse buffer is full the words stop only at an empty word or the end of the line |
| `Tokenizer.LookupIsFirstEntry` | native/C/z-machine/mojozork.c:1272-1312 | the address recorded for a word is that of the first entry with its four key bytes, and 0 if no entry has them |
| `Tokenizer.ParseCount` | native/C/z-machine/mojozork.c:1330 | the parse buffer holds the number of words |
| `Tokenizer.ParseRecord` | native/C/z-machine/mojozork.c:1314-1321 | and for each word its dictionary address, true length and 1-based position |
| `Tokenizer.RemainingAreLeading` | native/C/z-machine/mojozork.c:1206-1327 | what the scan records from the start of the line is the leading non-empty words of its fields |
| `Tokenizer.TokenZChars` | native/C/z-machine/mojozork.c:1232-1252 | for every word that does not overrun the array, the encoding loop fills it with z-characters of which the first six are the word's |
| `Tokenizer.EncodeToken` | native/C/z-machine/mojozork.c:1232-1260 | with its padding it packs the first six z-characters of the word |
| `Tokenizer.FindKey` | native/C/z-machine/mojozork.c:1272-1312 | the search over equal-sized entries returns the address the lookup defines |
| `Tokenizer.TokenizeUserInput` | native/C/z-machine/mojozork.c:1185-1331 | for every line none of whose recorded words overruns the encoder's array, and every dictionary, that the parse buffer does not overlap, the story afterwards differs in the parse buffer only, which holds the count and the records |
| `Interpreter.Machine.VarAddress` | native/C/z-machine/mojozork.c:161-196 | refines the addressing of variables: pop, push, local or global |
| `Interpreter.Machine.EnterRoutine` | native/C/z-machine/mojozork.c:211-261 | refines entering a routine, header, locals and arguments stored in place |
| `Interpreter.Machine.OpcodeCall` | native/C/z-machine/mojozork.c:199-262 | refines the call instruction, calls of routine 0 included |
| `Interpreter.Machine.DoReturn` | native/C/z-machine/mojozork.c:264-291 | refines returning, dying outside any routine |
| `Interpreter.Machine.DoBranch` | native/C/z-machine/mojozork.c:356-381 | refines branching with one- and two-byte signed offsets, offsets 0 and 1 returning |
| `Interpreter.Machine.FetchOperands` | native/C/z-machine/mojozork.c:1564-1596 | refines fetching operands of every opcode form |
| `Interpreter.Machine.UnparentObject` | native/C/z-machine/mojozork.c:638-664 | refines unlinking in place |
| `Interpreter.Machine.InsertObj` | native/C/z-machine/mojozork.c:666-687 | refines insert_obj on the story array |
| `Interpreter.Machine.RemoveObj` | native/C/z-machine/mojozork.c:689-704 | refines remove_obj on the story array |
| `Interpreter.Machine.GetObjectProperty` | native/C/z-machine/mojozork.c:708-744 | refines the property walk |
| `Interpreter.Machine.PutProp` | native/C/z-machine/mojozork.c:765-781 | refines put_prop on the story array |
| `Interpreter.Machine.GetProp` | native/C/z-machine/mojozork.c:783-817 | refines get_prop with its default |
| `Interpreter.Machine.GetNextProp` | native/C/z-machine/mojozork.c:851-868 | refines get_next_prop |
| `Interpreter.Machine.OpcodeRead` | native/C/z-machine/mojozork.c:1333-1452 | refines reading a line: lower case, closed by a NUL, then tokenized |
| `Interpreter.Machine.OpcodeSave` | native/C/z-machine/mojozork.c:1501-1517 | refines saving, including a file that could not be written completely |
| `Interpreter.Machine.OpcodeRestore` | native/C/z-machine/mojozork.c:1519-1550 | refines restoring into the story and stack arrays |
| `Interpreter.Machine.RunInstruction` | native/C/z-machine/mojozork.c:1654-1730 | one instruction on the machine in place ends with the status, and when it runs on with the whole state, that `Instruction.Step` gives |
| `Interpreter.Machine.RunInstructions` | native/C/z-machine/mojozork.c:2159-2160 | the main loop on the machine in place goes through exactly the states of `Runs.Run`, so the theorems about runs hold of it; without restore its frame chain stays intact |
| `Pi.ReduceConserves` | native/C/pi.c:40-48 | the carry loop, from any term and with any carry coming in, keeps the number: ten times the value plus what comes in equals what comes out in front plus the value left behind |
| `Pi.RoundTakesDigit` | native/C/pi.c:36-93 | carry plus value before a round is its digit plus a tenth of carry plus value after it |
| `Pi.DigitsAreTheNumber` | native/C/pi.c:36-93 | for any number n of rounds the number at the start is the decimal of the n digits plus what carry and terms still hold, n places further on |
| `Pi.DigitsApproximate` | native/C/pi.c:29-93 | from the program's initial terms, for every array size, the digits of n rounds fall short of the number by less than 11 units of place n, and no digit exceeds 10 |
| `Pi.NumeratorBound` | native/C/pi.c:40-47 | coming into term i with at most 20(i + 1), the numerator never exceeds 40i + 20, leaves a digit of the radix and hands on at most 20i |
| `Pi.RoundBounds` | native/C/pi.c:36-93 | every digit computed is at most 10 and the terms stay reduced in their radices |
| `Pi.ValueBound` | native/C/pi.c:40-48 | reduced terms with nothing in front stand for a number from 0 to less than 2 |
| `Pi.WeightsWeigh` | native/C/pi.c:40-48 | the weights 1, 1/3, 1/3 * 2/5, ... make 2i + 1 units of term i worth i units of the term before it |
| `Pi.CarryTerm` | native/C/pi.c:40-47 | the loop body in place, with 16-bit terms and a 32-bit numerator, without overflow up to 3277 terms (the program has 2161) |
| `Pi.DigitRound` | native/C/pi.c:36-93 | one round in place computes the specified digit, terms and carry |
| `Pi.ComputeDigits` | native/C/pi.c:29-93 | the initialisation and any number of rounds compute the specified digits |
| `Raster.AdvanceKeepsTrack` | src/fb.c:508-514 | each turn of the loop keeps the error term equal to what was added on the way up less what was taken off on the way in, and between 0 and x while plotting |
| `Raster.ErrorTerm` | src/fb.c:495-514 | hence 2(t1 - r/16) = x^2 + x + y^2 + y - r^2 - r |
| `Raster.WithinOnePixel` | src/fb.c:499-514 | hence x^2 + y^2 < (r + 1)^2, and > (r - 1)^2 for r >= 1, at every position plotted |
| `Raster.SumFits` | src/fb.c:508-510 | no sum leaves 16 bits for radii up to 23168 |
| `Raster.MovePen` | src/fb.c:508-514 | for larger radii a sum may wrap around, but then the 16-bit difference does not and the position is still the right one |
| `Raster.ArcIsCircle` | src/fb.c:499-515 | the arc starts on the axis, rises one pixel a step, moves in at most one, and stops within a pixel of the diagonal, so it is unbroken and joins its mirror image |
| `Raster.OctantsReflect` | src/fb.c:500-507 | the eight points plotted a turn are exactly the reflections of the position around the centre |
| `Raster.CirclePixels` | src/fb.c:493-515 | every pixel of a circle is less than one pixel from the true circle |
| `Raster.Circle` | src/fb.c:493-515 | for every 16-bit radius the loop with its 16-bit variables ends; up to 32767 it plots the eight reflections of every position of the arc, and above, where the coordinate is negative, nothing |
| `Raster.DriftClose` | src/fb.c:123-136 | the fixed-point drift after k steps is less than 1 + k/65536 pixels from k * short / long |
| `Raster.ShiftFits` | src/fb.c:125 | the shift by 16 stays in 32 bits exactly for lines that rise from -32768 to 32767 along their short axis |
| `Raster.LineInBox` | src/fb.c:107-138 | a line starts at its start and stays in the box of its two ends |
| `Raster.LineIsUnbroken` | src/fb.c:127-137 | consecutive points are neighbours |
| `Raster.LineIsStraight` | src/fb.c:107-138 | point number k is less than 1 + k/65536 pixels, along the short axis, from the ideal line |
| `Raster.LineIsClose` | src/fb.c:107-138 | so all points of a line between coordinates up to 32767 are less than 1.5 pixels from it, and of any line less than 2 |
| `Raster.Line` | src/fb.c:107-138 | for all 16-bit coordinates whose rise can be shifted, exactly max(abs(dx), abs(dy)) points are plotted, one for each step along the long axis, and no value leaves 32 bits |
| `BankedMemory.PlacesAreApart` | src/mem.c:32-54 | every cell has its own place inside the one allocation |
| `BankedMemory.RunKeepsLast` | src/mem.c:96-202 | over any run of stores, library calls among them, the pages shown are those last chosen, and every cell holds what was last stored in it under the bank shown at the time, or what the last library call left in it, its result and error code included |
| `BankedMemory.ReadsLastStored` | src/mem.c:198-294 | a read after any run returns the last value stored in the cell of that address under the bank shown now |
| `BankedMemory.ReadsBackUnlessAtTop` | src/mem.c:112-268 | a value can be read back at once exactly below 0xF000, at the pinned addresses, while bank 0 is shown, or when bank 0 happens to hold it already; 0xFFF9 reads as the library call's error code |
| `BankedMemory.BaseNamesCellRead` | src/mem.c:256-342 | the pointer for an address names the cell a read fetches exactly below 0xF000 or while bank 0 is shown |
| `BankedMemory.Memory.constructor` | src/mem.c:32-54 | the index tables hold each bank's offset |
| `BankedMemory.Memory.MemWrite` | src/mem.c:61-202 | a store at any address but 0xFFF9 changes exactly the one cell (and, at 0xFFE0 and 0xFFE1, the page shown) |
| `BankedMemory.Memory.BeginLibraryCall` | src/mem.c:123-126 | a store to 0xFFF9, up to the library call, changes that cell of bank 0 |
| `BankedMemory.Memory.EndLibraryCall` | src/mem.c:128-132 | after the call its result and error code are in 0xFFF8 and 0xFFF9 of bank 0 |
| `BankedMemory.Memory.MemRead` | src/mem.c:208-294 | a read returns the cell fetched |
| `BankedMemory.Memory.MemBase` | src/mem.c:300-342 | the pointer is the place of the cell shown |

## Left out

- Z-Machine versions other than 3, which the interpreter rejects; also the debug output, the status bar and the upper window.
- `restart`, `verify`, `pull`, `split_window` and `set_window` stop the model as `Unmodelled`: restart reloads the file, verify compares an unscaled length, pull writes through a pointer it never sets, and the window instructions call the front end.
- Interpreter.Machine.OpcodeRead: a line that begins with `#script ` or `#random `, or a text or parse buffer that overlaps the dictionary or one another, stops the model as `Unmodelled`; running scripts and seeding the random number generator are commands to the interpreter, not the game.
- Interpreter.Machine.RunInstruction: says nothing of an instruction whose accesses leave the story, the stack or the encoder's array, where the program has no defined meaning, nor of one whose walk over a damaged object tree never ends.
- Tokenizer.TokenizeUserInput: a line with a word that overruns the encoder's array has no defined meaning, as `OverrunsExactly` says; `Step` stops on it as `Undefined`.
- Runs.CallThenReturn: runs that execute `restore` are excluded, since a restore replaces the whole stack; `SaveThenRestore` covers it.
- SaveRestore.SaveThenRestore: that static memory is unchanged is a premise, since the interpreter lets `storew` and `storeb` write anywhere in the story.
- The host is taken to be little-endian, as the byte order of the save file and of the frame headers is the host's.
- The random number generator, the line editor of the terminal and the file system are parameters of a step.
- Properties.PutThenGet: premised on tables that lie apart from one another, from the object records and from the defaults, as a compiler lays them out; a property 0 that is written overwrites what follows the table, as `PutPropOfZero` says, and nothing is promised of the tables then.
- Properties.AddrThenLen: speaks of data addresses below 65536, the only ones a 16-bit result can hold; so does `AddrOfZero`.
- ForestRuns.RunKeepsForest: premised on globals, stores and text buffers that lie apart from the links, since the interpreter lets a program write anywhere in the story, and on runs without `restore`, which replaces the whole tree.
- Pi.DigitsApproximate: digits are taken as computed, before the repair of a digit 10, which prints backspaces, advances its ring buffer index twice and reuses the outer loop's counter.
- Raster.CirclePixels: points are the coordinates handed to the plotting function, which truncates them to 16 bits; shapes are taken to lie on the screen, and the frame buffer itself, clipping and colours are not modelled.
- Raster.Line: lines that rise by more than 32767 or fall by more than 32768 along their short axis, where the shift by 16 leaves 32 bits; shifting a negative number is taken as multiplication, and shifting one right as rounding down.
- Raster.MovePen: converting an integer to 16 bits is taken to keep its low 16 bits, as the C compilers for this hardware define it.
- BankedMemory.RunKeepsLast: what a library call does is not modelled; its reply, the whole memory it leaves, is a parameter of the store to 0xFFF9. Handlers that other files may plug into the top page are not part of this model.
- An allocation that fails in `mem_init`, GPIO stepping, the mailbox threads, SDL, the clock and the Mandelbrot program: foreign calls, or nothing to prove beyond a single body.
- The screen and script output of `print` instructions is one growing string; writing it out is left to the front end.
