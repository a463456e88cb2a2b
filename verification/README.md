# FFI::Platypus: the call protocol, closures and records

FFI::Platypus lets Perl call C functions. One header,
`include/ffi_platypus_call.h`, is the call itself: it walks the Perl arguments
forward, filling a block of native slots, running Perl handlers for custom
types, putting storage on a list to be freed and converted values on a stack
shared by all calls of the interpreter; it makes the foreign call; it walks the
arguments backward, undoing all that; it converts the result. Handlers and
closures are Perl code and call other functions, so calls nest to any depth and
share `current_argv`, the keeper stack and the reference counts.

**How it is modelled.** `CallModel` says what a run does to the shared state. A
`Call` is a tree that carries everything the engine does not decide (the Perl
values, what each handler does and returns, the callbacks the C code makes, what
the C code leaves in memory), so a statement about all calls is about all
handlers, all C functions and all nestings. Every point where control passes
to Perl or to C, or is given back from there, is logged with the shared state at
that point, which is how safety "at every moment" is stated. `CallEngine.Interp` is the code: a class with
the interpreter's fields, the intrusive free list as nodes in a memory map, an
array for the pointer table, and the two loops with their own indices; its
methods are proved to do what `CallModel` says. The laws about calls are proved about
`CallModel.RunCall` and so hold of `Interp.Call`; unless a law says otherwise it is about all
calls, croaking ones and calls with croaks nested inside evals included. The other modules are
built the same way: a specification by functions, a class or methods in the source's form that
refine it, and laws about the specification.

| module | about |
|---|---|
| TypeCodes, CodeLaws, Signature | type codes; what their bits say; how a signature spreads over native slots; the two traversals |
| CallModel, CallEngine | what a run of nested calls does; the code that does it |
| TraceLaws, StyleLaws | what handlers, checks and closures are given, read off the log; method calls against attached subs |
| HeapLaws | memory of calls: every block freed exactly once |
| ArgvLaws, StatusLaws | `current_argv`: after a call, at every use of the API, at every event |
| KeeperEffects, KeeperLaws | what a run takes off and leaves on the keeper stack; references |
| EventLaws, LifetimeLaws | stack and references at every event, exactly; when a converted value stays alive |
| PlainRuns, ProgramLaws | the laws for runs without croaks or empty lists; whole programs |
| FrameLaws | the frame handed to libffi |
| Findings, ValueFindings | concrete inputs on which plain promises fail |
| Words, Views, IntegerTypes, ByteOrder | C integers as bytes, exact modulo 2^n; typed views; narrow results |
| ArgumentBlock, ArrayMarshal | values in the argument slots; integer arrays in and out |
| Trampolines, ClosureTypes | native function pointers for closures; closure types and callbacks |
| TypeOwnership | what type descriptors own |
| Record, Accessors | record members of every kind as lists; choice of accessor against reserved space |
| Errors, RecordString | why accessors die; the blocks that read-write string members own |

**Effects.** What a run does to the keeper stack is an `Effect(drop, push)`: it takes `drop` entries
off the stack it finds and leaves `push` on top. `CallEffect` works it out from the run tree alone,
and likewise `CallLeak` the references that croaks leave behind, `CallMarks` what every event
finds in `current_argv` and `CallMoments` how far effect and references have got at every event; the
laws say that runs do exactly that.

**Where the code does not do what is promised.** The model follows the code. Each of these comes
with an exact condition and a concrete input.

- A `perl_to_native` handler that returns the empty list pushes no keeper, but the
  pop still happens (include/ffi_platypus_call.h:79-88 and 954): the call takes
  one keeper off the stack it found. The shipped
  `lib/FFI/Platypus/Type/PointerSizeBuffer.pm:56-62` is such a handler. A croak leaves the keepers
  pushed so far, and a reference to the value that failed (`KeeperStackAfterCall`,
  `ReferencesAfterCall`; `CroakLeavesKeeper`).
- So a converted value need not stay alive until its own pop: a nested call can take its keeper
  (`ValueKeptIff`, `ValueHeldIff`, `PopTakesOwnKeeper`; `NestedEmptyResultTakesKeeper`,
  `ValueDiesInCallback`).
- The arguments API is documented as valid within a custom type callback
  (lib/FFI/Platypus/API.pm:54). It is so at a use of it exactly as long as no call was made
  since the engine last set `current_argv`: not by an earlier handler of the same call, and not by
  this handler itself, `native_to_perl` included (`ApiInConvert`, `ApiInPost`, `ApiInFinish`;
  `SecondHandlerLosesApi`, `OwnCallLosesApi`, `OwnCallLosesApiInFinish`).
- `ffi_pl_croak` frees the argument block and leaves `current_argv` naming it
  (`CurrentArgvAfterCall`, `EveryEvent`, `ProgramIsSafe`; `CroakLeavesDanglingArgv`).
- A custom type over `longdouble`, or over a record by value longer than 8 bytes, that takes
  several slots or whose handler returns the empty list gives libffi an 8-byte slot where it reads
  more (`FrameAtForeignCall`; `WideLongDoubleIsNarrow`, `UnsetRecordIsNarrow`).
- A variable-length array is copied back by the length the Perl list has after the
  call (`CopyOutInBounds`; `GrownListOverruns`).
- An array member of a read-only record cannot be read by index, because the
  read-only test comes first (`IndexReadNeedsWritable`; `ReadOnlyElementDies`); the index guard of
  opaque array members asks for an index both negative and too large, so any index is read
  (`IndexedReadEscapes`; `IndexCountEscapes`).
- An object over `uint16` is read through the signed view on 4-byte big-endian
  machines (`ObjectReadAgrees`; `ObjectReadsNegative`).

## Model

| member | source | states |
|---|---|---|
| TypeCodes.StripRecoversBasis | include/ffi_platypus_call.h:72-90 | xor with the custom shape gives back the basis exactly for scalar-shaped codes |
| TypeCodes.CustomAgreesWithBasis | xs/names.c:4-64 | the dispatch's xor and the mask of the libffi table agree: a custom type has its basis's libffi type, size and kind of arm |
| CodeLaws.ScalarCodes | include/ffi_platypus.h:147-170 | which combinations of base and size are scalar types |
| CodeLaws.IntegerBits | xs/names.c:13-29 | the integer types are the scalars of the two integer bases; one is signed iff its base is, and as wide as its size field says |
| CodeLaws.ScalarBits | xs/Type.xs:241-280 | which scalars can carry handlers and which can be objects |
| CodeLaws.DeclaredAsBits | xs/names.c:4-64 | every argument type is declared to libffi as its bits say: pointers and arrays as pointers, any other shape as the stem it was put on, integers with their width and sign |
| CodeLaws.SizeIsWidth | xs/meta.c:13-53 | the size reported for a type is what libffi reads for it, records behind pointers, arrays and objects aside, for which it is given too |
| CodeLaws.ArmBits | include/ffi_platypus_call.h:93-650 | the arms of the two argument switches by shape and base; in and out agree, and no argument type falls through |
| Signature.CountExtra | xs/Function.xs:39-52 | None exactly when some argument type is void; else arguments plus extra slots is the expanded length |
| Signature.FillGroup | xs/Function.xs:73-87 | a type is written to all the slots it takes, the slots before are kept |
| Signature.Prepare | xs/Function.xs:39-113 | the array filled by the jumping index is each type repeated once per slot, and the libffi list is made slot by slot from it |
| Signature.TraversalDuality | include/ffi_platypus_call.h:65-88 | for every type list and both EXTRA_ARGS, the backward loop stops at exactly the (slot, Perl index) pairs of the forward loop in reverse, and ends at i = -1 |
| CallEngine.Interp.HeapAdd | include/ffi_platypus.h:363-378 | a new block and node on the front of the intrusive list; nothing else in memory changes |
| CallEngine.Interp.HeapFree | include/ffi_platypus.h:380-388 | the loop ends and frees exactly the listed blocks and their nodes, whatever bytes the blocks hold |
| CallEngine.Interp.PushKeeper | include/ffi_platypus_call.h:89-89 | the scalar on top of the stack with one more reference |
| CallEngine.Interp.PopKeeper | include/ffi_platypus_call.h:953-957 | the top entry gone and its reference released; an empty stack is left alone |
| CallEngine.Interp.StoreArgument | include/ffi_platypus_call.h:93-637 | the argument-in switch: pointer entry, blocks, closure counts, or a croak that frees the list |
| CallEngine.Interp.PointAtSlots | include/ffi_platypus_call.h:641-647 | the extra slots of a wide type point at themselves |
| CallEngine.Interp.Perl | xs/custom.c:22-40 | Perl code run by a handler or callback has the effect of its run tree and disturbs no list node of a call in progress |
| CallEngine.Interp.ConvertArgument | xs/custom.c:8-44 | perl_to_native of argument k with its own slot, Perl index and value, which TraceLaws.CallPasses says are those of the k-th Perl-level argument |
| CallEngine.Interp.StoreConverted | include/ffi_platypus_call.h:89-90 | a converted value is kept, stored as its basis, its own reference dropped, extra slots stepped over |
| CallEngine.Interp.CustomArgument | include/ffi_platypus_call.h:72-91 | a custom argument, empty list included |
| CallEngine.Interp.ArgumentIn | include/ffi_platypus_call.h:65-92 | one turn of the in loop at the slot where the k-th group starts does the k-th step of the run |
| CallEngine.Interp.ArgumentsIn | include/ffi_platypus_call.h:65-649 | the in loop over native slots does all steps in order, or stops at the first croak |
| CallEngine.Interp.ArgumentOut | include/ffi_platypus_call.h:702-965 | one turn of the out loop, entered at the last slot of a group, handles it at its first |
| CallEngine.Interp.ArgumentsOut | include/ffi_platypus_call.h:702-965 | the out loop handles every argument once, last to first |
| CallEngine.Interp.ForeignCall | include/ffi_platypus_call.h:692-694 | the callee may overwrite any data block and call back; list nodes and the protocol are untouched |
| CallEngine.Interp.NativeToPerl | include/ffi_platypus_call.h:1609-1617 | the return handler runs with its own block current, and the list still to be freed |
| CallEngine.Interp.Return | include/ffi_platypus_call.h:967-1619 | every exit of the selected variant: when the list is freed and when current_argv is set and cleared; TraceLaws.FinishRunsIff says for which types the handler runs |
| CallEngine.Interp.Begin | include/ffi_platypus_call.h:24-59 | result storage, argument block, current_argv |
| CallEngine.Interp.Call | include/ffi_platypus_call.h:24-1727 | the whole dispatch does exactly what the run specification says, every block allocated before stays allocated and every list node of an outer call is unchanged; data bytes may be changed by the callee |
| TraceLaws.CallPasses | include/ffi_platypus_call.h:65-78 | the handlers and the foreign function a call passes control to, exactly and in order, read off the log of any run: perl_to_native of each custom argument reached, the foreign function, the post handlers in reverse, native_to_perl at most once; both handlers of argument k get its first slot, its stack place and the k-th Perl-level argument, undef if missing |
| TraceLaws.FinishRunsIff | include/ffi_platypus_call.h:1169-1619 | native_to_perl runs iff the return type has one and its basis is a customizable scalar other than long double |
| TraceLaws.CallCroaksIff | include/ffi_platypus_call.h:184-197 | a call croaks iff some object or record by value is no instance of its class; every other value, and the empty list, is accepted |
| TraceLaws.ClosureHeld | include/ffi_platypus_call.h:209-216 | for a closure argument a reference to the k-th Perl-level argument and to what it refers to is taken on the way in and dropped on the way out |
| StyleLaws.CallTwins | include/ffi_platypus_call.h:65-70 | calls that differ only in how they are made leave the same state, and all their events find the same state and are the same up to the stack places told to their own handlers |
| StyleLaws.MethodIsSub | lib/FFI/Platypus.xs:23-62 | `$f->call(xs)` and f(xs): same croak, same state, same events, stack places one further |
| HeapLaws.CallFreesExactlyItsBlocks | include/ffi_platypus.h:363-392 | over any call, nested and croaking ones included: every block allocated during it freed exactly once, no other block freed |
| HeapLaws.CodeFreesExactlyItsBlocks | include/ffi_platypus.h:363-392 | the same for any piece of Perl code or whole program |
| HeapLaws.ReturnReleases | xs/Function.xs:209-217 | which (variant, return type) pairs release the list; the pairs _attach, _sub_ref and call select always do |
| ArgvLaws.CurrentArgvAfterCall | include/ffi_platypus.h:390-392 | a call croaks iff some argument fails its check; current_argv is NULL afterwards iff the call did not croak or a nested call had reset it; otherwise it names freed memory |
| ArgvLaws.ConvertSeesItsCall | include/ffi_platypus_call.h:55-78 | perl_to_native starts with its own, allocated block current iff no earlier handler of this call made a call |
| ArgvLaws.PostSeesItsCall | include/ffi_platypus_call.h:700-950 | post handlers start so iff no post handler before made a call |
| ArgvLaws.ApiInConvert | xs/API.xs:3-38 | after any n actions of a perl_to_native handler its own block is current iff neither an earlier handler nor this one so far has made a call; the block is allocated |
| ArgvLaws.ApiInPost | xs/API.xs:3-38 | the same inside post handlers, counting from the foreign call |
| ArgvLaws.ApiInFinish | include/ffi_platypus_call.h:1609-1617 | the same inside native_to_perl, where only its own calls matter |
| ArgvLaws.NoApiInCallback | include/ffi_platypus_call.h:692-694 | Perl code of closures never finds the block of the call that called back |
| StatusLaws.CallLeaves | include/ffi_platypus_call.h:55-1619 | the events of any call are those its tree foretells, each with the status foretold for current_argv |
| ProgramLaws.EveryEvent | include/ffi_platypus.h:390-392 | at every event of every run current_argv is NULL, the innermost live block, or a freed block, and which it is; NULL at every foreign call, the own block at every native_to_perl |
| KeeperLaws.KeeperStackAfterCall | include/ffi_platypus_call.h:75-91 | for every call: the stack afterwards is what the effect of the call makes of the stack found; restored iff what is dropped is what is pushed; for all stacks iff the effect is nothing |
| KeeperLaws.ReferencesAfterCall | include/ffi_platypus_call.h:209-266 | for every call and scalar: the count changes with the keepers and by what croaks leave behind, closures and their referents included |
| KeeperEffects.ActThen | include/ffi_platypus_call.h:89-89 | effects compose: one after the other acts as their composition on every stack |
| KeeperEffects.RestoresIff | include/ffi_platypus_call.h:953-957 | an effect leaves a stack as it was iff it puts back just what it takes off |
| PlainRuns.KeeperStackWithoutCroaks | include/ffi_platypus_call.h:941-958 | without croaks one keeper goes per empty list; restored iff there was none or the stack was empty, and then every reference count is back |
| PlainRuns.CallWithoutCroaks | include/ffi_platypus_call.h:941-958 | such a call has the effect of dropping as many entries as empty lists were returned, and loses no reference |
| PlainRuns.CallWithoutEmpty | include/ffi_platypus_call.h:79-89 | if no handler returns the empty list a call takes nothing off the stack it found, whatever croaks |
| EventLaws.CallSees | include/ffi_platypus_call.h:55-978 | every event of any call, croaks and nesting included, finds exactly the stack and the references that the moment its tree foretells makes of those at entry, and all memory of the caller still allocated |
| EventLaws.RunCallEvents | include/ffi_platypus_call.h:55-978 | so at every event no unaccounted reference of the caller is gone, and the stack stands on any floor the effect of the whole call leaves room for |
| ProgramLaws.EveryProgram | lib/FFI/Platypus.xs:66-73 | every program from BOOT on: its events and their statuses as foretold, the final current_argv and keepers, and every block freed exactly once |
| ProgramLaws.ProgramIsSafe | lib/FFI/Platypus.xs:66-73 | a program finds only NULL or the live block of the innermost call at all its events iff its tree marks none as freed; so it does if no call dangles, in particular if none croaks |
| LifetimeLaws.PopTakesOwnKeeper | include/ffi_platypus_call.h:941-958 | what the pop for argument k finds, in every returning call; it takes the value pushed for argument k, leaving the stack as before its conversion, iff what ran in between restores the stack |
| LifetimeLaws.ValueKeptIff | include/ffi_platypus_call.h:639-642 | from the end of its conversion to right before its own pop (or to the croak of a later argument), at every event at any depth and where handlers and callbacks give control back, the stack with the converted value on top is still there, iff the effect of each of these moments covers that stack |
| LifetimeLaws.ValueHeldIff | include/ffi_platypus_call.h:639-642 | likewise the value has at least the one reference more than before its conversion, iff at each moment its occurrences on the stack and the references beside it make up for what the effect takes off |
| LifetimeLaws.ConvertedValueAlive | include/ffi_platypus_call.h:639-642 | in particular both, if nothing in between digs below its keeper |
| LifetimeLaws.ConversionKeeps | include/ffi_platypus_call.h:75-91 | the conversion puts the value on top and holds one more reference to it |
| LifetimeLaws.ConversionGives | include/ffi_platypus_call.h:72-91 | a conversion puts the handler's reply on the stack, nothing for the empty list, and a copy of the argument if the type has no handler |
| LifetimeLaws.SpanWithoutEmpty | include/ffi_platypus_call.h:79-89 | nothing digs below any keeper if no handler returns the empty list |
| LifetimeLaws.ConvertedValueAliveWithoutEmpty | include/ffi_platypus_call.h:639-642 | then the value is alive throughout and referenced once more than before the call |
| LifetimeLaws.OwnKeeperWithoutBoth | include/ffi_platypus_call.h:941-958 | without croaks and empty lists each pop takes its own keeper |
| FrameLaws.BufferIsPartitioned | include/ffi_platypus_call.h:48-59 | every byte of the buffer is in the header or in exactly one slot or one pointer entry, never in two, and the table ends where the buffer ends |
| FrameLaws.FrameAtForeignCall | include/ffi_platypus_call.h:65-694 | an entry per native slot, each leading to a record body or to enough bytes for the declared libffi type, iff no custom type that outgrows a slot is wide or returned the empty list |
| FrameLaws.BodiesInFrame | include/ffi_platypus_call.h:184-197 | which entries lead to record bodies: first slots of records by value whose conversion gave a value |
| FrameLaws.EntriesAreApart | include/ffi_platypus_call.h:641-647 | where every entry leads: its own slot, so no two share one, storage exactly as large as the declared type for long doubles and complex numbers, or a record body |
| FrameLaws.StorageAtForeignCall | include/ffi_platypus_call.h:24-59 | the blocks on a call's list at any stage of the in loop: the argument block, one for a record result and for every entry with storage of its own unless they come from the C stack, and what pointer and array arguments asked for |
| Findings.NestedEmptyResultTakesKeeper | lib/FFI/Platypus/Type/PointerSizeBuffer.pm:56-62 | a call in which a nested call takes the outer call's keeper while the outer one is running |
| Findings.ValueDiesInCallback | include/ffi_platypus_call.h:941-958 | in that call the event where the callback gives control back finds the value off the stack and unreferenced, so it is not alive until its pop |
| Findings.SecondHandlerLosesApi | xs/API.xs:9-10 | a call whose second handler finds current_argv NULL |
| Findings.OwnCallLosesApi | xs/API.xs:9-10 | a single handler that calls a function loses its own block before its next API use |
| Findings.OwnCallLosesApiInFinish | xs/API.xs:9-10 | the same in native_to_perl |
| Findings.CroakLeavesDanglingArgv | include/ffi_platypus.h:390-392 | a call after which current_argv names a freed block |
| Findings.CroakLeavesKeeper | include/ffi_platypus_call.h:184-197 | a croak that leaves the converted value on the stack and two references to it |
| Findings.WideLongDoubleIsNarrow | include/ffi_platypus_call.h:643-647 | a call with a slot narrower than its libffi type |
| Findings.UnsetRecordIsNarrow | include/ffi_platypus_call.h:79-88 | an 8-byte slot where libffi reads a 16-byte record |
| ValueFindings.GrownListOverruns | include/ffi_platypus_call.h:748-751 | a list grown from 1 to 2 elements during the call: 8 bytes read from a block of 4 |
| ValueFindings.ReadOnlyElementDies | maint/tt/accessor.tt:69-72 | a read-only one-element array that dies when asked for element 0 |
| ValueFindings.IndexCountEscapes | xs/record_opaque.c:122-135 | element 1 of a one-pointer array is whatever lies behind the member |
| ValueFindings.ObjectReadsNegative | include/ffi_platypus_call.h:1679-1687 | 0x8000 read as -0x8000 |
| Words.CastFacts | maint/tt/accessor.tt:33-35 | a C cast is in range, congruent modulo 2^n, and the identity on values of the type |
| Words.StoreLoad | include/ffi_platypus.h:302-315 | store then load gives the cast value, in both byte orders |
| Words.LoadStore | include/ffi_platypus.h:302-315 | storing what was loaded changes no byte |
| Words.FromPerlIsCast | maint/tt/accessor.tt:34-34 | going through SvIV or SvUV first makes no difference |
| ByteOrder.IndicesAgree | xs/closure.c:215-264 | closure and call use the same element index, which is where the low-order bytes are, W/w - 1 when big-endian |
| ByteOrder.LowOrderBytes | include/ffi_platypus.h:258-286 | those bytes are the word cut to w bytes |
| ByteOrder.ClosureReturnReachesCall | xs/closure.c:211-270 | what a closure returns is what a call reads, modulo 2^n, whatever else is in the slot |
| ByteOrder.CallReadsLowOrder | include/ffi_platypus_call.h:1031-1080 | a widened C result is read modulo 2^n |
| ByteOrder.ObjectReadAgrees | include/ffi_platypus_call.h:1646-1709 | object results read as plain ones do, except uint16 from 0x8000 up on 4-byte big-endian machines |
| ArgumentBlock.LastWriteStands | include/ffi_platypus.h:302-336 | a slot holds the image last written to it; an unwritten slot is unchanged |
| ArgumentBlock.SlotsAtForeignCall | include/ffi_platypus_call.h:65-92 | each slot of argument k holds at the foreign call what the engine, or else its handler through the API, last wrote there, if no later handler reaches back |
| ArgumentBlock.IntegerReachesCallee | include/ffi_platypus_call.h:99-122 | an integer argument, custom types and objects over integers included: libffi was told the width and sign its code has in its bits, and the callee reads the Perl value modulo 2^n in that type, undef as zero |
| ArgumentBlock.BlockAtCopyOut | include/ffi_platypus_call.h:730-730 | the block the copy-out takes from the slot is the one the copy-in put there iff what later handlers wrote to that slot leaves its address in it; so it is if they wrote nothing there |
| ArgumentBlock.Arguments.Store | include/ffi_platypus.h:326-354 | one slot's low bytes replaced, every other byte of the block kept |
| ArgumentBlock.Arguments.Set | xs/API.xs:28-38 | arguments_set_*: the converted value in that slot only |
| ArgumentBlock.Arguments.Get | xs/API.xs:15-26 | arguments_get_*: the slot through the named type |
| ArgumentBlock.ArgumentsSet | xs/API.xs:28-38 | dies iff there is no current block, otherwise stores in that slot only |
| ArgumentBlock.ArgumentsGet | xs/API.xs:15-26 | dies iff there is no current block, otherwise the slot through the named type |
| ArgumentBlock.Arguments.FillIn | include/ffi_platypus_call.h:65-649 | the loop's stores and its handlers', in order |
| ArrayMarshal.CopyIn | include/ffi_platypus_call.h:383-451 | the block shows each element modulo 2^n, zeros for missing ones; the Perl list is extended with undef |
| ArrayMarshal.PassedModulo | include/ffi_platypus_call.h:396-451 | what the callee sees at each index, exactly |
| ArrayMarshal.CopyOut | include/ffi_platypus_call.h:740-801 | the list becomes the decoded buffer followed by its own untouched tail |
| ArrayMarshal.PassArray | include/ffi_platypus_call.h:383-801 | in, call, out: what the callee saw and the list afterwards, for any bytes left and any change of the list that does not lengthen a variable array |
| ArrayMarshal.UntouchedRoundTrip | include/ffi_platypus_call.h:740-801 | a callee that writes nothing leaves a list of in-range values alone |
| ArrayMarshal.CopyOutInBounds | include/ffi_platypus_call.h:742-751 | copy-out stays in the block iff the count is declared or the list did not grow |
| ArrayMarshal.ArraySizesAgree | xs/meta.c:13-37 | reported size, copy-in block and zeroed fallback block agree for every fixed-size array but long double |
| Trampolines.EveryRunIsGood | include/ffi_platypus_call.h:212-257 | over every run: one trampoline per (object, type), each half made once and freed once, the coderef's count is the number of its trampolines, Perl code only on the creating thread |
| Trampolines.PointerIsStable | lib/FFI/Platypus/Closure.pm:71-88 | passing an object again gives the same pointer, whatever happens between |
| Trampolines.PassGivesPointer | include/ffi_platypus_call.h:212-257 | the cached pointer with nothing changed; NULL iff there is none and a creation failed; otherwise a trampoline never handed out before, for that coderef, type and thread, with one more reference to the coderef and every other pointer as it was |
| Trampolines.CallbackRunsIff | xs/closure.c:65-72 | a callback runs its Perl code iff it is on the thread the trampoline was made on, and aborts otherwise; nothing else changes |
| Trampolines.AbortIsFinal | xs/closure.c:65-72 | no step of a run after an abort changes anything |
| Trampolines.DestroyReleases | xs/ClosureData.xs:3-9 | destroying an object releases exactly its trampolines |
| Trampolines.FailedPassLeavesNothing | include/ffi_platypus_call.h:221-257 | all three failures pass NULL and leave nothing allocated, cached or counted |
| Trampolines.ClosureTable.PassClosure | include/ffi_platypus_call.h:209-266 | the pointer put in the slot is the cached one or that of the trampoline just registered; NULL iff nothing is cached and one of the three failures happened |
| Trampolines.ClosureTable.CreateClosure | include/ffi_platypus_call.h:219-257 | creation with its failure exits, freeing what was made so far |
| Trampolines.ClosureTable.Enter | xs/closure.c:65-72 | Perl code runs iff the thread is the creating one; otherwise the process aborts |
| Trampolines.ClosureTable.DestroyObject | xs/ClosureData.xs:3-9 | all cache entries of the object released one after the other |
| Trampolines.ClosureTable.DestroyEntry | xs/ClosureData.xs:3-9 | coderef count, libffi half and struct released together |
| ClosureTypes.CreateClosureType | xs/TypeParser.xs:184-350 | succeeds iff every type is accepted and libffi agrees; the list of libffi types and the flags |
| ClosureTypes.AcceptedIsMarshalled | xs/TypeParser.xs:198-312 | accepted types are exactly those with an arm of their own in the callback's switches, and are declared as for ordinary calls |
| ClosureTypes.AcceptedBits | xs/TypeParser.xs:198-312 | which argument and return types are accepted, by the bits of their codes |
| ClosureTypes.MetaRecursionIsShallow | xs/meta.c:87-113 | closures cannot nest, so the type-meta recursion is at most two deep |
| ClosureTypes.PushedInOrder | xs/closure.c:82-189 | one Perl value per argument that is not void, in argument order, each for its own argument |
| ClosureTypes.PushArguments | xs/closure.c:84-189 | the push loop, which never reaches its bad-type arm |
| ClosureTypes.PushedInteger | xs/closure.c:92-131 | an integer of the width and sign the argument's code has in its bits is seen by the Perl code exactly |
| ClosureTypes.PushedPointer | xs/closure.c:132-165 | an opaque pointer is seen as its signed address, NULL as undef; strings and records behind a pointer stand here by address |
| ClosureTypes.PushedBytes | xs/closure.c:132-182 | floats and records arrive byte for byte; only void pushes nothing |
| ClosureTypes.StoreRecord | xs/closure.c:280-298 | exactly record.size bytes set: cut, zero-padded, or all zero for a wrong object; nothing beyond |
| TypeOwnership.EveryRunIsGood | xs/Type.xs:286-332 | over any types made and destroyed in any order: one owner per block until it is freed, once; handler counts are the references held, whatever uninitialised fields contain |
| TypeOwnership.AllDestroyedLeavesNothing | xs/Type.xs:286-332 | with every type destroyed, each block freed once and no handler held |
| TypeOwnership.ClassStringIsIndependent | xs/TypeParser.xs:154-171 | destroying any other type leaves a type's class string in place and unchanged |
| TypeOwnership.CustomCopiesClass | xs/TypeParser.xs:159-171 | a custom type over a record class gets a separate copy of the name |
| TypeOwnership.CustomMade | xs/TypeParser.xs:140-181 | a custom type has its basis's bits and each handler in its own place, and a class string iff its basis is a record with one |
| TypeOwnership.TypeMade | xs/TypeParser.xs:29-250 | the code and class name of every other type made |
| TypeOwnership.TypeStore.MakePlain | xs/TypeParser.xs:29-41 | a type that owns nothing |
| TypeOwnership.TypeStore.MakeRecord | xs/TypeParser.xs:43-70 | a record type with its own class string, if any |
| TypeOwnership.TypeStore.MakeObject | xs/TypeParser.xs:72-90 | an object type with its own class string |
| TypeOwnership.TypeStore.MakeCustom | xs/TypeParser.xs:140-181 | a custom type: copied class, one reference per handler present |
| TypeOwnership.TypeStore.MakeClosure | xs/TypeParser.xs:247-250 | a closure type owning its libffi argument list |
| TypeOwnership.TypeStore.Destroy | xs/Type.xs:286-332 | what DESTROY releases, by type code |
| Views.ViewOfOverwrite | maint/tt/accessor.tt:93-104 | a stored list reads back |
| Views.ViewElsewhere | maint/tt/accessor.tt:23-24 | and shows in no view of other bytes |
| Views.OverwriteOfView | maint/tt/accessor.tt:126-129 | a view determines its bytes |
| Record.AccessRefines | maint/tt/accessor.tt:26-41 | one access to a member of any kind: contents and reply are those of the list picture, and a read changes no byte |
| Record.AskedIndex | maint/tt/accessor.tt:76-76 | the index the accessors use, reading and assigning, is the C int congruent to the Perl one |
| Record.ShownAgain | xs/record_opaque.c:35-52 | what a value becomes in a member: integers modulo 2^n, floats and addresses as they are, undef as 0 or undef |
| Record.AssignedElement | maint/tt/accessor.tt:74-82 | after assigning element i of a writable array, element i replies with that value, every other one as before, and an index out of range changed nothing |
| Record.AssignedList | maint/tt/accessor.tt:90-105 | after assigning a list every element replies with the value at its place, and with what undef gives where the list is too short |
| Record.ListedElement | maint/tt/accessor.tt:120-129 | the list an array accessor returns has at each place what asking for that element gives |
| Record.AssignedScalar | maint/tt/accessor.tt:26-41 | a scalar returns, then and later, what was assigned |
| Record.AssignedText | xs/record_string.c:134-164 | a fixed string: undef refused with nothing changed; a text cut to size and laid over what was there, which is then returned |
| Record.AccessFrame | maint/tt/accessor.tt:23-38 | whatever is asked of a member of any kind, bytes outside its footprint stay |
| Record.ReplyFromFootprint | maint/tt/accessor.tt:23-41 | reply and new contents depend on the footprint alone, pointer arrays read out of range aside |
| Record.RunRefines | maint/tt/accessor.tt:44-132 | over any sequence of in-range accesses to integer, float, pointer and string members with disjoint footprints, all replies and final contents are those of a plain list per member |
| Record.AccessesCommute | maint/tt/accessor.tt:66-129 | accesses to disjoint members of any two kinds commute, byte for byte and in their replies |
| Record.ReadOnlyNeverChanges | xs/record_string.c:73-95 | no sequence of requests to members of any kinds changes a read-only record |
| Record.IndexReadNeedsWritable | maint/tt/accessor.tt:69-72 | reading an array element by an index in range works iff the record is writable |
| Record.IndexOutside | maint/tt/accessor.tt:108-118 | reading an integer or float array at an index out of range gives the empty list |
| Record.IndexedReadEscapes | xs/record_opaque.c:122-135 | an indexed read of a pointer array depends on nothing outside the member iff the index is in range |
| Record.RecordBuffer.SetElement | maint/tt/accessor.tt:80-80 | one element replaced, the rest of the buffer kept |
| Record.RecordBuffer.GetElement | maint/tt/accessor.tt:111-111 | the element's value |
| Record.RecordBuffer.AssignAll | maint/tt/accessor.tt:90-105 | the loop stores the list cut or zero-filled to the member's count |
| Record.RecordBuffer.ReadAll | maint/tt/accessor.tt:124-129 | the loop returns the member's contents |
| Record.RecordBuffer.Scalar | maint/tt/accessor.tt:2-42 | the scalar accessors of integers, floats, pointers and read-write strings are the specified access |
| Record.RecordBuffer.Array | maint/tt/accessor.tt:44-132 | the integer and float array accessors, index cut to a C int, are the specified access, of which AssignedElement, AssignedList and ListedElement say what it does |
| Record.RecordBuffer.OpaqueArray | xs/record_opaque.c:55-152 | the pointer array accessor, with its own guard, is the specified access, reads out of range included |
| Record.RecordBuffer.PointerAt | xs/record_opaque.c:119-135 | what an indexed read gives: the address at that place, in range or not |
| Record.RecordBuffer.StringRo | xs/record_string.c:8-44 | the read-only string accessor is the specified access |
| Record.RecordBuffer.FixedString | xs/record_string.c:106-164 | the fixed string accessor is the specified access |
| Accessors.FootprintIsSize | xs/meta.c:13-53 | the chosen view is as long as the size the layout reserves |
| Accessors.AcceptedTypes | xs/Record.xs:56-155 | which types get an accessor |
| Accessors.ChosenByBits | xs/Record.xs:56-155 | which kind of accessor, of what width, sign and count, by the bits of the type |
| Accessors.AccessStaysInside | xs/Record.xs:56-155 | for every accepted type an in-range access touches and depends on [offset, offset + ffi_pl_sizeof) only |
| Accessors.AcceptedCommute | xs/Record.xs:56-155 | accesses to members of any two accepted types laid out apart commute |
| RecordString.StringOwnership | xs/record_string.c:73-95 | over any accesses, to a writable or a read-only record: no block or exactly one, length len + 1, holding the last string; earlier ones freed once; the rest of the heap untouched |
| RecordString.DestroyReleases | lib/FFI/Platypus/Record.pm:449-460 | after any accesses DESTROY frees nothing of a read-only record, whose memory is as it was found; of a writable one every block realloc made for the member and the one it pointed to at first, each once, and no other |
| RecordString.FreesOnlyItsOwn | include/ffi_platypus_call.h:993-1002 | no block but those realloc made for the member is ever freed iff the record is read-only or the member was NULL at first, as in a record made by new; a writable record copied from C memory frees C's block |
| RecordString.FreesAreSound | xs/record_string.c:85-93 | whatever is done, every realloc and free, the destructor's included, is given NULL or an allocated block iff the record is read-only or the pointer found in it was so |
| RecordString.ReadsBackWhole | xs/record_string.c:100-103 | a string reads back whole iff it has no NUL inside |
| RecordString.StringMember.Realloc | xs/record_string.c:85-85 | realloc in place or moved |
| RecordString.StringMember.Access | xs/record_string.c:46-104 | set, undef, read, refusal on a read-only record |
| RecordString.StringMember.Destroy | lib/FFI/Platypus/Record.pm:449-460 | undef assigned unless the record is read-only |
| RecordString.AccessFixed | xs/record_string.c:106-164 | at most count bytes replaced, old tail kept, count bytes read back; undef and read-only refused |

## Left out

- CallEngine.Interp.Call: the engine keeps the protocol state (memory, `current_argv`, keepers, counts, pointer table); slot values, array contents and the values returned to Perl are in ArgumentBlock, ArrayMarshal, ByteOrder and ClosureTypes, apart from the nesting of calls.
- CallEngine.Interp.StoreArgument: how many blocks a pointer or array argument allocates is part of the input, not derived from the Perl value.
- CallEngine.Interp.ArgumentOut: write-back of pointer and array arguments changes nothing the engine keeps and is not a step here; ArrayMarshal has it for integer arrays.
- CallEngine.Interp.ArgumentsOut: likewise.
- CallEngine.Interp.Return: the value returned to Perl is not part of the state; ByteOrder has integer results.
- ArgumentBlock.SlotsAtForeignCall: is about the values in the block, apart from the nesting of calls.
- ArgumentBlock.Arguments.Set: an index outside the block is undefined behaviour in the original, which does not check it; the missing current block is in ArgumentsSet.
- ArgumentBlock.Arguments.Get: likewise; see ArgumentsGet.
- ArgumentBlock.ArgumentsSet: an index outside the block, as above.
- ArgumentBlock.ArgumentsGet: an index outside the block, as above.
- ArrayMarshal.CopyIn: integer elements only.
- ArrayMarshal.CopyOut: the block is a parameter; ArgumentBlock.BlockAtCopyOut says when the slot still leads to it.
- RecordString.StringMember.Access: a pointer that is neither NULL nor to an allocated block, which C may leave in a record it fills; FreesAreSound says what comes of it.
- ClosureTypes.PushedPointer: strings and records behind a pointer appear as their address; the bytes behind it are not read.
- Record.RecordBuffer.OpaqueArray: an index so far out that it leaves the memory around the record is undefined behaviour in the original.
- Record.RecordBuffer.Scalar: a float or double is given by the bit pattern it converts to, and the address realloc returns for a read-write string is part of the request; RecordString has the blocks.
- TypeOwnership.TypeStore.Destroy: at global destruction (`PL_dirty`) the original leaves libffi argument lists and descriptors to the end of the process.
- Exceptions thrown by handlers: nested calls are made inside an eval, and handlers themselves end normally.
- A closure variable reassigned while the call runs, references of the wrong kind, tied or magical values.
- Contents behind pointer arguments to single scalars, and write-back of opaque and string arrays.
- Float, complex and long double values; their slots and widths are modelled, their conversion is not.
- 32-bit pointers and 32-bit Perl integers: 8-byte pointers and 64-bit IVs are assumed.
- Cloning of interpreters (ithreads) and what a child thread finds in the closure cache.
- Function pointers kept by C after a closure object is gone, and cached trampolines outliving their type descriptor.
- Type creation that croaks half way, which leaks the descriptor in the original.
- The "Null record error" of accessors.
- `loaded_math_longdouble` and the loading of Math:: modules.
- The bodies of libffi, of the Perl interpreter and of C functions: they are inputs.
- Finding and loading libraries, ABIs, buffers, memory and build tools.
