# Verified model of dyncall's calling conventions

This project models the two halves of dyncall's calling conventions and the code around them, and
proves that the halves agree. For each ABI, `dyncall_callvm_*.c` places a stream of typed arguments in
register buffers and a byte vector, and `dyncall_args_*.c`, written independently and with other
counters, fetches them back inside a callback. What holds these together is only that they must
agree on every argument sequence, and that is what is proved here: for System V and Windows x64, ARM
hard-float, PowerPC 32 (Darwin and System V), PowerPC 64 (ELFv1 and ELFv2), Apple's arm64 and the x86
conventions. Around them stand the System V classifier of aggregates, aggregates returned by value, the
formatted call interpreter, the enumeration of the test generators, and Affix's struct marshalling.

Verify with `dafny verify dfyconfig.toml`.

## How it is built

- Each ABI has a module with the caller's and the callback's state as values, one function per step,
  and the lemmas: a relation between the two counter machines (`InStep`), what a register and stack
  image has to hold (`Holds`), that placing never destroys what an image holds of earlier states, and
  the round trip by induction over the arguments. A `...Machines` module has the classes whose methods
  update fields in place as the C code does; each method is proved to do what the function says, and
  `Transfer` runs a whole call on both.
- A scalar is the sequence of bytes the processor stores for it. Widening and truncation are done on
  bytes; integers that take part in arithmetic (`DCsize`, `int`) wrap explicitly.
- `Aggregate.dfy`, `Classify*.dfy`, `Classifier.dfy`, `CloseAggr.dfy`: aggregate descriptions and their
  System V classes; the code (`Classify`), the order of its fields (`ClassifyOrder`), the specification
  (`ClassifySpec`), the window of array elements (`ClassifyWindow`), bounds on
  classes (`ClassifyBounded`), what the loops visit (`ClassifySeen`), a condition on layouts
  (`Classifier`), and layouts in C (`ClassifyCases`). `SysV*.dfy`: System V AMD64. `Win64*.dfy`: Windows.
  `ArmHf*.dfy`, `Ppc32*.dfy`, `Ppc64*.dfy`, `Arm64Apple*.dfy`, `X86*.dfy`: the other ABIs. `CallF.dfy`,
  `FormattedCalls.dfy`: formatted calls. `CaseEnumeration.dfy`: test cases. `Marshalling*.dfy`,
  `Integers.dfy`: Affix. `Bytes.dfy`, `Vector.dfy`, `Arithmetic.dfy`, `Options.dfy`: shared ground.

## Where the code and its intent differ

- An append to the argument vector that does not fit is dropped without a trace, skips and alignments are
  not checked; so "the arguments fit" is a condition of every round trip.
- The System V classifier subtracts offsets as unsigned numbers. For a nested aggregate that starts
  inside the eightbyte examined the range of elements wraps, and the window is right exactly if the
  field starts at or before the eightbyte (`ClassifyWindow.WindowExactIff`). What the wrapped range does
  depends on the element size: for 1, 2, 4, 6, 7, 8, 10 and 13 it visits every overlapping element,
  after elements that are not there; for the others it visits none (`LateVisited`, `LateMissed`). So a
  late field adds the right class when none of its scalars is above it, as in a tagged union, and adds
  nothing when it is missed. `ClassifySeen.CodeMeetsSpecIff` says for every aggregate when the class is
  right, in terms of the leaves the loops visit; `Classifier.Sound` is a condition that can be read off
  offsets, sizes and types. `ClassifyCases` has two structs that come out wrong, and some that do not.
- An aggregate is passed up to the first eightbyte without a class. Padding is lost that way, and, with
  the right classes, scalars are lost exactly if that is the first eightbyte and the second has one
  (`SysVScalars.ScalarsArriveIff`, `GaplessIff`; `UpperDoubleLost` is such an aggregate).
- An array of no elements inside an eightbyte would count for its class (`ClassifyCases.EmptyArrayCounts`).
  C has such arrays only as flexible members, which dyncall.3 asks to omit, so a well-formed description
  has arrays of one element or more.
- An x86 thiscall callback takes `this` from ECX only if it is not null (`X86This.ThisIff`), and removes four
  bytes too many from the stack if its signature lists `this`, as the manual's do (`CleansTooMuch`).
- A callback on ARM hard-float looks for spilled floating-point arguments in the core registers that
  are left, while the caller puts them on the stack. `ArmHfConverse.RoundTripIff` gives the exact
  condition, which can be read off the argument types; nine doubles do not meet it.
- On PowerPC 64 ELFv2 a named argument that follows a vararg among the first eight arguments is not
  written to the stack, which does not skip its slot either. Every argument written after it is below
  its slot (`Ppc64Converse.SlotsIff`), and one that the callback reads from the stack does not arrive
  (`RoundTripIff`). Arguments in registers are not affected, so up to eight always arrive.
- For a signature that returns an aggregate the pre-scan of a formatted call leaves the VM in the
  signature's last mode, so arguments before the first mode prefix are passed under that mode
  (`FormattedCalls.AggregateResultModes`; `SwitchedTooEarly` is such a signature).
- `ptr2sv` reads `unsigned long` and `unsigned long long` through a signed integer; values from 2^63 on
  come back negative.

## Assumptions

- The assembly kernels hand registers and stack over unchanged, at a stack base aligned to 8 bytes
  (16 for Apple's arm64); that of thiscall moves the first word to ECX. Bytes beyond a modelled stack read as zero.
- Converting a float to double and back gives the float.
- `(x + a - 1) & -a` and similar masks are written as the arithmetic they perform.
- Perl's conversions between its numbers are parameters of the marshalling model, except that the
  integer a Perl value is stored from has the value's low 64 bits. The target is LP64 and little-endian.
- The divisions of the test generator and its powers are exact, although the program computes them in
  floating point.

## Model

| member | source | states |
|---|---|---|
| Vector.AppendExtends | dyncall/dyncall/dyncall_vector.c:32-40 | an append leaves the bytes below the size alone; what it appended is there if it fitted, otherwise nothing changed |
| Vector.CopyTo | dyncall/dyncall/dyncall_vector.c:32-52 | the byte loop stores exactly the given bytes at the given place and no others |
| Vector.DCVec.constructor | dyncall/dyncall/dyncall_vector.h:32-47 | a new vector is empty and has the capacity asked for |
| Vector.DCVec.Append | dyncall/dyncall/dyncall_vector.c:32-52 | the vector in place becomes what the append of its value is |
| Vector.DCVec.Resize | dyncall/dyncall/dyncall_vector.h:43 | only the size changes, unchecked |
| Vector.DCVec.Skip | dyncall/dyncall/dyncall_vector.h:44 | only the size changes, unchecked; skipped bytes keep what they held |
| Vector.DCVec.PutAt | dyncall/dyncall/dyncall_vector.h:45-46 | a store through the data pointer changes those bytes only |
| Aggregate.DCaggr.constructor | dyncall/dyncall/dyncall_aggregate.c:46-54 | a new description has its size, no fields, and alignment 0 |
| Aggregate.DCaggr.AddField | dyncall/dyncall/dyncall_aggregate.c:56-101 | the field is appended with the size and alignment of its type, the alignment is the maximum so far; nothing is checked, and well-formedness is kept exactly if the field lies inside |
| Aggregate.AlignmentIsPowerOfTwo | dyncall/dyncall/dyncall_aggregate.c:93-100 | at any nesting depth the alignment is 0, 1, 2, 4 or 8, so the classifier may mask with it |
| Aggregate.MaxAlignmentBound | dyncall/dyncall/dyncall_aggregate.c:96-100 | the alignment bounds that of every field, and some field has it |
| Classify.MergeIsJoin | dyncall/dyncall/dyncall_aggregate_x64.c:37-56 | merging classes is commutative, associative and idempotent, with NONE neutral and MEMORY absorbing |
| Classify.ClassForElements | dyncall/dyncall/dyncall_aggregate_x64.c:101-115 | the loop over array elements, with its unsigned and 32-bit conversions, computes the class of the field |
| Classify.ClassFor8Byte | dyncall/dyncall/dyncall_aggregate_x64.c:59-124 | the classifier as a loop with recursion computes the class its wrap-faithful recursive form gives |
| ClassifySpec.ExpectedConcat | dyncall/dyncall/dyncall_aggregate_x64.c:37-56 | the specified class of two groups of leaves is the merge of their classes |
| ClassifyOrder.FieldOrderIrrelevant | dyncall/dyncall/dyncall_aggregate_x64.c:63-121 | neither the order nor the repetition of fields changes the class the loop computes, although it returns early |
| ClassifyOrder.LoopIsHighest | dyncall/dyncall/dyncall_aggregate_x64.c:63-121 | from any field on, the loop merges the highest class of the remaining fields into what it has |
| ClassifyOrder.HighestIff | dyncall/dyncall/dyncall_aggregate_x64.c:63-121 | if some fields go unnoticed, the result is right exactly if a noticed field covers each of them |
| ClassifyWindow.WindowComplete | dyncall/dyncall/dyncall_aggregate_x64.c:105-111 | from a field that starts at or before the eightbyte, the element window visits every overlapping element and no element outside the array, if the array ends with the eightbyte or within 16 bytes |
| ClassifyWindow.WindowExactIff | dyncall/dyncall/dyncall_aggregate_x64.c:105-111 | within 16 bytes the window is right exactly if the field starts at or before the eightbyte; otherwise the subtraction wraps |
| ClassifyWindow.WindowNeedsBound | dyncall/dyncall/dyncall_aggregate_x64.c:105-111 | beyond that the window can miss an element |
| ClassifyWindow.WrappedQuotient | dyncall/dyncall/dyncall_aggregate_x64.c:105 | where the wrapped range starts: its sign depends on the element size alone |
| ClassifyWindow.LateVisited | dyncall/dyncall/dyncall_aggregate_x64.c:105-111 | for a field that starts inside the eightbyte, element sizes 1, 2, 4, 6, 7, 8, 10 and 13 have every overlapping element visited, after some before the array |
| ClassifyWindow.LateMissed | dyncall/dyncall/dyncall_aggregate_x64.c:105-111 | for the other sizes none is visited |
| ClassifyBounded.BoundedCode | dyncall/dyncall/dyncall_aggregate_x64.c:59-124 | wherever it is placed, an aligned aggregate none of whose scalars is above a class shows nothing above it |
| ClassifySeen.ClassOfSeen | dyncall/dyncall/dyncall_aggregate_x64.c:59-124 | the class the code computes is that of all leaves its loops visit, elements before an array included |
| ClassifySeen.CodeMeetsSpecIff | dyncall/dyncall/dyncall_aggregate_x64.c:59-124 | for every well-formed aggregate (of at most 2^31 bytes) the class of an eightbyte is that of the leaves overlapping it exactly if a leaf of that class is visited and no leaf visited that is not there calls for a higher one |
| ClassifySeen.PhantomSeen | dyncall/dyncall/dyncall_aggregate_x64.c:105-111 | the element just before a field that starts inside the eightbyte and is visited always shows, as far as it is not at a negative offset |
| ClassifySeen.PhantomWrong | dyncall/dyncall/dyncall_aggregate_x64.c:105-111 | so the class is wrong if a field shown there calls for a higher class than is due |
| Classifier.MissedFieldsIff | dyncall/dyncall/dyncall_aggregate_x64.c:59-124 | for sound and missed fields: right exactly if a sound field covers what each missed one calls for |
| Classifier.CodeMeetsSpec | dyncall/dyncall/dyncall_aggregate_x64.c:59-124 | a condition on offsets, sizes and types alone under which the class is right, at any nesting depth |
| Classifier.SoundIsRight | dyncall/dyncall/dyncall_aggregate_x64.c:59-124 | that condition implies the exact one |
| Classifier.FieldContribution | dyncall/dyncall/dyncall_aggregate_x64.c:63-121 | one turn of the loop adds the class of the leaves of the field, if it is sound |
| Classifier.MissedContribution | dyncall/dyncall/dyncall_aggregate_x64.c:101-115 | a field of which no element is visited adds nothing |
| Classifier.ElementsMeetSpec | dyncall/dyncall/dyncall_aggregate_x64.c:105-115 | a range of array elements adds the class of their leaves |
| Classifier.ArrayMeetsSpec | dyncall/dyncall/dyncall_aggregate_x64.c:101-115 | the elements outside the window contribute nothing, so the window stands for the whole array |
| Classifier.LateMeetsSpec | dyncall/dyncall/dyncall_aggregate_x64.c:101-115 | a field that starts inside the eightbyte adds the class of its leaves, if it is visited and none of its scalars is above that class |
| CloseAggr.Close | dyncall/dyncall/dyncall_aggregate_x64.c:127-147 | closing a description in place stores its classes and changes nothing else |
| CloseAggr.ClosedIsPassable | dyncall/dyncall/dyncall_aggregate_x64.c:127-147 | a closed description of a size that is a multiple of its alignment is what argument passing relies on: memory, or at most two slots the aggregate reaches, floating-point ones of 4 or 8 bytes |
| CloseAggr.ClosedMeetsSpecIff | dyncall/dyncall/dyncall_aggregate_x64.c:127-147 | the stored classes are those of section 3.2.3 of the psABI (a MEMORY eightbyte, or a size above 16, sends the whole to memory) exactly if the leaves visited are right |
| CloseAggr.ClosedMeetsSpec | dyncall/dyncall/dyncall_aggregate_x64.c:127-147 | and they are if the eightbytes looked at are sound |
| ClassifyCases.MissedElement | dyncall/dyncall/dyncall_aggregate_x64.c:105-111 | in struct { float; struct { int[3] } } the first eightbyte comes out SSE where INTEGER is specified |
| ClassifyCases.PhantomElement | dyncall/dyncall/dyncall_aggregate_x64.c:105-111 | in struct { float; struct { float, int } } it comes out INTEGER where SSE is specified |
| ClassifyCases.LateButRight | dyncall/dyncall/dyncall_aggregate_x64.c:105-111 | in struct { int; struct { int[3] } } the nested struct is missed as well, but the class is right |
| ClassifyCases.TaggedUnion | dyncall/dyncall/dyncall_aggregate_x64.c:101-115 | struct { int; union { int; float } } is sound, although the union starts late and has scalars of two classes |
| ClassifyCases.EmptyArrayCounts | dyncall/dyncall/dyncall_aggregate_x64.c:69-70 | an empty array inside the eightbyte would count with its class |
| SysVRoundTrip.NeverSplit | dyncall/dyncall/dyncall_callvm_x64.c:177-204 | an aggregate goes wholly to registers or wholly to a qword-aligned stack block, whether or not a return register is held back |
| SysVRoundTrip.EightbytesInRegisters | dyncall/dyncall/dyncall_callvm_x64.c:192-204 | an aggregate let into registers touches no stack, whatever its classes |
| SysVRoundTrip.PlaceAllKeeps | dyncall/dyncall/dyncall_callvm_x64.c:80-204 | what an image holds of a whole call it holds of each earlier state: nothing placed is overwritten |
| SysVRoundTrip.AggrStep | dyncall/dyncallback/dyncall_args_x64.c:77-135 | the callback takes the branch the caller took and stores exactly the covered bytes, or all of a stack aggregate, in the target |
| SysVRoundTrip.EightbytesStep | dyncall/dyncallback/dyncall_args_x64.c:108-134 | eightbyte by eightbyte both sides use the same registers, and the last is cut to size |
| SysVRoundTrip.Step | dyncall/dyncallback/dyncall_args_x64.c:34-135 | one fetch returns one argument and leaves both sides at the same registers and stack word; of an aggregate all bytes arrive through memory, the covered ones through registers |
| SysVRoundTrip.RoundTrip | dyncall/dyncallback/dyncall_args_x64.c:34-149 | every argument list that fits is fetched back, each aggregate as it travels at its place in the list, whatever lies behind it in memory |
| SysVScalars.NoClassIff | dyncall/dyncall/dyncall_aggregate_x64.c:127-147 | an eightbyte of an aggregate with the specified classes is stored without a class exactly if no scalar overlaps it |
| SysVScalars.ScalarsCoveredIff | dyncall/dyncall/dyncall_aggregate_x64.c:141-147 | the covered bytes hold every byte of every scalar, whatever the values, exactly if none is in an eightbyte without a class or behind one |
| SysVScalars.ScalarsArriveIff | dyncall/dyncallback/dyncall_args_x64.c:108-134 | exactly then a callback gets every scalar of an aggregate passed in registers, whatever its classes |
| SysVScalars.GaplessIff | dyncall/dyncall/dyncall_aggregate_x64.c:141-147 | with the specified classes that is so exactly if no eightbyte without a class comes before one with a class |
| SysVScalars.UpperDoubleLost | dyncall/dyncallback/dyncall_args_x64.c:108-134 | of struct { long : 64; double } nothing arrives: it takes no register and leaves the target as it was |
| SysVRoundTrip.FitsIgnoresContents | dyncall/dyncall/dyncall_callvm_x64.c:80-204 | whether a call fits depends on the argument types and not on register or stack contents |
| SysVMachines.DCCallVM.BeginAggr | dyncall/dyncall/dyncall_callvm_x64.c:249-263 | the first integer register is held back exactly for results in memory |
| SysVMachines.DCCallVM.ArgLongLong | dyncall/dyncall/dyncall_callvm_x64.c:80-92 | the register held back is stepped over; the value goes to the next one or to the stack |
| SysVMachines.DCCallVM.ArgDouble | dyncall/dyncall/dyncall_callvm_x64.c:124-137 | the value goes to the next SSE register or to the stack |
| SysVMachines.DCCallVM.ArgAggr | dyncall/dyncall/dyncall_callvm_x64.c:165-204 | counting, the all-or-nothing choice and both placements, in place |
| SysVMachines.DCCallVM.Arg | dyncall/dyncall/dyncall_callvm_x64.c:94-163 | the typed argument functions, in place |
| SysVMachines.DCArgs.ArgI64 | dyncall/dyncallback/dyncall_args_x64.c:34-43 | the callback side of an integer eightbyte, in place |
| SysVMachines.DCArgs.ArgF64 | dyncall/dyncallback/dyncall_args_x64.c:45-57 | the callback side of a floating-point eightbyte, in place |
| SysVMachines.DCArgs.ArgAggr | dyncall/dyncallback/dyncall_args_x64.c:77-135 | the callback side of an aggregate, in place; the description is consumed |
| SysVMachines.NeedsMemory | dyncall/dyncallback/dyncall_args_x64.c:93-105 | the counting loop decides as the caller does |
| SysVCalls.InitCallback | dyncall/dyncallback/dyncall_callback_x64.c:48-89 | the signature scan records the register of the hidden pointer, with or without a mode prefix |
| SysVCalls.CountArgChars | dyncall/dyncallback/dyncall_callback_x64.c:64-70 | the scan counts one aggregate for every description the arguments need |
| SysVCalls.HiddenPointerAgreed | dyncall/dyncallback/dyncall_callback_x64.c:64-88 | caller and callback agree for every signature, with or without a mode prefix, whether the result uses the hidden pointer, and in which register |
| SysVCalls.ImageHolds | dyncall/dyncall/dyncall_callvm_x64.c:278-298 | writing the hidden pointer overwrites no argument |
| SysVCalls.Exchange | dyncall/dyncall/dyncall_callvm_x64.c:80-298 | up to where the handler has its arguments, caller and callback have recorded the same register, and the description of the result is the next |
| SysVCalls.Transfer | dyncall/dyncall/dyncall_callvm_x64.c:80-298 | a whole call on both machines delivers every argument, each aggregate as the registers left by the arguments before it decide, and the address for a result in memory |
| SysVReturn.ReturnInRegisters | dyncall/dyncallback/dyncall_args_x64.c:166-185 | the result eightbytes are spread in order over the integer and the SSE registers |
| SysVReturn.CopyRegister | dyncall/dyncall/dyncall_callvm_x64.c:319-320 | the inner copy loop writes at most the bytes left, though its size counter wraps |
| SysVReturn.Reassemble | dyncall/dyncall/dyncall_callvm_x64.c:299-322 | the covered bytes of the result are written and no others |
| SysVReturn.ReturnAggr | dyncall/dyncallback/dyncall_args_x64.c:152-190 | the description after those of the arguments and the recorded register decide whether the result goes to the caller's buffer or to the result registers |
| SysVReturn.Call | dyncall/dyncall/dyncall_callvm_x64.c:80-322 | a whole call that returns an aggregate: the arguments arrive, and of the result the covered bytes, or all through the hidden pointer; nothing else in the buffer changes |
| ArmHfFirstFit.PlaceFloatFirstFit | dyncall/dyncall/dyncall_callvm_arm32_arm_armhf.c:94-107 | a float takes the lowest free single register, or finds none and goes to the stack |
| ArmHfFirstFit.PlaceDoubleFirstFit | dyncall/dyncall/dyncall_callvm_arm32_arm_armhf.c:109-131 | a double takes the lowest free even-odd pair; if there is none, no register stays free |
| ArmHfFirstFit.FetchFloatFirstFit | dyncall/dyncallback/dyncall_args_arm32.c:61-76 | the callback reads a float from the lowest free register |
| ArmHfFirstFit.FetchDoubleFirstFit | dyncall/dyncallback/dyncall_args_arm32.c:78-102 | the callback reads a double from the lowest free even-odd pair |
| ArmHfFirstFit.NoRegisterTwice | dyncall/dyncall/dyncall_callvm_arm32_arm_armhf.c:94-131 | in any run no register serves two arguments, and after the first spill none is back-filled |
| ArmHf.NextSingle | dyncall/dyncall/dyncall_callvm_arm32_arm_armhf.c:94-107 | the counters stay in the shape that denotes the free set |
| ArmHf.NextDouble | dyncall/dyncall/dyncall_callvm_arm32_arm_armhf.c:109-131 | the same, with the stack aligned for a spilled double |
| ArmHfRoundTrip.PlaceAllKeeps | dyncall/dyncall/dyncall_callvm_arm32_arm_armhf.c:61-131 | nothing placed is overwritten by later arguments |
| ArmHfRoundTrip.SpilledPair | dyncall/dyncallback/dyncall_args_arm32.c:31-59 | two words are read from the aligned stack when at most the last core register is left |
| ArmHfRoundTrip.Step | dyncall/dyncallback/dyncall_args_arm32.c:31-115 | one fetch returns one argument and keeps both sides in step, at a safe position |
| ArmHfRoundTrip.RoundTrip | dyncall/dyncallback/dyncall_args_arm32.c:31-115 | every list of arguments at safe positions is fetched back |
| ArmHfConverse.SameRead | dyncall/dyncallback/dyncall_args_arm32.c:61-102 | at an unsafe position the callback reads the same for two different values |
| ArmHfConverse.SafeOnceCoreIsFull | dyncall/dyncallback/dyncall_args_arm32.c:53-59 | once the core registers are used up every further argument is at a safe position |
| ArmHfConverse.RoundTripIff | dyncall/dyncallback/dyncall_args_arm32.c:31-115 | argument types all of whose values arrive are exactly those with safe positions |
| ArmHfConverse.NineDoublesLost | dyncall/dyncallback/dyncall_args_arm32.c:78-102 | of nine doubles some values do not arrive: the ninth is looked for in the core registers |
| ArmHfMachines.DCCallVM.ArgInt | dyncall/dyncall/dyncall_callvm_arm32_arm_armhf.c:61-75 | the core register or stack store, in place |
| ArmHfMachines.DCCallVM.ArgLongLong | dyncall/dyncall/dyncall_callvm_arm32_arm_armhf.c:77-92 | the even pair of core registers or the aligned stack, in place |
| ArmHfMachines.DCCallVM.ArgFloat | dyncall/dyncall/dyncall_callvm_arm32_arm_armhf.c:94-107 | the two counters and the register buffer, in place |
| ArmHfMachines.DCCallVM.ArgDouble | dyncall/dyncall/dyncall_callvm_arm32_arm_armhf.c:109-131 | the same for a double |
| ArmHfMachines.DCArgs.ArmAlign64 | dyncall/dyncallback/dyncall_args_arm32.c:31-50 | the callback aligns registers and stack pointer, in place |
| ArmHfMachines.DCArgs.ArmWord | dyncall/dyncallback/dyncall_args_arm32.c:53-59 | a word from a core register or the stack, in place |
| ArmHfMachines.DCArgs.ArmFloat | dyncall/dyncallback/dyncall_args_arm32.c:61-76 | a float, in place |
| ArmHfMachines.DCArgs.ArmDouble | dyncall/dyncallback/dyncall_args_arm32.c:78-102 | a double, in place |
| ArmHfMachines.DCArgs.ArmLongLong | dyncall/dyncallback/dyncall_args_arm32.c:105-115 | a long long, in place |
| ArmHfMachines.Transfer | dyncall/dyncall/dyncall_callvm_arm32_arm_armhf.c:52-150 | a whole call on both machines delivers every argument |
| Ppc32Darwin.PlaceMirrors | dyncall/dyncall/dyncall_callvm_ppc32.c:94-132 | every placement keeps the mirror: integer registers in use repeat the first stack words |
| Ppc32Darwin.PlaceAllMirrors | dyncall/dyncall/dyncall_callvm_ppc32.c:94-188 | the mirror holds in every reachable state |
| Ppc32Darwin.DoubleStep | dyncall/dyncallback/dyncall_args_ppc32.c:60-74 | the unconditional two-register skip agrees with the conditional one of the caller |
| Ppc32Darwin.RoundTrip | dyncall/dyncallback/dyncall_args_ppc32.c:29-89 | every argument list that fits is fetched back |
| Ppc32SysV.PairOrSlot | dyncall/dyncall/dyncall_callvm_ppc32.c:150-236 | no 64-bit value is split: it has an even-odd register pair, or an 8-aligned stack slot after the registers are closed |
| Ppc32SysV.PlaceAllCounts | dyncall/dyncall/dyncall_callvm_ppc32.c:104-236 | the stack size after a call is the one its argument types call for |
| Ppc32SysV.LongLongStep | dyncall/dyncallback/dyncall_args_ppc32_sysv.c:44-70 | odd-register skipping and stack alignment agree on both sides |
| Ppc32SysV.RoundTrip | dyncall/dyncallback/dyncall_args_ppc32_sysv.c:28-94 | every argument list that fits is fetched back |
| Ppc32Machines.DCCallVM.ArgDarwin | dyncall/dyncall/dyncall_callvm_ppc32.c:94-132 | the Darwin argument functions, in place |
| Ppc32Machines.DCCallVM.ArgSysV | dyncall/dyncall/dyncall_callvm_ppc32.c:104-236 | the System V argument functions, in place |
| Ppc32Machines.DCArgs.ArgDarwin | dyncall/dyncallback/dyncall_args_ppc32.c:29-89 | the Darwin fetch functions, in place |
| Ppc32Machines.DCArgs.ArgSysV | dyncall/dyncallback/dyncall_args_ppc32_sysv.c:28-94 | the System V fetch functions, in place |
| Ppc32Machines.TransferDarwin | dyncall/dyncall/dyncall_callvm_ppc32.c:84-282 | a whole Darwin call delivers every argument |
| Ppc32Machines.TransferSysV | dyncall/dyncall/dyncall_callvm_ppc32.c:84-288 | a whole System V call delivers every argument |
| Arm64Apple.SlotMinimal | dyncall/dyncall/dyncall_callvm_arm64_apple.c:50-60 | a spilled argument gets the first offset past the earlier ones that its width divides |
| Arm64Apple.Step | dyncall/dyncallback/dyncall_args_arm64_apple.c:50-153 | one fetch returns one argument and leaves offset and pointer equal |
| Arm64Apple.RoundTrip | dyncall/dyncallback/dyncall_args_arm64_apple.c:50-153 | every non-variadic argument list that fits is fetched back |
| Arm64Apple.PlaceAllKeeps | dyncall/dyncall/dyncall_callvm_arm64_apple.c:50-164 | nothing placed is overwritten by later arguments |
| Arm64AppleMachines.DCCallVM.Spill | dyncall/dyncall/dyncall_callvm_arm64_apple.c:50-60 | alignment and append, in place |
| Arm64AppleMachines.DCCallVM.Arg | dyncall/dyncall/dyncall_callvm_arm64_apple.c:85-164 | the typed argument functions, in place |
| Arm64AppleMachines.DCArgs.Arg | dyncall/dyncallback/dyncall_args_arm64_apple.c:50-153 | the typed fetch functions, in place |
| Arm64AppleMachines.Transfer | dyncall/dyncall/dyncall_callvm_arm64_apple.c:34-180 | a whole call delivers every argument |
| Win64.PointerHoldsAddress | dyncall/dyncall/dyncall_callvm_x64.c:208-224 | a copy passed by pointer is found again at the address the pointer holds |
| Win64.EndsOnlyApproach | dyncall/dyncall/dyncall_callvm_x64.c:206-224 | the stack end never falls and the lowest copy never rises |
| Win64.PlaceKeeps | dyncall/dyncall/dyncall_callvm_x64.c:206-224 | if the ends have not met, an argument overwrites no copy and no stack argument |
| Win64.NothingOverwritten | dyncall/dyncall/dyncall_callvm_x64.c:206-224 | if the ends have not met at the end, no step of the call overwrote anything |
| Win64.CopyStep | dyncall/dyncallback/dyncall_args_x64.c:137-145 | the callback reads the original bytes of an aggregate through its pointer |
| Win64.RoundTrip | dyncall/dyncallback/dyncall_args_x64.c:34-149 | every argument list whose final ends stay apart is fetched back |
| Win64Machines.DCCallVM.ArgWord | dyncall/dyncall/dyncall_callvm_x64.c:80-92 | the shared slot counter and the stack, in place |
| Win64Machines.DCCallVM.ArgCopy | dyncall/dyncall/dyncall_callvm_x64.c:213-224 | the copy below the earlier ones and its pointer, in place |
| Win64Machines.DCCallVM.Arg | dyncall/dyncall/dyncall_callvm_x64.c:94-224 | the typed argument functions, in place |
| Win64Machines.DCArgs.Arg | dyncall/dyncallback/dyncall_args_x64.c:34-149 | the fetch functions, in place |
| Win64Machines.Transfer | dyncall/dyncall/dyncall_callvm_x64.c:66-352 | a whole call delivers every argument, and the hidden pointer if there is one |
| Ppc64.PlaceSlots | dyncall/dyncall/dyncall_callvm_ppc64.c:89-216 | one argument keeps the slot discipline, and its stack copy, if it has one, is in its own doubleword unless a named argument followed a vararg before it |
| Ppc64.LateIff | dyncall/dyncall/dyncall_callvm_ppc64.c:89-216 | the stack falls behind its slots exactly if under ELFv2 a named argument follows a vararg among the first eight |
| Ppc64.CopyInItsSlot | dyncall/dyncall/dyncall_callvm_ppc64.c:89-216 | when the call is made, every stack copy written before that is at 8 times the position of its argument |
| Ppc64RoundTrip.Step | dyncall/dyncallback/dyncall_args_ppc64.c:32-93 | one fetch returns one argument and leaves both sides in step |
| Ppc64RoundTrip.RoundTrip | dyncall/dyncallback/dyncall_args_ppc64.c:32-93 | argument lists that do not make the stack fall behind are fetched back if they fit, under both ABIs and endiannesses |
| Ppc64RoundTrip.RegistersRoundTrip | dyncall/dyncallback/dyncall_args_ppc64.c:32-93 | lists read from registers alone are fetched back in any order of modes, with or without room for their copies |
| Ppc64Converse.SameInSlot | dyncall/dyncall/dyncall_callvm_ppc64.c:89-216 | once the stack is behind, the slot of an argument holds the same whatever its value |
| Ppc64Converse.RoundTripIff | dyncall/dyncallback/dyncall_args_ppc64.c:32-93 | argument types and modes all of whose values arrive are exactly those where no named argument follows a vararg among the first eight, or none is read from the stack |
| Ppc64Converse.SlotsIff | dyncall/dyncall/dyncall_callvm_ppc64.c:89-216 | and all copies are in their slots exactly if none is written after such an argument |
| Ppc64Converse.EightArrive | dyncall/dyncallback/dyncall_args_ppc64.c:32-93 | up to eight arguments arrive in any order of modes |
| Ppc64Converse.MixedLost | dyncall/dyncall/dyncall_callvm_ppc64.c:180-216 | under ELFv2 a vararg and then eight named arguments do not all arrive |
| Ppc64Machines.DCCallVM.Mode | dyncall/dyncall/dyncall_callvm_ppc64.c:363-396 | only ELFv2 has a function table of its own for varargs |
| Ppc64Machines.DCCallVM.ArgLongLong | dyncall/dyncall/dyncall_callvm_ppc64.c:180-200 | register, lazy skip and append, in place |
| Ppc64Machines.DCCallVM.ArgLongLongEllipsis | dyncall/dyncall/dyncall_callvm_ppc64.c:203-215 | the varargs form, in place |
| Ppc64Machines.DCCallVM.ArgFloating | dyncall/dyncall/dyncall_callvm_ppc64.c:89-167 | floats and doubles, in place |
| Ppc64Machines.DCCallVM.ArgDoubleEllipsis | dyncall/dyncall/dyncall_callvm_ppc64.c:114-174 | the varargs form, which also serves floats, in place |
| Ppc64Machines.DCArgs.ArgLongLong | dyncall/dyncallback/dyncall_args_ppc64.c:32-42 | the integer fetch, in place |
| Ppc64Machines.DCArgs.ArgDouble | dyncall/dyncallback/dyncall_args_ppc64.c:54-69 | the double fetch, in place |
| Ppc64Machines.DCArgs.ArgFloat | dyncall/dyncallback/dyncall_args_ppc64.c:71-93 | the float fetch, in place |
| Ppc64Machines.Transfer | dyncall/dyncall/dyncall_callvm_ppc64.c:69-264 | a whole call delivers every argument, named or variadic, under the exact condition on their order |
| X86.CleanupSizeStd | dyncall/dyncallback/dyncall_callback_x86.c:56-85 | the stdcall scan computes the cleanup of the types up to the end of the argument list |
| X86.CleanupSizeFastMs | dyncall/dyncallback/dyncall_callback_x86.c:120-157 | the same for Microsoft fastcall |
| X86.CleanupSizeFastGnu | dyncall/dyncallback/dyncall_callback_x86.c:159-185 | the same for GNU fastcall |
| X86.CleanupSizeThisMs | dyncall/dyncallback/dyncall_callback_x86.c:87-118 | the thiscall scan adds up the same as that of stdcall |
| X86.InitCallback | dyncall/dyncallback/dyncall_callback_x86.c:188-233 | the prefix selects the table of fetch functions and the cleanup, thiscall included; for other modes both stay unset |
| X86.CleanupIsPushed | dyncall/dyncallback/dyncall_callback_x86.c:56-185 | the cleanup of a signature is what the caller pushes beyond the registers for arguments of its types |
| X86.Found | dyncall/dyncall/dyncall_callvm_x86.c:305-448 | an argument is in the register or at the stack offset the callback turns to |
| X86.RoundTrip | dyncall/dyncallback/dyncall_args_x86.c:59-121 | every argument list that fits is fetched back, and the stack pointer ends where the vector does |
| X86.ThreeWayAgreement | dyncall/dyncallback/dyncall_callback_x86.c:56-185 | bytes pushed beyond ECX and EDX, bytes consumed and bytes removed are equal, for stdcall and both fastcalls |
| X86Machines.DCCallVM.ArgInt | dyncall/dyncall/dyncall_callvm_x86.c:71-77 | integers of all conventions, in place |
| X86Machines.DCCallVM.ArgLongLong | dyncall/dyncall/dyncall_callvm_x86.c:443-448 | a long long closes the registers of GNU fastcall, in place |
| X86Machines.DCArgs.I32 | dyncall/dyncallback/dyncall_args_x86.c:59-109 | the integer fetch, in place |
| X86Machines.DCArgs.I64 | dyncall/dyncallback/dyncall_args_x86.c:64-119 | the long long fetch, in place |
| X86Machines.Transfer | dyncall/dyncall/dyncall_callvm_x86.c:62-448 | a whole call to a callback made for a signature: the arguments arrive and the three counts are one |
| X86This.ThisIff | dyncall/dyncallback/dyncall_args_x86.c:87-99 | a thiscall delivers `this` from ECX and all other arguments, and consumes what was pushed, exactly if `this` is not null |
| X86This.CleansTooMuch | dyncall/dyncallback/dyncall_callback_x86.c:87-118 | the callback removes four bytes more than were pushed if its signature lists `this`, and what was pushed if it does not |
| X86This.ThisArgs.I32 | dyncall/dyncallback/dyncall_args_x86.c:89-97 | the integer fetch of thiscall, in place |
| CallF.TokensOfRender | dyncall/dyncall/dyncall_callf.c:42-73 | reading a signature gives the types and modes it was written from, even if a mode character is also a type character |
| CallF.HandleMode | dyncall/dyncall/dyncall_callf.c:31-38 | the mode character is taken only if another character follows |
| CallF.ArgOne | dyncall/dyncall/dyncall_callf.c:46-71 | one type character reads its varargs with the types they were passed with |
| CallF.ArgF | dyncall/dyncall/dyncall_callf.c:42-73 | the argument pass makes exactly the calls the signature asks for and consumes exactly its varargs |
| CallF.ScanOne | dyncall/dyncall/dyncall_callf.c:112-136 | the grouped switch of the pre-scan reads the same varargs |
| CallF.Scan | dyncall/dyncall/dyncall_callf.c:110-137 | the pre-scan sets the modes of the signature and keeps the last aggregate pair |
| FormattedCalls.Lockstep | dyncall/dyncall/dyncall_callf.c:42-137 | both passes meet every token at the same signature position and vararg |
| FormattedCalls.KeepsLastTwo | dyncall/dyncall/dyncall_callf.c:131-135 | the pair kept is the two varargs after those of the argument list, even among other aggregates |
| FormattedCalls.Prepare | dyncall/dyncall/dyncall_callf.c:99-141 | only a signature that ends in an aggregate is pre-scanned |
| FormattedCalls.VCallF | dyncall/dyncall/dyncall_callf.c:97-170 | what a formatted call does to the VM, call by call |
| FormattedCalls.InitialModeMatters | dyncall/dyncall/dyncall_callf.c:42-73 | the initial mode matters exactly to arguments before the first mode switch |
| FormattedCalls.AggregateResultModes | dyncall/dyncall/dyncall_callf.c:97-145 | exactly when the pre-scan leaves the modes of the arguments as they would be without it |
| FormattedCalls.SwitchedTooEarly | dyncall/dyncall/dyncall_callf.c:97-145 | with an aggregate result the first int of "i_.i" is passed in varargs mode |
| CaseEnumeration.Horner | dyncall/test/suite/mkcase.py:40-44 | the sum of powers in its recursive form |
| CaseEnumeration.EncodeDecode | dyncall/test/suite/mkcase.py:56-61 | every case number decodes to types and encodes back |
| CaseEnumeration.DecodeEncode | dyncall/test/suite/mkcase.py:56-61 | every type sequence is the decoding of its number |
| CaseEnumeration.LengthBound | dyncall/test/suite/mkcase.py:46-61 | a case has at most n types exactly if its number is at most powerfact |
| CaseEnumeration.Bijection | dyncall/test/suite/mkcase.py:40-66 | case numbers and sequences of at most n types correspond one to one |
| CaseEnumeration.Generate | dyncall/test/suite/mkcase.py:46-66 | the generator emits every sequence of at most n types once |
| CaseEnumeration.Selects | dyncall/test/ellipsis/main.cc:96-116 | the decode loop fills the array without running past it |
| Integers.SignedIff | lib/Affix/marshal.cxx:140-148 | an integer stored in n bytes comes back as signed exactly if it fits |
| Integers.UnsignedIff | lib/Affix/marshal.cxx:163-171 | and as unsigned exactly if it fits |
| Marshalling.Sv2Ptr | lib/Affix/marshal.cxx:3-469 | storing in place is the specified function of memory; it croaks exactly where that has no value |
| Marshalling.Sv2PtrFields | lib/Affix/marshal.cxx:441-469 | the loop over the fields, in place |
| Marshalling.Ptr2Sv | lib/Affix/marshal.cxx:526-572 | the value read, by recursion over nested structs |
| MarshallingRoundTrip.ScalarIff | lib/Affix/marshal.cxx:534-572 | a scalar comes back exactly if its type can carry it |
| MarshallingRoundTrip.UpperHalfLost | lib/Affix/marshal.cxx:558-566 | the upper half of unsigned long and unsigned long long comes back negative |
| MarshallingRoundTrip.PaddingKept | lib/Affix/marshal.cxx:441-469 | no byte outside of a scalar is written, at any depth |
| MarshallingRoundTrip.ReadsExtent | lib/Affix/marshal.cxx:682-714 | reading depends on the bytes of the type alone |
| MarshallingRoundTrip.RoundTripIff | lib/Affix/marshal.cxx:441-714 | exactly the values a nested struct type can carry are stored and read back |
| MarshallingRoundTrip.MemoryRoundTripIff | lib/Affix/marshal.cxx:441-469 | the same for memory that is allocated, whose padding is zero |
| MarshallingRoundTrip.ThereAndBack | lib/Affix/marshal.cxx:441-714 | marshalling to new memory and back, as the program does it |

## Left out

- Classifier.CodeMeetsSpec: is sufficient, not necessary; the exact condition is that of `ClassifySeen.CodeMeetsSpecIff`.
- Classifier.MissedFieldsIff: is about aggregates whose fields are sound or missed, for which it says more than the general
  condition does.
- CloseAggr.ClosedMeetsSpec: has the condition of `Classifier.CodeMeetsSpec`; the exact one is in `ClosedMeetsSpecIff`.
- Aggregate.DCaggr.AddField: more fields than announced, for which the program does not check, are the caller's
  obligation; offsets are not negative.
- X86.InitCallback: the platform's default thiscall, `*`, is treated as not selected, as on compilers other than
  Microsoft's.
- Marshalling.Sv2Ptr: characters, wide characters, strings, pointers, code references, unions and array data of the cited
  lines are not modelled; scalars of all widths and nested structs are.
- Marshalling.Ptr2Sv: likewise, and void.
- Sub-aggregates are values, so a description changed after it was nested is not modelled.
- Return values of Windows x64 callbacks, and scalar return values everywhere.
- The MIPS, SPARC, plain arm64 and soft-float ARM conventions, system calls and Plan 9.
- The variadic variants of Apple's arm64 and ARM hard-float.
- Call kernels, thunks, executable memory, and the loading of libraries and symbols.
- x87 and SSEUP classes, and the disabled full version of the classifier.
- The description of aggregates that Affix derives from its types.
- The Perl glue that defines types, pins variables and wraps functions.
