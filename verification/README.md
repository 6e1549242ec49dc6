# Verified models of KLEE's execution engine

KLEE runs a program on symbolic inputs: it builds bit-vector expressions, collects a
path condition for every execution state, forks states at branches, merges them again,
and keeps their memory byte by byte. This project models the parts of that engine whose
correctness is hard to see from the code, in Dafny, and proves what they are for.

An *assignment* gives a value to every symbolic input. Almost every claim has the form
"under every assignment": an expression is worth the value it evaluates to, a path
condition is the set of assignments that satisfy it, a memory object denotes one plain
byte array per assignment. The solver is an exact oracle over those sets; where the
engine allows a query to time out, so does the model.

| file | what it models |
|---|---|
| `Bits.dfy`, `Expr.dfy`, `Operators.dfy` | bit-vector arithmetic on naturals; expressions, arrays, update chains and their evaluation; what each operator means bit by bit |
| `Create.dfy`, `CreateMeaning.dfy`, `Shortcuts.dfy`, `Canonical.dfy`, `CreateLoops.dfy` | the smart constructors: termination, meaning, what they save, canonical form, and their loops |
| `Visitor.dfy`, `Constraints.dfy` | the memoising expression visitor and the constraint set that rewrites itself |
| `ByteArray.dfy`, `Memory.dfy`, `MemoryRun.dfy` | the byte-level object cache against a plain byte array |
| `AddressSpace.dfy`, `Resolve.dfy` | copy-on-write ownership and the search for the objects a pointer may lie in |
| `StateMerge.dfy`, `MergeProtocol.dfy`, `MergeRun.dfy` | merging two states, and the protocol that pauses and releases states to be merged |
| `Fork.dfy`, `PTree.dfy`, `Subpath.dfy` | forking and switch lowering, the process tree, the subpath-guided scheduler |
| `MinDist.dfy`, `CallPath.dfy`, `PhiCleaner.dfy` | the shortest-distance fixpoint, call-path summaries, the PHI ordering pass |
| `UpdateList.dfy`, `KTest.dfy`, `KTestFormat.dfy` | reference-counted update lists; the writer and reader of test cases, and their file format |
| `Options.dfy` | the option type |

Code that only computes is modelled by functions; code that changes state is modelled by
classes and methods with loops, each proved against a function or a relation that says
what it achieves. Methods named `Run` (and the lemmas `MergeProtocol.RunIsSafe` and
`MergeRuns.RunMirrors`) carry the theorems about whole runs.

Three choices about behaviour the sources leave open: division by zero yields the
dividend and remainder by zero yields zero; a shift by the width or more yields zero, or
the sign for an arithmetic shift; the assignment also decides what a read past the end of
an array yields. Nothing that is proved about defined behaviour depends on them.

Where code and documentation disagree the model follows the code. The documented limit of
`resolve` is not kept when it is 1 (`Resolve.ResolveBeyondLimit` lists two objects;
`Resolve.LimitOfOneKept` says exactly when it is kept), and the test-case writer reports
failure for records it should accept, as the reader does for their complete files: exactly
those with an empty argument, name or body (`KTests.File.ToFile`, `KTests.ReadsBackIff`;
`KTests.EmptyArgumentIsLost` gives one).

## Model

| member | source | states |
|---|---|---|
| `Operators.BitMeaning` | klee/lib/Expr/Expr.cpp:372-452 | under every assignment each bit of a concatenation, extraction, extension, complement, choice, conjunction, disjunction, exclusive or or shift is the bit of the operands it should be: the sign bit repeated above an extended value, the sign bit moved in by an arithmetic shift |
| `Operators.BitsDetermine` | klee/lib/Expr/Expr.cpp:372-452 | two values of one width with the same bits are equal, so the bits say all |
| `Operators.ArithmeticMeaning` | klee/lib/Expr/Expr.cpp:394-492 | under every assignment sums, differences, products, quotients, remainders and comparisons satisfy the laws that determine them; signed order is unsigned order with the top bits flipped |
| `Operators.SignedDivision` | klee/lib/Expr/Expr.cpp:414-424 | signed quotient and remainder give the dividend back, the remainder is smaller than the divisor and has the sign of the dividend, and the one quotient out of range wraps |
| `Operators.SignedMeaning` | klee/lib/Expr/Expr.cpp:478-492 | the signed reading of a value is the one number of the signed range congruent to it |
| `Operators.SignExtendBits` | klee/lib/Expr/Expr.cpp:390-392 | every bit above the old width is the old top bit, and the others stay |
| `Create.AddCreate` | klee/lib/Expr/Expr.cpp:747-794 | the mutually recursive sum constructors terminate on every pair of operands of one width, and the result has that width and is no heavier than the plain node, which is what the termination of constraint rewriting rests on |
| `Create.SubCreate` | klee/lib/Expr/Expr.cpp:795-843 | the same for differences |
| `Create.EqCreate` | klee/lib/Expr/Expr.cpp:1036-1155 | equality, with its descent through extensions, sums, differences and disjunctions, terminates and yields one bit no heavier than the plain node |
| `Create.ConcatCreate` | klee/lib/Expr/Expr.cpp:619-641 | concatenation has the sum of the widths, also when adjacent extracts are joined, and is no heavier than the plain node |
| `Create.ExtractCreate` | klee/lib/Expr/Expr.cpp:671-699 | extraction through a concatenation ends, with the width asked for and no more weight than the plain node |
| `Create.ReadCreate` | klee/lib/Expr/Expr.cpp:533-586 | a read is one byte wide and no heavier than the read of the whole chain |
| `Shortcuts.ConstantsFold` | klee/lib/Expr/Expr.cpp:976-1034 | every operator on constants yields a constant |
| `Shortcuts.ArithmeticUnits` | klee/lib/Expr/Expr.cpp:747-869 | zero vanishes from sums, one from products, and a product with zero is zero, on either side |
| `Shortcuts.LogicalUnits` | klee/lib/Expr/Expr.cpp:871-918 | neutral and absorbing operands of conjunction, disjunction and exclusive or, on either side, leave the other operand or the constant |
| `Shortcuts.Negations` | klee/lib/Expr/Expr.cpp:1076-1104 | a doubly negated bit is the bit, and a negated disjunction is the conjunction of the negations |
| `Shortcuts.SelfDifference` | klee/lib/Expr/Expr.cpp:818-825 | an expression minus itself is zero, except for single bits, where the exclusive or is not simplified |
| `Shortcuts.OutOfRange` | klee/lib/Expr/Expr.cpp:1105-1130 | a constant outside the range of an extended value is at once unequal to it |
| `Shortcuts.NoChoice` | klee/lib/Expr/Expr.cpp:588-617 | a choice between equals, or under a known condition, is no choice |
| `Shortcuts.PartsOfConcat` | klee/lib/Expr/Expr.cpp:671-699 | extracting either part of a concatenation gives the operand back |
| `Shortcuts.SplitAndJoin` | klee/lib/Expr/Expr.cpp:619-699 | two extracts that make up the whole, joined, are the whole |
| `Shortcuts.ReadJustWritten` | klee/lib/Expr/Expr.cpp:533-586 | a read at the index just written, symbolic or not, is the value written |
| `Shortcuts.ReadPastWrite` | klee/lib/Expr/Expr.cpp:533-586 | a read in bounds at a constant index passes over a write at another one |
| `CreateMeaning.AddMeaning` | klee/lib/Expr/Expr.cpp:747-794 | under every assignment the rewritten sum equals the wrapped sum of the operands |
| `CreateMeaning.SubMeaning` | klee/lib/Expr/Expr.cpp:795-843 | under every assignment the rewritten difference equals the wrapped difference |
| `CreateMeaning.MulMeaning` | klee/lib/Expr/Expr.cpp:845-869 | under every assignment the product equals the wrapped product, including one-bit products |
| `CreateMeaning.AndMeaning` | klee/lib/Expr/Expr.cpp:871-885 | conjunction with constants folded keeps its value |
| `CreateMeaning.OrMeaning` | klee/lib/Expr/Expr.cpp:887-901 | disjunction with constants folded keeps its value |
| `CreateMeaning.XorMeaning` | klee/lib/Expr/Expr.cpp:903-918 | exclusive or keeps its value, including the one-bit rewriting to an equality |
| `CreateMeaning.DivRemMeaning` | klee/lib/Expr/Expr.cpp:920-950 | signed and unsigned division and remainder keep their value, including the one-bit cases |
| `CreateMeaning.ShiftMeaning` | klee/lib/Expr/Expr.cpp:952-966 | logical shifts keep their value, including the one-bit cases |
| `CreateMeaning.AShrMeaning` | klee/lib/Expr/Expr.cpp:968-974 | arithmetic shift keeps its value; of one bit it is the bit itself |
| `CreateMeaning.EqMeaning` | klee/lib/Expr/Expr.cpp:1036-1155 | under every assignment the rewritten equality is 1 exactly if the operands are equal |
| `CreateMeaning.IsZeroMeaning` | klee/lib/Expr/Expr.cpp:319-321 | the zero test is 1 exactly if the operand is 0 |
| `CreateMeaning.UltMeaning` | klee/lib/Expr/Expr.cpp:1176-1183 | unsigned less-than keeps its value, including the one-bit case |
| `CreateMeaning.UleMeaning` | klee/lib/Expr/Expr.cpp:1185-1191 | unsigned less-or-equal keeps its value, including the one-bit case |
| `CreateMeaning.SltMeaning` | klee/lib/Expr/Expr.cpp:1193-1199 | signed less-than keeps its value, including the one-bit case where 1 is below 0 |
| `CreateMeaning.SleMeaning` | klee/lib/Expr/Expr.cpp:1201-1207 | signed less-or-equal keeps its value, including the one-bit case |
| `CreateMeaning.CompareMeaning` | klee/lib/Expr/Expr.cpp:1157-1174 | the other comparisons, built by swapping or negating, keep their value |
| `CreateMeaning.BinaryMeaning` | klee/lib/Expr/Expr.cpp:976-1034 | for every binary operator: the constructor evaluates, under every assignment, to the operator applied to the values of its arguments |
| `CreateMeaning.ConcatMeaning` | klee/lib/Expr/Expr.cpp:619-641 | concatenation keeps its value when two extracts of neighbouring bits become one |
| `CreateMeaning.ExtractMeaning` | klee/lib/Expr/Expr.cpp:671-699 | extraction keeps its value when pushed into one or both sides of a concatenation |
| `CreateMeaning.ZExtMeaning` | klee/lib/Expr/Expr.cpp:711-722 | zero extension, or truncation when narrower, keeps its value |
| `CreateMeaning.SExtMeaning` | klee/lib/Expr/Expr.cpp:724-735 | sign extension, or truncation when narrower, keeps its value |
| `CreateMeaning.NotMeaning` | klee/lib/Expr/Expr.cpp:701-707 | complement keeps its value |
| `CreateMeaning.SelectMeaning` | klee/lib/Expr/Expr.cpp:588-617 | a choice keeps its value under every one-bit rewriting |
| `CreateMeaning.ReadMeaning` | klee/lib/Expr/Expr.cpp:533-586 | a read evaluates as the read of the whole update chain, although writes that cannot match were rolled back and constant cells folded |
| `CreateLoops.ReadLoop` | klee/lib/Expr/Expr.cpp:533-586 | the loop over the update chain, newest write first, computes the recursive read |
| `CreateLoops.ConcatLoop` | klee/lib/Expr/Expr.cpp:643-653 | the loop that joins many parts from the right computes their concatenation |
| `CreateLoops.ConstArrayEq` | klee/lib/Expr/Expr.cpp:1049-1074 | the disjunction over matching cells equals the comparison for every in-range index, and never claims equality beyond the array; a symbolic or written array, or one with more than a hundred matching cells, keeps the plain equality |
| `Canonical.AddCanon` | klee/lib/Expr/Expr.cpp:747-794 | canonical operands give a canonical sum: constants only on the left, and no constant-left sum or difference directly beneath another |
| `Canonical.SubCanon` | klee/lib/Expr/Expr.cpp:795-843 | the same for differences, and a difference with one constant side is not itself constant |
| `Canonical.BinaryCanon` | klee/lib/Expr/Expr.cpp:976-1034 | every binary constructor maps canonical operands to canonical results |
| `Canonical.EqCanon` | klee/lib/Expr/Expr.cpp:1036-1155 | equality maps canonical operands to canonical results |
| `Canonical.ExtractCanon` | klee/lib/Expr/Expr.cpp:671-699 | extraction keeps canonical form |
| `Canonical.ConcatCanon` | klee/lib/Expr/Expr.cpp:619-641 | concatenation keeps canonical form |
| `Canonical.SelectCanon` | klee/lib/Expr/Expr.cpp:588-617 | choices keep canonical form |
| `Canonical.ReadCanon` | klee/lib/Expr/Expr.cpp:533-586 | reads keep canonical form of the index and of every write kept |
| `Visitors.Visit` | klee/lib/Expr/ExprVisitor.cpp:42-127 | rebuilding and re-visiting ends, and the result has the same width and no more weight |
| `Visitors.RebuildMeaning` | klee/lib/Expr/ExprVisitor.cpp:42-127 | rebuilding a node from parts of equal value keeps its value |
| `Visitors.VisitCanon` | klee/lib/Expr/ExprVisitor.cpp:42-127 | a visit that replaces by constants maps a canonical expression to a canonical one |
| `Visitors.VisitMeaning` | klee/lib/Expr/Constraints.cpp:33-75 | under every assignment that agrees with the replacements, the replaced expression has the value of the original |
| `Visitors.VisitNormal` | klee/lib/Expr/Constraints.cpp:55-75 | the visitor that visits rebuilt nodes again leaves no part that is still a key of its table |
| `Visitors.VisitKey` | klee/lib/Expr/Constraints.cpp:55-75 | an expression none of whose proper parts is a key is replaced by its constant if it is a key itself, and stays otherwise |
| `Visitors.VisitChanges` | klee/lib/Expr/Constraints.cpp:33-53 | replacing one expression changes exactly the expressions it is a part of, and turns the expression itself into its replacement |
| `Visitors.ExprVisitor.VisitMemo` | klee/lib/Expr/ExprVisitor.cpp:26-40 | the memo table never changes an answer: a remembered result is the one a fresh visit would give |
| `Visitors.ExprVisitor.VisitActual` | klee/lib/Expr/ExprVisitor.cpp:42-127 | the visit with its loop over the kids computes the recursive specification |
| `Constraints.ConstraintManager.RewriteConstraints` | klee/lib/Expr/Constraints.cpp:77-97 | rewriting the whole list under a pending equality keeps its solutions among the assignments where that equality holds, does not make the list heavier, reports a change exactly if some constraint has the replaced expression as a part, and stops only on a contradiction |
| `Constraints.ConstraintManager.AddConstraintInternal` | klee/lib/Expr/Constraints.cpp:127-165 | exactly the assignments that satisfied the list and the constraint satisfy the new list; the recursion with the rewriting ends because the pending equality is not in the list; the false-constraint assertion is reached only if no assignment is left; a list without constants and conjunctions stays so, and a constraint joins the list as it is unless it fixes something the list mentions, which makes the list lighter first |
| `Constraints.ConstraintManager.SimplifyExpr` | klee/lib/Expr/Constraints.cpp:102-125 | the simplified expression has the value of the original under every assignment that satisfies the constraints, is canonical if the original is, and has no part left that a constraint fixes; an expression that is fixed as a whole, and in no proper part, becomes the constant of the first constraint on it |
| `Constraints.PartsComeFirst` | klee/lib/Expr/Constraints.cpp:55-75 | an expression a constraint fixes need not become that constant if one of its parts is fixed too: a concrete sum of two cells |
| `Constraints.ConstraintManager.AddConstraint` | klee/lib/Expr/Constraints.cpp:167-170 | adding a constraint keeps exactly the old solutions that satisfy it, fails only if there is none, and keeps the set canonical |
| `ByteArrays.LoadOrder` | klee/lib/Core/Memory.cpp:496-512 | byte i of a value read is the i-th byte of the access in a little-endian object and the i-th last in a big-endian one; a boolean is the lowest bit of its byte |
| `ByteArrays.StoreOrder` | klee/lib/Core/Memory.cpp:541-596 | byte i of a value written lands in the i-th byte of the access in a little-endian object and in the i-th last in a big-endian one, and no other byte changes |
| `ByteArrays.ReadBack` | klee/lib/Core/Memory.cpp:496-572 | on the plain array, for one bit or any whole number of bytes and either byte order, a value written is the value read |
| `ByteArrays.ReadApart` | klee/lib/Core/Memory.cpp:496-572 | on the plain array, a write does not disturb a read of other bytes |
| `Memory.ObjectState.Concrete` | klee/lib/Core/Memory.cpp:97-117 | a new concrete object satisfies the cache invariant and denotes its store |
| `Memory.ObjectState.Symbolic` | klee/lib/Core/Memory.cpp:119-133 | a symbolic object denotes the bytes of its array under every assignment |
| `Memory.ObjectState.Copy` | klee/lib/Core/Memory.cpp:135-157 | a copy denotes the same bytes under every assignment and shares no storage |
| `Memory.ObjectState.GetUpdates` | klee/lib/Core/Memory.cpp:183-232 | building the constant root lazily changes no denoted byte |
| `Memory.BuildConstantRoot` | klee/lib/Core/Memory.cpp:183-232 | folding the oldest constant writes into a constant array and keeping the rest of the chain reads the same at every index |
| `Memory.ObjectState.FlushRangeForRead` | klee/lib/Core/Memory.cpp:299-317 | writing pending bytes to the update chain for a symbolic read changes no denoted byte |
| `Memory.ObjectState.FlushRangeForWrite` | klee/lib/Core/Memory.cpp:319-347 | flushing before a symbolic write changes no denoted byte and leaves every byte of the range to the chain |
| `Memory.ObjectState.Read8` | klee/lib/Core/Memory.cpp:399-410 | a byte read at a constant offset evaluates to the byte denoted there, and is that constant if the byte is concrete |
| `Memory.ObjectState.Read8Symbolic` | klee/lib/Core/Memory.cpp:412-427 | a byte read at a symbolic offset evaluates, wherever the offset is in bounds, to the byte denoted there |
| `Memory.ObjectState.Write8` | klee/lib/Core/Memory.cpp:429-436 | writing a constant byte changes that denoted byte and no other |
| `Memory.ObjectState.Write8Expr` | klee/lib/Core/Memory.cpp:438-448 | writing a symbolic byte changes that denoted byte to its value and no other; the byte is concrete exactly if a constant was written |
| `Memory.ObjectState.Write8Symbolic` | klee/lib/Core/Memory.cpp:450-465 | writing at a symbolic offset changes, under each assignment, the byte the offset denotes and no other |
| `Memory.ObjectState.Read` | klee/lib/Core/Memory.cpp:469-494 | a read of any access width evaluates to the value loaded from the denoted bytes, and is canonical, so it can be the next offset |
| `Memory.ObjectState.ReadAt` | klee/lib/Core/Memory.cpp:496-512 | the byte loop at a constant offset loads the value in the object's byte order |
| `Memory.ObjectState.Write` | klee/lib/Core/Memory.cpp:514-539 | a write of any access width stores the value's bytes in the denoted array, under every assignment that keeps it in bounds |
| `Memory.ObjectState.WriteAt` | klee/lib/Core/Memory.cpp:541-572 | the write at a constant offset, word by word or byte by byte, stores the value |
| `Memory.ObjectState.WriteWord` | klee/lib/Core/Memory.cpp:574-596 | the word-sized fast writes store the same bytes as the general loop |
| `Memory.ObjectState.InitializeToZero` | klee/lib/Core/Memory.cpp:271-274 | afterwards every denoted byte is zero |
| `Memory.ObjectState.InitializeToRandom` | klee/lib/Core/Memory.cpp:276-282 | afterwards the object denotes the fixed fill byte everywhere |
| `MemoryRuns.Perform` | klee/lib/Core/Memory.cpp:469-596 | one access keeps the object in step with the plain array, and a read yields the loaded value in canonical form |
| `MemoryRuns.Run` | klee/lib/Core/Memory.cpp:284-596 | for every sequence of reads, writes, initialisations and copies, each chosen after what was read before, so that pointers may come from memory: under every assignment that keeps them in bounds the object denotes the plain array after the same accesses, and everything read evaluates to what the plain array gives |
| `AddressSpaces.ForkIsolated` | klee/lib/Core/AddressSpace.h:66-67 | after a fork parent and child have one equal new key, every object either of them binds is owned strictly below it, and neither sees a change |
| `AddressSpaces.BindIsolated` | klee/lib/Core/AddressSpace.cpp:22-26 | binding an unowned object keeps owners of shared objects below the keys of all who share them |
| `AddressSpaces.UnbindIsolated` | klee/lib/Core/AddressSpace.cpp:28-30 | unbinding keeps the ownership invariant and hides the object from one space only |
| `AddressSpaces.GetWriteableIsolated` | klee/lib/Core/AddressSpace.cpp:38-50 | afterwards the object bound is the space's own and bound nowhere else, with unchanged contents everywhere; a copy is made only if the space did not own it before |
| `AddressSpaces.StoreIsolated` | klee/lib/Core/AddressSpace.cpp:38-50 | a write to an owned object is seen through that binding only |
| `AddressSpaces.Machine.WriteObject` | klee/lib/Core/AddressSpace.cpp:38-50 | a write through one address space is seen by it and by no other |
| `AddressSpaces.Machine.Run` | klee/lib/Core/AddressSpace.cpp:22-50 | over every run of forks, binds, unbinds and writes on any number of address spaces, shared memory cannot be told from private copies |
| `Resolve.InBoundsInterval` | klee/lib/Core/Memory.h:128-135 | the wrapping offset check accepts exactly the addresses of the object |
| `Resolve.ResolveConcrete` | klee/lib/Core/AddressSpace.cpp:54-71 | a constant address resolves to the object that contains it, and fails only if none does |
| `Resolve.CheckPointerInObject` | klee/lib/Core/AddressSpace.cpp:163-195 | lists an object exactly if the pointer may lie in it, and reports completion only if it must |
| `Resolve.ResolvePointer` | klee/lib/Core/AddressSpace.cpp:197-277 | an answer reported complete lists, without repeats, exactly the objects the pointer may lie in, despite both early exits and the one-object shortcut; an incomplete one lists only such objects, and without time-outs it has reached the limit; a limit of two or more is kept |
| `Resolve.LimitOfOneIsNotKept` | klee/lib/Core/AddressSpace.cpp:180-192 | a limit of one is not enforced: the exact answer for two objects has two entries |
| `Resolve.ResolveBeyondLimit` | klee/lib/Core/AddressSpace.cpp:180-192 | the search, without time-outs and with a limit of one, lists both of two objects |
| `Resolve.LimitOfOneKept` | klee/lib/Core/AddressSpace.cpp:180-192 | an exact answer respects a limit of one exactly if the pointer may lie in one object at most |
| `Resolve.ResolveOne` | klee/lib/Core/AddressSpace.cpp:73-161 | finds an object the pointer may lie in, and fails exactly if there is none |
| `StateMerge.MergeObject` | klee/lib/Core/ExecutionState.cpp:355-360 | merged bytes are the first state's where its suffix holds, the second's elsewhere |
| `StateMerge.MergeCopy` | klee/lib/Core/ExecutionState.cpp:355-360 | an object the first state does not own is not touched: a fresh copy with this state's key takes the merged bytes |
| `StateMerge.MergeBinding` | klee/lib/Core/ExecutionState.cpp:346-361 | an object bound to both is left alone, one not owned is copied and keeps what it holds, an owned one is merged in place, and the other state's object keeps its bytes |
| `StateMerge.MergeMemory` | klee/lib/Core/ExecutionState.cpp:346-361 | every object of the merged memory denotes the first state's bytes where its suffix holds and the second's elsewhere, objects the first state does not own or shares hold what they held, and the second state is undisturbed |
| `StateMerge.Conjoin` | klee/lib/Core/ExecutionState.cpp:316-323 | the conjunction of a set of constraints holds exactly where all of them do |
| `StateMerge.Distinguish` | klee/lib/Core/ExecutionState.cpp:237-249 | common constraints with either suffix hold exactly where one state's constraints do, and there the first suffix holds exactly in the first state |
| `StateMerge.SuffixDecides` | klee/lib/Core/ExecutionState.cpp:237-249 | given the constraints of either state, the suffix of the first tells whether the first state's constraints hold |
| `StateMerge.MergeStack` | klee/lib/Core/ExecutionState.cpp:329-344 | each register set in both frames becomes the choice between the two values |
| `StateMerge.MergeConstraints` | klee/lib/Core/ExecutionState.cpp:363-367 | the new set is satisfied exactly by assignments of the common part that satisfy one of the suffixes, and no assertion fails on the way |
| `StateMerge.ExecutionState.Merge` | klee/lib/Core/ExecutionState.cpp:211-370 | the merge succeeds exactly if place, inputs, bindings and, frame by frame, caller and function agree, and otherwise touches neither state; on success an assignment is possible exactly if it was in one of the states, every register set in both and every byte has the first state's value where that was possible and the second's elsewhere, callers, functions, place, inputs, names and key stay, and objects not owned keep what they hold |
| `MergeProtocol.SomeRunnable` | klee/lib/Core/MergeHandler.cpp:70-152 | following waiting states to ever newer handlers ends at a runnable state |
| `MergeProtocol.NoDeadlock` | klee/lib/Core/Searcher.h:252-277 | while any state is paused some state can run, and every paused state waits in a handler that a state still has on its stack |
| `MergeProtocol.OpenKeeps` | klee/lib/Core/SpecialFunctionHandler.cpp:353-366 | opening a region keeps every invariant of the protocol |
| `MergeProtocol.ForkKeeps` | klee/lib/Core/ExecutionState.cpp:160-162 | copying a state registers the copy with each inherited handler and keeps every invariant |
| `MergeProtocol.Pop` | klee/lib/Core/ExecutionState.cpp:113-115 | leaving the newest handler keeps every invariant and frees the waiting states of a handler that nothing holds any more, and no others |
| `MergeProtocol.Wait` | klee/lib/Core/MergeHandler.cpp:81-120 | a state that does not merge waits in exactly its newest handler, and every invariant holds again after the handler's last reference has gone |
| `MergeProtocol.CloseStep` | klee/lib/Core/SpecialFunctionHandler.cpp:368-392 | a close without an open changes nothing; a state that merges with one that waits at this instruction of its newest handler is gone with its references; any other waits there unless that handler died and let it go |
| `MergeProtocol.Terminate` | klee/lib/Core/ExecutionState.cpp:103-119 | a finished state leaves every handler; exactly the waiting places in surviving handlers remain |
| `MergeProtocol.RunIsSafe` | klee/lib/Core/SpecialFunctionHandler.cpp:353-392 | after any run of open, fork, close, terminate and release steps: a handler lives exactly while some state has it on its stack, each paused state waits in exactly one place, and while a state is paused another can run |
| `MergeRuns.RunMirrors` | klee/lib/Core/MergeHandler.cpp:70-152 | over every run, handlers, reference counts and paused states amount to a plain account of who is inside which regions and who waits where: a place is given up when everyone has left its region |
| `MergeProtocol.LastCloseReleases` | klee/lib/Core/MergeHandler.cpp:143-152 | when the last state of a region closes it, the handler is gone and everyone who waited there is runnable |
| `MergeProtocol.PausedAddsNothing` | klee/lib/Core/SpecialFunctionHandler.cpp:368-392 | a step that leaves its state paused adds and removes no state, and no step adds a state that is paused |
| `MergeProtocol.UpdateDropsNothing` | klee/lib/Core/Searcher.h:268-277 | although an update is not forwarded while the current state is paused, the base searcher has exactly the runnable states after it |
| `MergeProtocol.MergingSearcher.ReleaseWaiting` | klee/lib/Core/MergeHandler.cpp:122-130 | the loop continues each waiting state once, and each is still paused when its turn comes |
| `MergeProtocol.MergingSearcher.PauseState` | klee/lib/Core/Searcher.h:252-256 | a state that is not paused yet leaves the base searcher and is paused |
| `MergeProtocol.MergingSearcher.ContinueState` | klee/lib/Core/Searcher.h:259-264 | a paused state returns to the base searcher |
| `MergeProtocol.MergingSearcher.PopStack` | klee/lib/Core/MergeHandler.cpp:143-152 | a handler is destroyed with its last reference, after taking itself off the merge groups and releasing its states |
| `MergeProtocol.MergingSearcher.HandleOpenMerge` | klee/lib/Core/SpecialFunctionHandler.cpp:353-366 | the open instruction takes the protocol's open step |
| `MergeProtocol.MergingSearcher.HandleCloseMerge` | klee/lib/Core/SpecialFunctionHandler.cpp:368-392 | the close instruction, step by step, takes the protocol's close step, and its assertions hold |
| `MergeProtocol.MergingSearcher.CopyState` | klee/lib/Core/ExecutionState.cpp:121-164 | the loop over the copied stack takes the protocol's fork step |
| `MergeProtocol.MergingSearcher.TerminateCurrent` | klee/lib/Core/ExecutionState.cpp:103-119 | the loop that drops the stack takes the protocol's terminate step |
| `Forking.SplitKeepsPartition` | klee/lib/Core/Executor.cpp:983-1220 | splitting one state into parts that partition it keeps the partition of the initial assignments |
| `Forking.Executor.Split` | klee/lib/Core/ExecutionState.cpp:166-177 | the copy takes the assignments without the condition, and both states go on at the old block one level deeper |
| `Forking.Executor.Fork` | klee/lib/Core/Executor.cpp:983-1220 | the sides returned have exactly the assignments with and without the condition and go on at the old block, one level deeper exactly if both are possible; a single missing side had none, both are missing exactly after a time-out or at the depth limit, and in every case the states form a split of the old one |
| `Forking.Executor.Branch` | klee/lib/Core/Executor.cpp:892-981 | way i has exactly the assignments of the old state that satisfy condition i, whichever copies were taken from which; the ways go on at the old block and share its part of the search, a half for each level |
| `Forking.OrderCases` | klee/lib/Core/Executor.cpp:1913-1921 | the table finds the first case of every value, as concrete lookup does |
| `Forking.CollectTargets` | klee/lib/Core/Executor.cpp:1923-1966 | after the loop each target's condition holds exactly for the possible assignments whose case leads there, and the default condition exactly for the rest |
| `Forking.LowerSwitch` | klee/lib/Core/Executor.cpp:1923-1990 | each possible assignment satisfies the condition of the block it would take and of no other, and every condition is possible |
| `Forking.Executor.Switch` | klee/lib/Core/Executor.cpp:1904-2002 | the ways split the state and share its part of the search, and every assignment ends up in the block concrete execution would take |
| `Forking.Executor.AccessObjects` | klee/lib/Core/Executor.cpp:4115-4155 | each object takes exactly the assignments for which it is the first in bounds, the error state has exactly those in bounds of none, together they split the state and go on at its block; the answer is complete unless a fork on the way timed out or met the depth limit; of these states exactly those bound to an object go on, writes to read-only objects excepted |
| `Forking.Executor.TerminateState` | klee/lib/Core/Executor.cpp:3504-3535 | one state stops being live and no other does |
| `Forking.Executor.UpdateStates` | klee/lib/Core/Executor.cpp:2832-2870 | merging the lists of new and removed states changes no state's liveness |
| `Forking.Executor.Perform` | klee/lib/Core/Executor.cpp:892-1220 | one event on a live state does what the fork, switch, access or termination promises, on a dead one nothing, and keeps every partition of initial assignments |
| `Forking.Executor.Run` | klee/lib/Core/Executor.cpp:892-1220 | every run takes its forks, switches, accesses, terminations and updates of the searcher one after another, and after all of them every initial assignment follows exactly one live or finished state and every state is feasible |
| `MinDist.SettledIsOptimal` | klee/lib/Core/StatsTracker.cpp:880-932 | where no instruction can be improved, no execution is cheaper than the distance found |
| `MinDist.FixpointIsLeast` | klee/lib/Core/StatsTracker.cpp:880-932 | at a fixpoint every distance is the least cost of a properly nested execution to the return, and 0 exactly if there is none; control passes from a terminator to the starts of its successor blocks and from any other instruction to the next |
| `MinDist.FindSmallest` | klee/lib/Core/StatsTracker.cpp:888-915 | the loop over targets or successors finds the smallest reachable sum |
| `MinDist.StatsTracker.Relax` | klee/lib/Core/StatsTracker.cpp:884-930 | a change is witnessed by an execution and lowers the measure; no change means the instruction is settled |
| `MinDist.StatsTracker.Sweep` | klee/lib/Core/StatsTracker.cpp:876-931 | a sweep without change settles every instruction; a sweep with change lowers the measure |
| `MinDist.StatsTracker.ComputeMinDistToReturn` | klee/lib/Core/StatsTracker.cpp:844-932 | the repeated in-place sweep ends, and every instruction then has the least cost of an execution to its function's return, 0 exactly if there is none |
| `PTrees.BranchTree` | klee/lib/Core/PTree.cpp:24-30 | a fork keeps the links both ways and the pairing of leaves and live states |
| `PTrees.BranchWeighed` | klee/lib/Core/ExecutionState.cpp:166-177 | a fork keeps weight two to the minus depth and a total weight of one |
| `PTrees.UnlinkTree` | klee/lib/Core/PTree.cpp:32-46 | freeing a childless node keeps the links both ways, and its parent is the only node that may now be empty |
| `PTrees.AnyFlips` | klee/lib/Core/Searcher.cpp:283-296 | the coin flips can be any sequence at all: some 32-bit random numbers show it |
| `PTrees.EveryStateIsSelectable` | klee/lib/Core/Searcher.cpp:277-298 | for every live state some random numbers lead the walk to it |
| `PTrees.InvMeans` | klee/lib/Core/PTree.cpp:20-46 | while states live the leaves are exactly the live states, one to one, and no node is empty |
| `PTrees.PTree.Fork` | klee/lib/Core/Executor.cpp:1140-1183 | both states are live one level deeper and share the old weight, and every other state stands where it stood |
| `PTrees.PTree.Remove` | klee/lib/Core/PTree.cpp:32-46 | exactly this state stops being live, depths and weights stay, and every ancestor with nothing below it is gone while states live |
| `PTrees.PTree.SelectState` | klee/lib/Core/Searcher.cpp:277-298 | the walk ends at a live state: the one the coin flips lead to, drawn 32 at a time from the most significant bit |
| `PTrees.PTree.Run` | klee/lib/Core/PTree.cpp:20-46 | after any run of forks and removals the live states, their depths and their weights are those the events prescribe, the leaves are the live states, and the weights of live and finished states sum to one |
| `PhiCleaner.Reorder` | klee/lib/Module/PhiCleaner.cpp:36-52 | the entries are those of the original PHI in the order of the first one |
| `PhiCleaner.PhisInOrder` | klee/lib/Core/Executor.cpp:2125-2129 | PHIs that read no earlier result read, in sequence, what was there before the first |
| `PhiCleaner.CleanEdge` | klee/lib/Core/Executor.cpp:1664-1686 | for a clean block, an edge and any environment, running the moves and then the PHIs in order with one operand index has the effect of the original PHIs at once |
| `PhiCleaner.Cleaner.CleanOperand` | klee/lib/Module/PhiCleaner.cpp:54-75 | an operand that reads an earlier PHI is replaced by a temporary that holds its old value, and no other operand is touched |
| `PhiCleaner.Cleaner.CleanAt` | klee/lib/Module/PhiCleaner.cpp:22-79 | the block is clean afterwards and other blocks' PHIs are untouched |
| `PhiCleaner.Cleaner.RunOnFunction` | klee/lib/Module/PhiCleaner.cpp:18-83 | after the pass, for every block that had PHIs, every edge into it that they name (self loops too) and every environment, execution in order equals simultaneous execution of the original PHIs; no PHI is lost, and the moves change no register of the original program |
| `Subpaths.GetSubpath` | klee/lib/Core/Executor.cpp:3025-3033 | the loop returns the latest branches in their order: two to the index of them, or all if there are fewer |
| `Subpaths.WaitingBound` | klee/lib/Core/Searcher.cpp:742-781 | while a subpath waits its count stands still and whatever is selected instead exceeds it by at most one |
| `Subpaths.Fairness` | klee/lib/Core/Searcher.cpp:742-781 | a subpath in the pool with count c is passed over at most c plus one times for each other subpath selected meanwhile |
| `Subpaths.SubpathGuidedSearcher.Candidates` | klee/lib/Core/Searcher.cpp:742-765 | the candidates are exactly the states whose subpath has the smallest count of the pool |
| `Subpaths.SubpathGuidedSearcher.SelectState` | klee/lib/Core/Searcher.cpp:742-781 | the selection is one of the least selected, and counts stay equal to past selections |
| `Subpaths.SubpathGuidedSearcher.IncSubpath` | klee/lib/Core/Executor.cpp:3043-3049 | one count goes up by one, a missing count starting from zero |
| `Subpaths.SubpathGuidedSearcher.Update` | klee/lib/Core/Searcher.cpp:783-810 | new states join and each removed state leaves once |
| `UpdateLists.CountedIsReachable` | klee/lib/Expr/Updates.cpp:16-35 | a node with an exact positive count is reachable from some list |
| `UpdateLists.NothingLeaks` | klee/lib/Expr/Updates.cpp:62-133 | between operations the nodes that exist are exactly those some list can reach |
| `UpdateLists.DeleteKeeps` | klee/lib/Expr/Updates.cpp:128-132 | freeing a node with its last reference keeps every count exact, its own link being the next reference to drop |
| `UpdateLists.Heap.TryFreeNodes` | klee/lib/Expr/Updates.cpp:78-133 | drops one reference, keeps every other count exact, and frees a chain only as far as nothing else holds it |
| `UpdateLists.Heap.Construct` | klee/lib/Expr/Updates.cpp:62-66 | the new list has the writes of the chain it is headed at and no list changes |
| `UpdateLists.Heap.Copy` | klee/lib/Expr/Updates.cpp:68-72 | the copy has the writes of the original and no list changes |
| `UpdateLists.Heap.Assign` | klee/lib/Expr/Updates.cpp:135-143 | the list gets the other's writes, also when assigned to itself, no other list changes, and exactly the unreachable nodes are freed |
| `UpdateLists.Heap.Extend` | klee/lib/Expr/Updates.cpp:145-155 | one write is added in front for this list only, with exact counts |
| `UpdateLists.Heap.Destroy` | klee/lib/Expr/Updates.cpp:74-76 | exactly the nodes no other list can reach are freed, and no other list changes |
| `UpdateLists.Heap.Run` | klee/lib/Expr/Updates.cpp:16-155 | over every run of construct, copy, assign, extend and destroy, every count is the lists headed at the node plus the nodes pointing to it, and every list has the writes it would have without sharing |
| `CallPaths.CallPathManager.ComputeCallPath` | klee/lib/Core/CallPathManager.cpp:61-72 | returns a node with the key at or above the parent if there is one, and else appends one whose key is new on its path |
| `CallPaths.CallPathManager.GetCallPath` | klee/lib/Core/CallPathManager.cpp:74-89 | no key repeats along any parent chain, the node found has the key, and asking again finds the same node |
| `CallPaths.HitsOnce` | klee/lib/Core/CallPathManager.cpp:61-72 | on any path from the root a key appears at most once |
| `CallPaths.EntryCountsOnce` | klee/lib/Core/CallPathManager.cpp:44-59 | summing subtree sums over the nodes with a key counts each node at or below one exactly once |
| `CallPaths.CallPathManager.GetSummaryStatistics` | klee/lib/Core/CallPathManager.cpp:44-59 | every summary is the sum over the node's subtree, every table entry the sum over all nodes at or below its key, each once, and the root's summary adds to what it had |
| `KTestFormat.CompleteFileLaidOut` | klee/lib/Basic/KTest.cpp:194-236 | every field of a complete file lies at its place: the magic letters, version 3, and then counts, lengths and bytes of arguments and objects, numbers most significant byte first |
| `KTestFormat.AcceptsExactly` | klee/lib/Basic/KTest.cpp:95-148 | a record is read from exactly the files with a known header and a version up to 3 in which nothing is empty, whatever follows; versions below 2 have no argv fields, and strings end at their first zero byte |
| `KTests.U32RoundTrip` | klee/lib/Basic/KTest.cpp:26-41 | four bytes written are read back as the same number |
| `KTests.StrRoundTrip` | klee/lib/Basic/KTest.cpp:43-63 | a non-empty C string is read back and the stream is left after it |
| `KTests.RoundTrip` | klee/lib/Basic/KTest.cpp:95-236 | reading a complete file gives the record back, with the version of the format |
| `KTests.EncodeIsInjective` | klee/lib/Basic/KTest.cpp:194-236 | records with the same file differ at most in their version |
| `KTests.ReadsBackIff` | klee/lib/Basic/KTest.cpp:43-63 | a complete file can be read if and only if no argument, name or object body is empty |
| `KTests.EmptyArgumentIsLost` | klee/lib/Basic/KTest.cpp:43-63 | the record with one empty argument is well formed, and its complete file cannot be read |
| `KTests.File.ToFile` | klee/lib/Basic/KTest.cpp:194-236 | success is reported exactly if no argument, name or object body is empty, and then the file is complete |
| `KTests.File.FromFile` | klee/lib/Basic/KTest.cpp:95-148 | the reader with its loops accepts exactly what the specification parses, old header and old versions included |
| `KTests.WriteThenRead` | klee/lib/Basic/KTest.cpp:95-236 | writing succeeds exactly if nothing is empty, and then reading returns the record |

## Left out

- The choice of solver, its caches and its queries: the solver is an exact oracle that may time out.
- Floating-point instructions and the `APFloat` conversions.
- CreateLoops.ConstArrayEq: modelled beside `Create.EqPartialR`, not inside it; equality is modelled with the constant-array option off, as in the default configuration.
- Hash values of expressions and update nodes, and the structural comparison order: expressions are compared by structure, and results that depend only on the order are stated for any order.
- Symbolic index and value widths other than a 32-bit domain and an 8-bit range of arrays.
- Uniqueness of generated array names, and the 32-bit wrap-around of the copy-on-write key: keys are unbounded.
- Reference counts of memory objects (`ObjectHolder`), and raw memory: `copyOutConcretes`, `copyInConcretes`, errno, mmap and malloc.
- Resolve.ResolvePointer: the wall-clock check at each step is folded into the time-outs of the queries; objects are assumed disjoint and not wrapping, as the allocator provides them.
- Forking.Executor.Fork: seeds, replay, fork limits, forced concretisation and implied-value concretisation are not modelled; the depth limit and query time-outs are.
- Forking.Executor.Branch: the fork limit, which keeps one random way, is not modelled.
- MergeProtocol.MergingSearcher: the vectors of open, waiting and paused states are sets, since every state occurs in them once; the running mean that decides when to release states early is replaced by releasing at any time; states are not killed from outside while they wait; forked states enter the base searcher at once, not with the update that ends the step (`MergeProtocol.UpdateDropsNothing` relates the two).
- MinDist.StatsTracker: distances are unbounded, and the second fixpoint, for the distance to uncovered instructions, is not modelled.
- PTrees.PTree: weights are exact reals; seed mode, which changes weights, is not modelled.
- Subpaths.SubpathGuidedSearcher: feature-extraction mode, in which another searcher counts, is not modelled; counts are unbounded.
- CallPaths.CallPathManager: a statistics record is one counter, since every counter is summed in the same way.
- KTests.File: the device never fails and memory is always available.
- The learned searchers, feature vectors, the weighted random searcher and the time-budget searchers.
- `ArrayExprOptimizer`, `ImpliedValue`, `ExternalDispatcher`, the other module passes, printers, parsers, statistics output and command-line options.
