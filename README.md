# pecunia in Dafny

pecunia prices financial contracts on a recombining binomial lattice. A contract is a
tree of `At(time)` leaves and `And`/`Or` nodes, which sum or take the element-wise maximum
of their children. Children may also be plain numbers. `from_graph` compiles the tree into
the bytecode of a generator function, `evolve(t, x, v)`:

- It first sorts the tree's elements into buckets keyed by resolution time.
- For each bucket, latest first, it writes:
  - a drain loop that hands `v` back unchanged while the lattice time is later than the bucket's;
  - the code of the bucket's elements, children before parents;
  - a yield of the bucket's value.

`present_value` then walks the lattice backwards from expiry. At each level it narrows the
price vector, discounts the value vector under the risk-neutral probabilities, and sends
`(time, x, v)` into the evolution, which sends back the contract's values.

The model has eight modules:

| file | module | what it models |
|---|---|---|
| `outcomes.dfy` | `Outcomes` | The exceptions the code can raise, and the `Result`/`Option` wrappers. |
| `atoms.py` → `atoms.dfy` | `Atoms` | The contract terms. The resolution time, including the `ValueError` of a `min` over nothing. The fragment each callable node writes, with `node(b)` as a module-level method `Call` that takes the builder and appends to it. |
| `code_builder.py` → `bytecode.dfy` | `Bytecode` | `CodeBuilder` as a class over a byte sequence and its two interning maps, with one method per emitter. `extend_arg` is a loop. Opcodes are abstract symbols and `stack_effect` is a function parameter. `replace` is a pure function giving `co_stacksize` and `co_lnotab`. |
| `generate.py` lines 16-35 → `schedule.dfy` | `Schedule` | The worklist loop as a method, proved against the pop order of the tree and a scan over it. The bucket dict keeps its insertion order. The descending sort of the buckets. |
| `generate.py` lines 32-68 → `emitter.dfy` | `Emitter` | The layout of the program, the drain loop's jump arithmetic, and `from_graph` as a method that drives the builder. |
| `shape.dfy` | `Shape` | Properties of the whole program: yield count, locals, resumes, jump targets, and a contract whose program as written loops for ever. |
| `stack_machine.dfy` | `StackMachine` | A stack semantics for the calls that node code is made of, and the value a tree's code computes. |
| `binomial_tree.py` → `binomial_tree.dfy` | `BinomialTree` | `present_value` as a method with a loop, proved against a recursive function of the evolution's history. Also the lattice algebra. |

How some things are represented:

- The evolution generator is a function from the history of triples sent to it to what it yields next, or the exception it raises.
- The exponentials `exp(-r dt)` and `exp(sigma sqrt(dt))` are inputs (`z`, `u`). Everything else is exact arithmetic over the reals.
- `Timed` is a tuple and `time` a cached property, so the terms are immutable datatypes and `Time` is a function.

Where the code and its design description differ, the model follows the code:

- A composite with no timed child raises `ValueError` from `min`. The description says it has no time. The model raises `NoTimedChild`, and the error also propagates through parents, because `hasattr` only swallows `AttributeError`.
- Constants are pushed on the work list and scheduled like the nodes. The description says they are not pushed. A constant lands in the bucket of the element popped just before it, which may not be its parent's.
- A constant root leaves `time` unbound (`UnboundTime`).
- `present_value` validates nothing. `steps == 0` divides by zero (`ZeroSteps`).
- The description has the program fold later dates' values into earlier nodes by backward induction. The code does not do this once a composite's children resolve at different times:
  - Node code loads only `x` and constants; it never reads `v`.
  - A bucket's value is popped by its own yield, and the resume that follows leaves the stack empty.
  - So the composite's fragment pops operands that were never pushed. For `Or((At(2.0), At(1.0)))`, the 1.0 bucket is `[Or, At(1.0)]`, and its code underflows (`StackMachine.TwoDatesUnderflow`). The model reports `StackUnderflow`; CPython does not check the value stack at run time.

## Model

| member | source | states |
|---|---|---|
| Atoms.Time | src/pecunia/atoms.py:8-20 | Only a constant lacks a `time` attribute. `At(t).time` is `t`. |
| Atoms.MinFromSpec | src/pecunia/atoms.py:20 | A running `min` raises iff an entry raises, or nothing has a time and no minimum was seen yet. Otherwise it is one of the values seen and no larger than any of them. |
| Atoms.EarliestSpec | src/pecunia/atoms.py:20 | `min` over the timed entries raises iff one raises or none has a time. Otherwise it is the least time and equals one of them. |
| Atoms.TimeOfComposite | src/pecunia/atoms.py:17-20 | A composite raises iff a child raises or every child is a constant. Otherwise its time is at most every timed child's time and equals one of them. |
| Atoms.Call | src/pecunia/atoms.py:12-44 | `node(b)` appends exactly its fragment to the builder: `load_fast x`, `binary_add`, or `build_tuple 2; load_const maximum; swap; call_function_ex 0`. It stops at the first call that raises. |
| Bytecode.NoPrefixBelow128 | src/pecunia/code_builder.py:46 | `extend_arg` writes no prefix iff the argument is below 128. |
| Bytecode.PrefixOfHighByte | src/pecunia/code_builder.py:46 | An argument in 128..255 gets exactly one `EXTENDED_ARG 0` prefix and is its own low byte. |
| Bytecode.LeadingZeroPrefix | src/pecunia/code_builder.py:45-49 | The first prefix byte is `0` iff the bit length is a positive multiple of 8 (128..255, 32768..65535, ...); otherwise any first prefix is non-zero. |
| Bytecode.ExtendArgFits | src/pecunia/code_builder.py:46 | The argument fits in `bit_length // 8 + 1` bytes, so `to_bytes` never overflows. |
| Bytecode.ToBytesRoundTrip | src/pecunia/code_builder.py:46 | Reading big-endian bytes back gives the number that was split. |
| Bytecode.SplitRoundTrip | src/pecunia/code_builder.py:45-50 | `bit_length // 8` prefix bytes and the returned byte are each below 256, and read big-endian they give the argument back. |
| Bytecode.InternProperties | src/pecunia/code_builder.py:57-65 | `setdefault(key, len(table))`: an existing key keeps its index. A new key gets the next free index, and the table grows by exactly that entry. Old entries stay put and indices stay dense and distinct. |
| Bytecode.LoadStoreSameSlot | src/pecunia/code_builder.py:57-79 | `load_fast` and `store_fast` share one table: storing a name just loaded writes the same slot index and adds no entry. |
| Bytecode.PairShape | src/pecunia/code_builder.py:25-43 | A plain emitter appends exactly the pair (opcode, argument) iff the argument is in 0..255. Otherwise only the opcode went in before `append` raised. |
| Bytecode.JumpShape | src/pecunia/code_builder.py:52-55 | A jump writes its prefix pairs first and the real opcode last, in `bit_length // 8 + 1` pairs. It never fails. The prefix bytes and the low byte reconstruct the target. |
| Bytecode.EncodeProperties | src/pecunia/code_builder.py:25-91 | A call that succeeds appends `Size(i)` bytes in whole pairs. Only an index or count outside 0..255 makes it fail, after one opcode byte. The tables stay dense and keep every entry. |
| Bytecode.EncodeAllSize | src/pecunia/code_builder.py:25-91 | A sequence of calls that succeeds leaves a buffer of whole pairs, whose length is the sum of the calls' sizes. |
| Bytecode.EncodeAllKeepsNames | src/pecunia/code_builder.py:57-79 | Calls that only use names already interned leave the names table unchanged. |
| Bytecode.CodeBuilder.constructor | src/pecunia/code_builder.py:21-23 | A new builder has an empty buffer and the given tables. |
| Bytecode.CodeBuilder.AppendPair | src/pecunia/code_builder.py:26-27 | Two `bytearray.append` calls: the second raises iff the argument is outside 0..255. |
| Bytecode.CodeBuilder.BinaryAdd | src/pecunia/code_builder.py:25-27 | Appends `BINARY_ADD 0` and keeps the builder valid. |
| Bytecode.CodeBuilder.BuildTuple | src/pecunia/code_builder.py:29-31 | Appends `BUILD_TUPLE count`, raising for a count outside 0..255. |
| Bytecode.CodeBuilder.CallFunction | src/pecunia/code_builder.py:33-35 | Appends `CALL_FUNCTION argc`, raising for an argc outside 0..255. |
| Bytecode.CodeBuilder.CallFunctionEx | src/pecunia/code_builder.py:37-39 | Appends `CALL_FUNCTION_EX argc`, raising for an argc outside 0..255. |
| Bytecode.CodeBuilder.CompareOp | src/pecunia/code_builder.py:41-43 | Appends `COMPARE_OP` with the comparison's index. |
| Bytecode.CodeBuilder.ExtendArg | src/pecunia/code_builder.py:45-50 | The loop appends one `EXTENDED_ARG` pair per high byte, most significant first, and returns the low byte. |
| Bytecode.CodeBuilder.JumpAbsolute | src/pecunia/code_builder.py:52-55 | Appends the prefixes and then `JUMP_ABSOLUTE low`. |
| Bytecode.CodeBuilder.LoadFast | src/pecunia/code_builder.py:57-60 | Interns the name, then appends `LOAD_FAST index`. It raises for an index of 256 or more, after interning. |
| Bytecode.CodeBuilder.LoadConst | src/pecunia/code_builder.py:62-65 | Interns the constant, then appends `LOAD_CONST index`, raising for an index of 256 or more. |
| Bytecode.CodeBuilder.PopJumpIfFalse | src/pecunia/code_builder.py:67-70 | Appends the prefixes and then `POP_JUMP_IF_FALSE low`. |
| Bytecode.CodeBuilder.ReturnValue | src/pecunia/code_builder.py:72-74 | Appends `RETURN_VALUE 0`. |
| Bytecode.CodeBuilder.StoreFast | src/pecunia/code_builder.py:76-79 | Interns the name in the table `load_fast` uses, then appends `STORE_FAST index`. |
| Bytecode.CodeBuilder.Swap | src/pecunia/code_builder.py:81-83 | Appends `SWAP 0`. |
| Bytecode.CodeBuilder.UnpackSequence | src/pecunia/code_builder.py:85-87 | Appends `UNPACK_SEQUENCE count`, raising for a count outside 0..255. |
| Bytecode.CodeBuilder.YieldValue | src/pecunia/code_builder.py:89-91 | Appends `YIELD_VALUE 0`. |
| Bytecode.CodeBuilder.Emit | src/pecunia/code_builder.py:25-91 | Any one emitter call has the effect `Encode` gives it. |
| Bytecode.CodeBuilder.EmitAll | src/pecunia/code_builder.py:25-91 | A sequence of emitter calls, stopping at the first that raises, has the effect `EncodeAll` gives it. |
| Bytecode.Pairs | src/pecunia/code_builder.py:96 | `zip(self[::2], self[1::2])` gives one (opcode, argument) pair per two bytes, in order. |
| Bytecode.Accumulate | src/pecunia/code_builder.py:94-97 | `accumulate` yields the running prefix sums. |
| Bytecode.Max | src/pecunia/code_builder.py:100 | `max` is an upper bound of the sequence and is one of its elements. |
| Bytecode.StackSize | src/pecunia/code_builder.py:94-100 | `co_stacksize` is the largest running sum of the per-pair stack effects, in buffer order. There is none for an empty buffer. |
| Bytecode.LineTable | src/pecunia/code_builder.py:105 | `co_lnotab` is `(2, 1)` once per pair. |
| Bytecode.Replace | src/pecunia/code_builder.py:93-107 | The code object carries the buffer, both tables, the stack size and an lnotab as long as the buffer. It raises iff the buffer is empty (`max` of nothing). |
| Schedule.PopOrderOf | src/pecunia/generate.py:19-30 | An element is popped before everything pushed after it: itself, then its children's subtrees, last child first. |
| Schedule.PopStep | src/pecunia/generate.py:20-30 | Popping the top element and pushing its children keeps the remaining pop order. |
| Schedule.ReversePopOrder | src/pecunia/generate.py:50 | Reversed, the pop order is the left-to-right post-order: `reversed(nodes)` puts children before parents. |
| Schedule.AppendWellOrdered | src/pecunia/generate.py:26 | `m[time].append(n)` keeps every key listed once, in insertion order. |
| Schedule.ScanStops | src/pecunia/generate.py:22-26 | An exception ends the loop: nothing after it is processed. |
| Schedule.ScanOutcome | src/pecunia/generate.py:19-30 | The loop raises `UnboundLocalError` iff the first element is a constant. It raises `ValueError` iff some element's time raises (and the first is no constant). Otherwise it completes with `time` bound iff something was popped. |
| Schedule.ScanStamps | src/pecunia/generate.py:21-26 | When the loop completes, every element has a bucket, and `time` holds the last one. |
| Schedule.ScanKeys | src/pecunia/generate.py:16-26 | The buckets are exactly 0.0 and the times elements were stamped with. |
| Schedule.ScanBuckets | src/pecunia/generate.py:19-30 | Each bucket holds exactly the elements stamped with its key, in pop order. A timed node goes to its own time; a constant goes to the time of the element popped before it. |
| Schedule.SingleTimeSchedule | src/pecunia/generate.py:16-30 | If all timed elements resolve at `when`, the buckets are 0.0 and `when`, `when` holds the whole pop order, and 0.0 is empty unless `when` is 0.0. |
| Schedule.LoopStep | src/pecunia/generate.py:20-30 | One loop pass pops the next element of the pop order, visits it, and pushes its children. |
| Schedule.BuildSchedule | src/pecunia/generate.py:16-30 | The worklist loop yields the dict of the scan over the pop order, or the exception it raises. |
| Schedule.SortPermutes | src/pecunia/generate.py:35 | `sorted(..., reverse=True)` is a permutation of the keys. |
| Schedule.SortDescends | src/pecunia/generate.py:35 | Distinct keys come out strictly descending. |
| Schedule.SortedKeys | src/pecunia/generate.py:35 | The sorted keys are exactly the dict's keys, once each, strictly descending. |
| Schedule.ItemsOrdered | src/pecunia/generate.py:35 | Every bucket appears once with its contents, in strictly descending time order. |
| Emitter.InitialTables | src/pecunia/generate.py:32-33 | The pre-seeded tables `t,x,v → 0,1,2` and `None, maximum → 0,1` are dense. |
| Emitter.DrainLoopSize | src/pecunia/generate.py:36-49 | A drain loop is 22 bytes plus two per prefix of its two jumps. |
| Emitter.AsWrittenLandsIff | src/pecunia/generate.py:41-42 | The exit target as written is the first byte after the back-edge iff it is below 128. |
| Emitter.AsWrittenMisses | src/pecunia/generate.py:41-42 | A loop starting at byte 106 exits to byte 128 while it ends at byte 130. |
| Emitter.DrainTargetLands | src/pecunia/generate.py:36-49 | The corrected target is the first byte after the back-edge, and no smaller target is. |
| Emitter.DrainTargetAgrees | src/pecunia/generate.py:41-42 | Below 128 the corrected target is the one written. |
| Emitter.BuildCases | src/pecunia/generate.py:15-68 | `from_graph` passes on the schedule's exception, or builds the program of the descending buckets. |
| Emitter.FinishOf | src/pecunia/generate.py:68 | `b.replace(evolve)` gives the code object of what the builder holds, or the emitters' `ValueError`. |
| Emitter.EmitBucket | src/pecunia/generate.py:36-60 | One bucket's calls on the builder: the drain loop with the corrected exit target (not line 42's), the nodes' code in reverse, and the resume if the bucket is non-empty. |
| Emitter.EmitLayout | src/pecunia/generate.py:35-60 | The bucket loop writes the program's layout with the corrected exit targets (not line 42's), each bucket starting where the previous one ended. |
| Emitter.FromGraph | src/pecunia/generate.py:15-68 | The method returns exactly `Build(root, Corrected, effect)`: the schedule's exception, the emitters' error, or the code object. |
| Shape.NodesCodeNoYield | src/pecunia/generate.py:50-54 | Node code contains no yield. |
| Shape.DrainYields | src/pecunia/generate.py:43-44 | A drain loop yields once. |
| Shape.TailYields | src/pecunia/generate.py:55-56 | A bucket's tail yields once iff the bucket is non-empty. |
| Shape.BucketYields | src/pecunia/generate.py:36-60 | A bucket holds one yield, plus one more if it is non-empty. |
| Shape.LayoutYields | src/pecunia/generate.py:35-60 | The buckets hold one yield each, plus one per non-empty bucket. |
| Shape.ProgramYields | src/pecunia/generate.py:35-63 | The program holds one yield per bucket, one per non-empty bucket, and the final one. |
| Shape.LayoutLocals | src/pecunia/generate.py:35-60 | Every load and store in the buckets names `t`, `x` or `v`. |
| Shape.ProgramNames | src/pecunia/generate.py:32-63 | Emitting the program adds no name to the pre-seeded table. |
| Shape.BuildNames | src/pecunia/generate.py:32-68 | The code object's names are exactly `t, x, v`. |
| Shape.BucketResumes | src/pecunia/generate.py:43-60 | In a bucket, every yield is followed by `UNPACK_SEQUENCE 3; STORE_FAST t; STORE_FAST x; STORE_FAST v`. |
| Shape.LayoutResumes | src/pecunia/generate.py:35-60 | In the buckets, every yield is followed by the unpack and the stores into `t`, `x`, `v`. |
| Shape.ProgramResumes | src/pecunia/generate.py:43-63 | The program ends with a yield, and every earlier yield resumes by storing the triple into `t`, `x`, `v`. |
| Shape.DrainInLayout | src/pecunia/generate.py:36-49 | Every bucket's drain loop sits in the program at its start, and ends where the drain formula says. |
| Shape.CorrectedTargetsLand | src/pecunia/generate.py:36-49 | With the corrected target, every bucket's drain loop exits to the first byte after its back-edge. |
| Shape.AsWrittenTargetsLandIff | src/pecunia/generate.py:41-42 | With the target as written, a bucket's drain loop exits after its back-edge iff the target is below 128. |
| Shape.AsWrittenAgrees | src/pecunia/generate.py:35-49 | While every target as written is below 128, the program as written is the corrected program. |
| Shape.ChainOrder | src/pecunia/generate.py:19-30 | `k` nested `And((prev, 1.0))` around `At(1.0)` resolve at 1.0 and pop `2k+1` one-call elements. |
| Shape.TwoBuckets | src/pecunia/generate.py:16-35 | A tree resolving entirely at 1.0 gives the buckets 1.0, holding everything, then an empty 0.0. |
| Shape.FirstBucketSize | src/pecunia/generate.py:36-60 | 37 one-call elements fill a first bucket of 106 bytes. |
| Shape.SecondStart | src/pecunia/generate.py:35-60 | Such a first bucket puts the second bucket at byte 106. |
| Shape.SecondBucketMisses | src/pecunia/generate.py:41-42 | For such a tree, the second drain loop as written exits to byte 128 while it ends at 130. The corrected target is 130. |
| Shape.ChainMisses | src/pecunia/generate.py:19-30 | 18 nested sums over `At(1.0)` are such a tree. |
| StackMachine.Pointwise | src/pecunia/atoms.py:32-44 | Element-wise `+` and `maximum` give a scalar iff both operands are scalars; an array result is as long as its array operands. |
| StackMachine.AtLoadsPrices | src/pecunia/atoms.py:12-14 | An `At` fragment pushes `x`. |
| StackMachine.AndAddsTopTwo | src/pecunia/atoms.py:32-35 | An `And` fragment replaces the two values on top by their element-wise sum and leaves the rest of the stack alone. |
| StackMachine.OrTakesMaximum | src/pecunia/atoms.py:38-44 | An `Or` fragment replaces the two values on top `(a, b)` by `maximum(a, b)` and leaves the rest of the stack alone. |
| StackMachine.FragmentsNeedTwo | src/pecunia/atoms.py:32-44 | With fewer than two values on the stack, the `And` and `Or` fragments underflow. |
| StackMachine.TreeCodeEvaluates | src/pecunia/generate.py:50-54 | The reversed pop order's code of a binary tree pushes exactly the tree's value (sums at `And`, maxima at `Or`) on the stack it found, or raises what evaluating it raises. |
| StackMachine.BucketEvaluates | src/pecunia/generate.py:35-54 | For a binary tree resolving at a single time, that time's bucket code computes the tree's value. |
| StackMachine.TwoDatesBuckets | src/pecunia/generate.py:19-30 | For `Or((At(2.0), At(1.0)))` the 2.0 bucket holds `At(2.0)` alone and the 1.0 bucket holds the `Or` and `At(1.0)`. |
| StackMachine.TwoDatesUnderflow | src/pecunia/generate.py:50-60 | That contract has a value on any price array, yet its 1.0 bucket's code, run on the empty stack a resume leaves, underflows at the `Or`. |
| StackMachine.ChildrenThenNode | src/pecunia/generate.py:50-54 | The first child's code, the second's, then a composite's fragment push the sum or maximum of the two children's values, or the first exception. |
| StackMachine.CallOptionPayoff | tests/test_binomial_tree.py:18 | The test's call `Or((And((At(1.0), -1.0)), 0.0))` evaluates to `maximum(x - 1, 0)` element-wise. |
| BinomialTree.RiskNeutral | src/pecunia/binomial_tree.py:17-19 | `p + q = 1` and `z (p u + q d) = 1`. |
| BinomialTree.DegenerateIff | src/pecunia/binomial_tree.py:16-18 | `u = d` iff `u = 1`, where line 18 divides by zero. |
| BinomialTree.GrowthPerLevel | src/pecunia/binomial_tree.py:15-19 | `z (p u² + q) = u`: one level's discounted expectation of a price is the next level's price. |
| BinomialTree.InitialPrices | src/pecunia/binomial_tree.py:21 | The initial prices are `steps + 1` values from `spot dⁿ` to `spot uⁿ` with ratio `u²`. |
| BinomialTree.TopPrice | src/pecunia/binomial_tree.py:21 | The last initial price is `spot uⁿ`. |
| BinomialTree.LevelRatio | src/pecunia/binomial_tree.py:21 | Every level's prices have consecutive ratio `u²`. |
| BinomialTree.Narrow | src/pecunia/binomial_tree.py:27 | `u * x[:-1]` is one shorter. |
| BinomialTree.NarrowLevel | src/pecunia/binomial_tree.py:21-27 | Narrowing level `k` gives level `k + 1`: `x[i] = spot d^(n-k) u^(2i)`. |
| BinomialTree.Apex | src/pecunia/binomial_tree.py:21-27 | The last lattice level is the single price `spot`. `NarrowLevel` shows that each narrowing moves down one level, so this is the one price left after `steps` narrowings. |
| BinomialTree.Backward | src/pecunia/binomial_tree.py:28 | `z (p v[1:] + q v[:-1])` is one shorter. |
| BinomialTree.ClaimRollsBack | src/pecunia/binomial_tree.py:27-28 | If `v` equals the prices `x`, rolling `v` back gives `u x[:-1]`. |
| BinomialTree.LevelRollsBack | src/pecunia/binomial_tree.py:27-28 | Rolling back a level's prices gives both the narrowed prices and the next level. |
| BinomialTree.LevelTimes | src/pecunia/binomial_tree.py:25-26 | The times start at `years`, fall evenly by `years / steps` and end at 0. |
| BinomialTree.AfterStops | src/pecunia/binomial_tree.py:22-29 | An exception raised during the loop is the one `present_value` raises. |
| BinomialTree.PresentValue | src/pecunia/binomial_tree.py:6-31 | The loop returns exactly `PresentValueOf`: `v[0]` after priming and `steps` sends, or the exception raised on the way. |
| BinomialTree.History | src/pecunia/binomial_tree.py:22-29 | The evolution is primed once at `years` with the initial prices and zero values. It is then sent one triple per level, with that level's time and prices, and the loop holds the level's prices. |
| BinomialTree.Lengths | src/pecunia/binomial_tree.py:26-29 | If the evolution, sent prices and values of one length, yields a vector of that length, then `x` and `v` shrink by one per level and stay of equal length. |
| BinomialTree.UnderlyingKeepsLength | src/pecunia/binomial_tree.py:26-29 | The evolution of `At(years)` meets that hypothesis. |
| BinomialTree.LengthPreservingEvolutionSucceeds | src/pecunia/binomial_tree.py:26-31 | With such an evolution, a loop that completes leaves one value, and `v[0]` is in range. |
| BinomialTree.UnderlyingTracksPrices | src/pecunia/binomial_tree.py:21-29 | For the evolution of `At(years)`, after `k` levels the values equal the prices of level `k`. |
| BinomialTree.UnderlyingIsSpot | tests/test_binomial_tree.py:11 | The present value of `At(years)` is exactly the spot price. |

## Left out

- Opcode numbers, `opmap` and `cmp_op` (code_builder.py lines 2-17) are left out as CPython-specific. Opcodes are abstract symbols, and `COMPARE_OP`'s index is a fixed table over six comparisons.
- `stack_effect` is a function parameter of `Replace`, `Build` and `FromGraph`. `func.__code__.replace` and building a function from the code object are reduced to the fields `replace` sets. `co_names` and `co_consts` are the dense tables themselves, whose keys ordered by index are those tuples.
- The generator's control flow is not executed: the bytecode is never run, so `yield`/`send` and the `evolve` template (generate.py lines 65-68) are left out. `present_value` sees the evolution as a function from the triples sent so far to the next thing it yields. Resuming the evolution after its final yield is left out. `from_graph` emits no `RETURN_VALUE` after that yield (generate.py lines 62-63), and `replace` installs this bytecode as the whole of `evolve`'s code. So such a resume would run past the end of the bytecode; it would not raise `StopIteration`.
- Floating point is left out: `np.exp`, `np.sqrt`, `geomspace` and `linspace` rounding. The discount factor and the up move are inputs, the prices are the exact geometric lattice, and the times are the exact linear spacing.
- BinomialTree.PresentValueOf, BinomialTree.PresentValue: at `u == d` (volatility 0) numpy divides by zero and yields `inf`/`nan`. The model reports `DegenerateLattice` instead of following the non-finite values.
- BinomialTree.PresentValue: `steps` is a natural number. A negative `steps` (which would make `np.linspace` raise) is not modelled.
- StackMachine.Pointwise: numpy's broadcasting of a length-1 array, and `+` on tuples (concatenation), are left out. Arrays of unequal length give `ShapeMismatch`, and any other operand gives `BadOperand`.
- The stack semantics covers only binary `And`/`Or` trees.
- Backward induction across dates is not promised for contracts whose children resolve at different times, because the code does not deliver it (see the last bullet of the differences above). The value of a composite is proved only for contracts whose timed elements all resolve at one time (`StackMachine.BucketEvaluates`).
- Emitter.EmitBucket, Emitter.EmitLayout, Emitter.FromGraph: the drain loops use the corrected exit target `DrainTarget`, not the target of generate.py lines 41-42 (see Findings). For a bucket starting at byte 106, the source writes `EXTENDED_ARG 0; POP_JUMP_IF_FALSE 128` and the model writes the target 130. The as-written layout is kept as `Layout(_, AsWritten)` to exhibit the discrepancy.
- `Timed.__add__` and `Timed.__or__` (atoms.py lines 25-29) are left out: they pass two positional arguments to the tuple constructor, which rejects them. `__repr__` is cosmetic.
- `tests/utils.py` (the Black-Scholes oracle) and `src/pecunia/__main__.py` (disassembly printing) are not part of this model. The test's `implementation=` argument does not match `from_graph(val)` and is left out.

## Findings

| source | as written | input that shows it | evidently intended | confidence | as-written member | corrected member |
|---|---|---|---|---|---|---|
| src/pecunia/generate.py:41-42 | The exit target of `pop_jump_if_false` is `len(b) + 2 * (start_while.bit_length() // 8 + 8)`. This counts the back-edge's `EXTENDED_ARG` prefixes but not the conditional jump's own. Once the target reaches 128, the conditional jump gets an `EXTENDED_ARG 0` prefix and its target falls two bytes short, onto the back-edge's `JUMP_ABSOLUTE`. | A contract of 18 nested `And((prev, 1.0))` around `At(1.0)`, priced with `years_to_expiration = 1.0`. Its first bucket fills bytes 0-105. The drain loop of bucket 0.0 starts at 106 and ends at 130, but exits to 128 and so jumps back to 106 for ever once `t` reaches 0. | The exit lands on the first byte after the back-edge, counting the conditional jump's own prefixes. | not executed | Emitter.AsWrittenMisses, Shape.SecondBucketMisses, Shape.AsWrittenTargetsLandIff | Emitter.DrainTarget, Emitter.DrainTargetLands, Shape.CorrectedTargetsLand |
