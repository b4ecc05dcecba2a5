# Verified model of blueberry and its libraries

A Dafny model of the parts of the repository that carry the most state, with
proofs about all inputs and all runs. `dafny verify dfyconfig.toml` checks it.

Keys, hashes, comparators, and what operators do to values are parameters; where
a law is needed (a total order, equal keys have equal hashes) it is a stated
premise. Memory is slots and indices. An exit through `bb_error`, `b_error` or
an abort is a result (`ok` false, `None`).

**Pattern matcher** (`cma/`: Peg, PegLaws, Matcher, SetScan). `Peg.Eval` is the
recursive meaning of a pattern, and PegLaws says what choice, sequence,
lookahead and repetition mean without it; the class `Matcher.State` is the
matcher with its backtrack stack and flat capture array. Every `Match…` method
returns what the meaning says. A repetition whose turn consumes nothing stops
without counting it, but keeps the captures that turn made. SetScan compares the
scalar loop and the sixteen-byte table lookup; they part only when the 32-bit
sum `count + 16` wraps, and the exact condition is proved.

**Ordered map** (`ci_tree.c`: OrderedSeq, DefaultOrder, BTreeShape, BTreeNode,
BTree, BTreeIter). A sorted sequence of items is the specification; trees as
values carry the shape arguments; the classes Node, OrderedMap and Iter change
in place and are proved against them. The true lower bound of a node below the
root is 31 items. The default comparison is a total order on integers and
strings only.

**Hash map** (`ci_map.c`: HashTable, HashDelete, HashIdent, HashMap). The order
of a probe path: every slot before a key's position is full, and from distance 4
on holds an entry at least that far from its own home; route bytes bound the
distances up to 31. Insertions with their chains of displacements and every
resize keep it. A deletion keeps it from distance 4 on, which is all that
pointer lookups need, and all of it exactly when the slot it frees lies on no
other key's path; a key on whose path it lies is hidden from later insertions,
and setting it stores a second copy. Keys are told apart by pointer; lookups by
identity (`hashcmp`) reach 255 slots, and what that means for `ci_map_put` is
stated exactly. A map's hash is that of its `hashcmp`; the pointer operations
stand for maps that hash pointers.

**Compiler back end** (`bytecode.c`, `encoder.c`, `blueberry.c`,
`blueberry_vm/bytecode_load.c`). Script is the language with its direct
evaluator; ScriptLaws says what its blocks and statements can change, and
Programs what a whole loop comes to, in the evaluator and on the machine;
Opcodes ties numbers to names; RegAlloc is the register allocator with its
deferred frees; Machine the instructions with labels; Translation, Simulation,
Emission, Operands and Statements relate emitted code to the evaluator; Codegen
is the generator as a class; Compiler compiles a function. Wire, Assembly and
Encoder turn opcodes into bytes and bytes into cached operations, Payload reads
those as the handlers do, Unit writes and loads a whole file (UnitLayout: what
stands where), and Link joins both halves: running the operations cached from
the bytes of a compiled function agrees with the evaluator, in both directions.

**Arena allocator** (`tgmemlib/tgmemlib.c`: FreeList, Arena). The free list runs
through the slots themselves; the bubble sort ends because each exchange removes
one inversion. The search for a run treats a need of one as a need of two, as
the code does.

**Numbers and expressions** (`lib/uscale/uscale_min.c`, `ci_number.c`,
`parser.c`: TrimZeros, Decimal, DecimalText, Grammar, Spelling, Precedence,
Parser). Zero trimming by modular inverses, 128-bit printing and parsing, and
the precedence parser with its table: which parentheses a tree needs to come
back, exactly, that writing only those has the fewest tokens, and how two
operators group, level by level.

Three results a user may not expect. A path of several keys is cut short by a
key behind the first whose string id is a multiple of 65536
(`Payload.KeysExactly`); the compiler keeps id 0 for the empty string
(`bytecode.c:376-383`). Assignments group to the left, `a = b = c` as `(a = b) =
c`. A number of 37 digits or more is read as the end of the range, also when
they are zeros.

Where code and comments disagree the code is followed: the lower fill bound of
the tree is `(MAX - 1) / 2`, not `CI_TREE_MIN_ITEMS` (`ci_tree.h:66-107`).

## Model

| member | source | states |
|---|---|---|
| `Peg.EvalForest` | cma/cma.c:162-195 | whatever matches, its captures are the preorder of a forest inside the matched span: blocks nested or disjoint, children inside their parent, siblings in order |
| `Peg.ForestPairs` | cma/cma.c:162-195 | any two records of a forest: the later one lies inside the earlier one's block and span, or starts no earlier than that one ends |
| `Peg.OnlyVisibleCaptures` | cma/cma.c:128-155 | every surviving capture was made by a CAP that is not inside a NOT or an AHEAD |
| `Peg.RunIsLongest` | cma/cma.c:224-255 | the stretch of set members used by the repetition loops is exactly the longest one within the limit |
| `Peg.RepOfSet` | cma/cma.c:197-255 | the general repetition of a one-character set is one such stretch, with its count and no captures |
| `PegLaws.OrIsFirst` | cma/cma.c:110-127 | of the alternatives the first one that hits decides, whatever stands behind it |
| `PegLaws.OrMisses` | cma/cma.c:110-127 | a choice misses if and only if every alternative misses |
| `PegLaws.AndOfChain` | cma/cma.c:90-108 | patterns that hit one after the other, each from where the last one ended, make the sequence hit with all their captures in order |
| `PegLaws.ChainOfAnd` | cma/cma.c:90-108 | a sequence hits only along such a chain of positions, none before the one in front of it |
| `PegLaws.LookaheadConsumesNothing` | cma/cma.c:129-157 | AHEAD hits exactly when its body does and NOT exactly when it misses, both without consuming or capturing |
| `PegLaws.ExcludedMiddle` | cma/cma.c:129-142 | a pattern or its NOT always hits, NOT in front of the pattern never does, AHEAD in front of it changes nothing |
| `PegLaws.RepIsMaximal` | cma/cma.c:197-221 | a repetition takes consuming matches behind one another up to its maximum or until none is left, and hits exactly when they reach the minimum |
| `PegLaws.RepRuns` | cma/cma.c:197-221 | such a longest run of matches exists for every pattern and input |
| `PegLaws.CapWraps` | cma/cma.c:165-195 | a capture is one record with its tag, span and number of inner records, in front of the inner ones |
| `PegLaws.Leaves` | cma/cma.c:16-88 | text hits exactly where the input holds it, a set at one of its characters, the end pattern at the end |
| `PegLaws.SameLetter` | cma/cma.c:36-60 | without case two different bytes are the same exactly when they are one letter of the alphabet in its two cases |
| `Matcher.State.Push` | cma/cma.h:232-241 | saves position and capture count on the stack, growing it by one |
| `Matcher.State.Backtrack` | cma/cma.h:243-247 | restores the position and capture count saved at sp and cuts the stack to sp |
| `Matcher.State.Commit` | cma/cma.h:249-253 | cuts the stack to sp and keeps position and captures |
| `Matcher.State.CapPush` | cma/cma.h:255-261 | reserves the next capture record |
| `Matcher.State.Call` | cma/cma.h:201-205 | any pattern, any state: the stack matcher returns what the recursive meaning says; a match moves the position and appends exactly its captures, a miss leaves position and captures as they were, and the stack is as deep as before |
| `Matcher.State.MatchStr` | cma/cma.c:27-75 | matches the text, with or without case, exactly when the meaning does |
| `Matcher.State.MatchSet` | cma/cma.c:76-89 | one character of the set |
| `Matcher.State.MatchAnd` | cma/cma.c:90-109 | a sequence backtracks to its start when a later part misses |
| `Matcher.State.MatchOr` | cma/cma.c:110-127 | the first alternative that matches, every failed one undone |
| `Matcher.State.MatchNot` | cma/cma.c:128-141 | hit and miss exchanged, position and captures restored either way |
| `Matcher.State.MatchAhead` | cma/cma.c:142-155 | consumes nothing and keeps no captures |
| `Matcher.State.MatchCap` | cma/cma.c:162-195 | one record in front of the inner ones, with the span and their number; a miss leaves none |
| `Matcher.State.MatchRep` | cma/cma.c:197-221 | the counting loop with its backtrack entries equals the recursive repetition |
| `Matcher.State.MatchRepSet` | cma/cma.c:224-255 | the tight loop for a set returns what the general repetition of that set returns |
| `Matcher.RunOnce` | cma/cma.c:550-553 | one run from the start: the end position cast to a signed 32-bit number, or the miss code |
| `SetScan.BuildSimd` | cma/cma.c:410-423 | both nibble tables are filled so that the pair describes the 256-bit set |
| `SetScan.LaneIsMembership` | cma/cma.c:269-310 | for every set and every byte, the two table lookups and the bit test decide membership |
| `SetScan.Scan` | cma/cma.c:269-342 | vectors of sixteen with a scalar tail take the same stretch as one scalar loop; where the 32-bit count runs past the limit, the exact end and the wrapped count |
| `SetScan.MatchRepSetSimd` | cma/cma.c:269-342 | equals the general repetition unless the count overruns; then it ends past the maximum or misses as the wrapped count says, which is right exactly when the minimum exceeds the maximum and the wrapped count is below it |
| `SetScan.OverrunExists` | cma/cma.c:289-320 | a concrete input on which it does overrun |
| `OrderedSeq.RunIsMap` | ci_tree.c:399-448 | after any run of settings and deletions the items are strictly sorted and every key's lookup answers as the last operation on that key says |
| `OrderedSeq.LookupUpsert` | ci_tree.c:399-448 | after an insertion the key's lookup gives the new item and no other key's answer changed |
| `OrderedSeq.LookupRemove` | ci_tree.c:576-599 | after a removal the key is gone and no other key's answer changed |
| `DefaultOrder.DefaultOrders` | ci_tree.c:250-280 | the default comparison orders a set of keys if and only if it holds no object besides integers and strings, or all its keys compare equal |
| `DefaultOrder.PlainIs` | ci_tree.c:250-280 | the default comparison is zero exactly for equal keys, orders integers as numbers, puts every integer before every string, and strings as in a dictionary |
| `DefaultOrder.BytesLess` | ci_tree.c:265-271 | negative exactly when the first differing byte is the smaller one or the first string is a proper beginning of the second |
| `DefaultOrder.LastWriteIs` | ci_tree.c:250-280 | the last operation on a key under the comparison is the last one that names that very key |
| `DefaultOrder.DefaultMap` | ci_tree.c:250-280 | a map with the default comparison, after any run of operations on integers and strings, answers every key as the last operation on it says |
| `BTreeShape.RebalancedFlatten` | ci_tree.c:306-339 | merging or rotating at child i keeps the items and their order |
| `BTreeShape.RebalancedShape` | ci_tree.c:306-339 | and turns a node with one child one item short into a proper node that lost at most one item |
| `BTreeShape.SplitBelow` | ci_tree.c:366-390 | splitting the full child on the search path keeps the contents and leaves a path that is no longer full, so the retry cannot ask for another split |
| `BTreeShape.LeastContents` | ci_tree.c:286-304 | a subtree of height h below the root holds at least 32^h - 1 items, because a split leaves 31 in its smaller half |
| `BTreeShape.HeightBound` | ci_tree.h:66-107 | every tree of fewer than 2^32 items has height at most 7, far below the 16 entries of an iterator's stack |
| `BTreeNode.Node.Insert` | ci_tree.c:132-141 | item and right child put at an index, the others moved up |
| `BTreeNode.Node.ShiftLeft` | ci_tree.c:143-158 | item and one child taken out, the others moved down |
| `BTreeNode.Split` | ci_tree.c:286-304 | 32 items stay, one goes up, 31 move to the new node; the three together are the old contents |
| `BTreeNode.Merge` | ci_tree.c:160-172 | the left node takes the separator and everything of the right node |
| `BTreeNode.RotateRight` | ci_tree.c:319-329 | the left neighbour's last item goes up and the separator down right |
| `BTreeNode.RotateLeft` | ci_tree.c:329-339 | the right neighbour's first item goes up and the separator down left |
| `BTreeNode.Rebalance` | ci_tree.c:306-339 | the in-place node operations compute exactly the rebalanced tree value |
| `BTree.OrderedMap.BSearch` | ci_tree.c:174-193 | found flag and index are the lower bound of the key in the node |
| `BTree.OrderedMap.BSearchHint` | ci_tree.c:195-238 | the same flag and index as the plain search, for every content of the hint word |
| `BTree.OrderedMap.Find` | ci_tree.c:454-475 | the item whose key compares equal in the whole contents, if there is one |
| `BTree.OrderedMap.NodeSet` | ci_tree.c:356-397 | inserts below a node, or reports that every node on the path is full, the tree then unchanged; recursion and retry end |
| `BTree.OrderedMap.Set` | ci_tree.c:399-448 | new contents are the old ones with the item inserted or replaced; shape, order and count kept |
| `BTree.OrderedMap.NodeDelete` | ci_tree.c:496-574 | removes by key or the last item, giving the item removed and a subtree at most one item short |
| `BTree.OrderedMap.Delete` | ci_tree.c:576-599 | new contents are the old ones without the key; true exactly when it was there; shape, order and count kept |
| `BTree.OrderedMap.Clear` | ci_tree.c:605-612 | an empty tree |
| `BTree.OrderedMap.Replay` | ci_tree.c:399-448 | after any run of insertions and deletions the tree is well formed and answers every key as the last operation on it says |
| `BTreeIter.Iter.NextForward` | ci_tree.c:682-723 | yields the first item not yet yielded, never using more stack entries than it has |
| `BTreeIter.Iter.NextBackward` | ci_tree.c:734-773 | yields the last item not yet yielded |
| `BTreeIter.Iter.All` | ci_tree.c:673-773 | a whole run yields every item exactly once, in key order or in reverse |
| `HashTable.ProbeEnds` | ci_map.c:324-412 | where the probe of an insertion stops without the key, at a free slot or from the fourth probe on at an entry closer to its home, a key with no free slot on its path is nowhere in the table |
| `HashTable.PutEmpty` | ci_map.c:324-412 | storing at a free slot keeps the order of all probe paths, uniqueness and the route bytes, and completes the map |
| `HashTable.PutDisplaces` | ci_map.c:369-412 | displacing an entry closer to its home keeps the order; the displaced entry, whose whole path is taken, is carried on |
| `HashTable.OpenRoute` | ci_map.c:166-191 | giving an unused route its offset moves no stored key |
| `HashTable.RoomLeft` | ci_map.c:291-318 | fewer entries than slots leave a free slot, so every probe ends |
| `HashTable.Positions` | ci_map.c:138-157 | a hash's route is its high bits, at most sixteen; its home is its low bits plus four slots per step of the offset; a route byte is offset + 8 * longest probe |
| `HashTable.ResultOnly` | ci_map.c:418-425 | a key no operation of the run names is not in the map |
| `HashTable.ResultIs` | ci_map.c:418-425 | what a run of settings and deletions leaves for a key is what its last operation said |
| `HashDelete.ShiftEnds` | ci_map.c:577-605 | the slot that is free in the end is the last one before a free slot or an entry at its home, on the table as it was |
| `HashDelete.DeletedOrdered` | ci_map.c:577-605 | every deletion keeps the order from the fourth probe on |
| `HashDelete.DeletedExactly` | ci_map.c:577-605 | a deletion keeps the whole order if and only if the slot freed in the end lies on the path of no other stored key |
| `HashDelete.HiddenExactly` | ci_map.c:577-605 | a stored key is hidden from later insertions if and only if that slot lies on its path |
| `HashDelete.DeleteHidesKey` | ci_map.c:577-605 | a table of three entries in order in which deleting one hides another |
| `HashIdent.MissedTwin` | ci_map.c:545-558 | where the identity lookup misses, storing the key makes two equal keys if and only if an equal key that is another object lies more than 255 slots from its home |
| `HashIdent.PslBelowCount` | ci_map.c:324-412 | an entry has at least as many other entries before it as it is away from its home |
| `HashIdent.FarTable` | ci_map.c:504-543 | a table of 300 entries in order, not too full, with such an entry 257 slots from its home |
| `HashMap.Map.ChoosePreindex` | ci_map.c:166-191 | the first offset from 1 to 7 whose group has more than two of its four slots free, or else the first of those with the most |
| `HashMap.Map.InsertNoResize` | ci_map.c:324-412 | for every table in order, from the first probe on or as deletions leave it: ends; the map has the new entry unless a free slot stands on the path of the stored key, which then, and only then, gets a second copy there |
| `HashMap.Map.Resize` | ci_map.c:291-318 | every entry moves to the larger arrays; the map is the same, and in full order again |
| `HashMap.Map.Set` | ci_map.c:418-425 | the map is the old one with the key set, doubling at the load limit; exactly a stored key with a free slot on its path, when no resize comes first, gets a second copy |
| `HashMap.Map.FindInline` | ci_map.c:432-488 | pointer lookup finds exactly the stored keys, on saturated routes and after any deletions too |
| `HashMap.Map.DeleteAt` | ci_map.c:577-605 | the array ends up as the shifted table; the entry is gone from the map, every other one stays |
| `HashMap.Map.Delete` | ci_map.c:569-575 | true exactly when the key was there; the map is the old one without it, and every other key is still found by pointer |
| `HashMap.Map.Replay` | ci_map.c:418-425 | any run of settings and deletions in which a key set after a deletion is a new one: the table holds what the operations say, in full order if nothing was deleted |
| `HashMap.Map.FindHash` | ci_map.c:504-543 | identity lookup finds an equal key exactly when one sits at most 255 slots from its home with no free slot before it |
| `HashMap.Map.PutIdent` | ci_map.c:545-558 | replaces the value of an equal key in sight, else inserts by pointer; in a table in order the result has two equal keys if and only if an equal key that is another object sat beyond 255 slots |
| `HashMap.Map.PutAll` | ci_map.c:545-558 | any run of settings by identity with at most 256 different keys: equal keys share one entry, which holds what was last set for any of them |
| `HashMap.Map.RemoveIdent` | ci_map.c:607-612 | removes an equal key exactly when one is in sight |
| `RegAlloc.OneOwner` | bytecode.c:459-623 | locals, live temporaries, the free list and the scheduled list partition the numbers below reg_next, which never exceeds 254; two live temporaries never share a number |
| `RegAlloc.Allocator.TmpNumber` | bytecode.c:468-483 | the last free number, else the next unused one, else failure; the number is held by nothing live |
| `RegAlloc.Allocator.NewTmp` | bytecode.c:508-510 | a new live temporary on such a number |
| `RegAlloc.Allocator.TmpFresh` | bytecode.c:512-518 | always a number never used before |
| `RegAlloc.Allocator.TmpContinuous` | bytecode.c:520-571 | strictly consecutive numbers that nothing live holds; succeeds exactly when the free list ends in such a run or enough unused numbers remain |
| `RegAlloc.Allocator.AllocLocal` | bytecode.c:459-466 | the next unused number becomes a local for good |
| `RegAlloc.Allocator.Free` | bytecode.c:573-586 | a temporary's number goes to the scheduled list once |
| `RegAlloc.Allocator.Release` | bytecode.c:603-606 | the same for temporaries, nothing for locals and deferred values |
| `RegAlloc.Allocator.Commit` | bytecode.c:588-599 | exactly the scheduled numbers become free |
| `RegAlloc.Allocator.NoRename` | bytecode.c:609-611 | only the flag changes |
| `RegAlloc.Allocator.Rename` | bytecode.c:613-623 | a temporary not yet renamed takes its destination's number and gives its own up |
| `RegAlloc.Allocator.Promote` | bytecode.c:723-728 | a declared temporary's number becomes a local's |
| `Translation.YieldsRetarget` | bytecode.c:613-623 | the instruction that made a value in a temporary makes the same value in another register |
| `Emission.Renamed` | bytecode.c:613-623 | renaming a result redirects the one instruction that made it and no other |
| `Simulation.IfDone` | bytecode.c:1794-1836 | test, branch, body and label carry out an if |
| `Simulation.IfElseDone` | bytecode.c:1794-1822 | the same with an else part or an else-if chain |
| `Simulation.WhileDone` | bytecode.c:1838-1867 | both loop forms: rounds, break, next and endless running agree with the evaluator |
| `Simulation.LeaveDone` | bytecode.c:2022-2050 | break and next leave to the innermost loop's end or test with the registers as they are |
| `Statements.LoopLands` | bytecode.c:2022-2050 | every jump of a loop's code, break and next of its body included, goes to one of the loop's own marks, so none leaves the function |
| `Simulation.SetDone` | bytecode.c:1580-1585 | an instruction that makes the value in the variable's register carries out the assignment or the op=, and disturbs no other variable |
| `Simulation.VarDone` | bytecode.c:723-750 | declaring a name gives it a register no other name has, and runs nothing |
| `Codegen.Generator.InRegister` | bytecode.c:1028-1075 | a deferred literal gets a free register and is loaded there, the object staying the same; anything else is left alone |
| `Codegen.Generator.EmitDecide` | bytecode.c:928-976 | a 32-bit literal on the right goes into the instruction, in the two-operand form when destination and left operand are the same local; everything else goes through registers; both operands still hold their values |
| `Codegen.Generator.ConsumeExpr` | bytecode.c:1138-1176 | the emitted code leaves the expression's value where the result says and changes no register of a local or a live temporary |
| `Codegen.Generator.EmitInfix` | bytecode.c:1155-1166 | the same for a binary operation |
| `Codegen.Generator.EmitPrefix` | bytecode.c:1168-1176 | the same for a prefix operation |
| `Codegen.Generator.Find` | bytecode.c:708-720 | the register object the last scope that holds the name has for it; none exactly when no scope holds it |
| `ScriptLaws.LevelIs` | bytecode.c:708-720 | a name means the last block that holds it: that one holds it and no later one does |
| `ScriptLaws.PutIs` | bytecode.c:1636-1767 | setting a name changes its entry in that block and nothing else |
| `ScriptLaws.DeclareShadows` | bytecode.c:723-750 | a name declared and set in a new block leaves every outer block as it was and reads as the new value |
| `ScriptLaws.ExecFramed` | bytecode.c:1794-1867 | a statement that finishes keeps every name it does not set and every variable an inner block hides, and loses no name |
| `ScriptLaws.InnerStaysInside` | bytecode.c:708-720 | a block that first declares x and then sets only x leaves the outer variables as they were |
| `ScriptLaws.OneBranch` | bytecode.c:1794-1836 | exactly one branch of an if is carried out, in a block of its own |
| `ScriptLaws.NothingBehind` | bytecode.c:2022-2050 | what stands behind a break or a next is not carried out |
| `ScriptLaws.Once` | bytecode.c:1838-1867 | with a failing test a while does nothing and a do its body once; a break ends either |
| `ScriptLaws.MoreFuel` | bytecode.c:1838-1867 | a run that ends does so alike under any larger bound on the rounds |
| `Programs.EvaluatesInOrder` | bytecode.c:2225-2226 | x - y and x < y take the left operand first |
| `Programs.HandlesInOrder` | blueberry.c:322-340 | the handlers subtract the right register or the immediate from the left register |
| `Programs.LoopSums` | bytecode.c:1838-1867 | a loop with a next and a break leaves the sum of the numbers it should add, for all bounds |
| `Programs.MachineSums` | blueberry.c:617-685 | compiled, encoded and cached, that loop leaves the same sum in its variable's register, for all arguments |
| `Opcodes.OperatorsByName` | bytecode.c:75-121 | the operators of the language are exactly the opcodes ADD to POW, BIN_OR to LT_EQ, and NEG, NOT, BIN_INV, by their place in the list |
| `Opcodes.LoadsByName` | bytecode.c:75-121 | the loading opcodes have the numbers of their names |
| `Opcodes.JumpsByName` | bytecode.c:75-121 | moves and jumps have the numbers of their names |
| `Codegen.Generator.AssignOne` | bytecode.c:1580-1585 | by renaming or by a move, the code carries out the assignment |
| `Codegen.Generator.EmitAssign` | bytecode.c:1636-1767 | evaluate, then assign to the local |
| `Codegen.Generator.EmitAssignInfix` | bytecode.c:2054-2067 | op= works on the local's own register |
| `Codegen.Generator.EmitDeclare` | bytecode.c:1518-1529 | var; a name declared twice in a block keeps its first register |
| `Codegen.Generator.EmitIf` | bytecode.c:1794-1836 | the emitted code carries out the if, its labels are new and marked once |
| `Codegen.Generator.EmitWhile` | bytecode.c:1838-1867 | the emitted code carries out the loop |
| `Codegen.Generator.EmitLeave` | bytecode.c:2022-2050 | fails exactly outside every loop |
| `Codegen.Generator.ConsumeList` | bytecode.c:2310-2327 | statement by statement, with releases and commits in between, the code carries out the block; it fails only when registers run out, a name is undeclared or a break or next is stray |
| `Compiler.ArgsInOrder` | bytecode.c:1975-1982 | the i-th argument is found in register i + 1 |
| `Compiler.CompileFunction` | bytecode.c:1967-1985 | a whole function: the numbered code carries out the body from its first instruction; failure only for those three reasons |
| `Compiler.EvaluatorThenMachine` | bytecode.c:2310-2327 | whenever the evaluator finishes, the machine halts behind the code with every set variable's value in that variable's register; no break or next escapes |
| `Compiler.MachineThenEvaluator` | bytecode.c:2310-2327 | whenever the machine halts, the evaluator finishes normally with the same values, unless it reads a variable that was never set |
| `FreeList.SwapFewer` | tgmemlib/tgmemlib.c:157-163 | exchanging two neighbours in the wrong order removes exactly one inversion |
| `FreeList.SortedNone` | tgmemlib/tgmemlib.c:147-176 | a sorted list that shows no run has no adjacent free slots at all |
| `Arena.Arena.BubblePass` | tgmemlib/tgmemlib.c:150-168 | one pass over the intrusive list permutes it; either it was sorted and is unchanged, or it has fewer inversions |
| `Arena.Arena.FindRun` | tgmemlib/tgmemlib.c:114-141 | unlinks the slots of a run it finds and no others; finds none exactly when no run of that length, two at least, stands in the list |
| `Arena.Arena.BubbleSort` | tgmemlib/tgmemlib.c:147-176 | ends; finds slots if and only if that many free slots, two at least, are adjacent in memory, and takes exactly those out |
| `Arena.Arena.Alloc` | tgmemlib/tgmemlib.c:57-106 | last freed slot or next unused one, disjoint from every live block; none exactly when both are used up |
| `Arena.Arena.AllocLinked` | tgmemlib/tgmemlib.c:183-208 | adjacent slots from the free list when there are any, else unused ones; none exactly when neither is possible; live, free and untouched slots still add up to the capacity |
| `Arena.Arena.Free` | tgmemlib/tgmemlib.c:336-382 | the slot heads the free list and its block is gone |
| `Arena.Arena.FreeLinked` | tgmemlib/tgmemlib.c:412-438 | the slots behind the first one are given back, the block shrinks to one slot |
| `Arena.Arena.Write` | tgmemlib/tgmemlib.c:57-106 | whatever an owner writes into its block, the allocator's state stays valid |
| `TrimZeros.TestExact` | lib/uscale/uscale_min.c:143-180 | the product with the inverse, rotated by k bits, is at most MAX / 10^k if and only if 10^k divides x, and then it is the quotient |
| `TrimZeros.Inverses` | lib/uscale/uscale_min.c:145-148 | the four constants are the inverses of 5, 25, 625 and 390625 modulo 2^64 |
| `TrimZeros.TrimZeros` | lib/uscale/uscale_min.c:143-180 | x' * 10^(p'-p) = x and exactly min(z, 16) of z trailing zeros are removed, so 10 does not divide x' if and only if 10^17 does not divide x |
| `Decimal.Itoa` | ci_number.c:542-552 | the buffer holds the decimal digits of a 64-bit number, highest first, and nothing before or behind them changed |
| `Decimal.Itoa128` | ci_number.c:558-578 | the same for 128 bits across the split at 10^19, everything else in the buffer unchanged |
| `Decimal.ToString` | ci_number.c:1103-1128 | the digits with a minus sign where needed, in 25 bytes for a packed integer and 42 for a boxed one, nothing behind them changed |
| `Decimal.FromString` | ci_number.c:907-986 | the loops over 17 digits in 64 bits and up to 37 in 128 bits read exactly the value of the leading digits, saturate behind them, and skip the rest |
| `Decimal.ReadDigits` | ci_number.c:951-976 | the value of the digits read, which stays below ten to their number |
| `Decimal.RoundTrip` | ci_number.c:907-986 | parsing what was printed gives n back if and only if &#124;n&#124; < 10^36, n = 2^127 - 1 or n = -2^127; beyond 10^36 the result is the nearest end of the range |
| `DecimalText.PrintedText` | ci_number.c:1103-1128 | an integer is printed as a minus sign where it is negative and the digits of its value, without a leading zero |
| `DecimalText.ParseText` | ci_number.c:907-986 | spaces, a sign or none, digits and spaces are read as the value of the digits; from 37 digits on, leading zeros counted, as the nearest end of the range |
| `DecimalText.ZerosOverflow` | ci_number.c:907-986 | 37 zeros are read as the greatest integer |
| `Grammar.TableUnambiguous` | parser.c:868-970 | no token has two prefix entries or two infix entries, among the 56 of the 68 entries that are modelled, the twelve one-token operands as one |
| `Grammar.PrefixAt` | parser.c:978-990 | the scan under a limit finds the token's one prefix entry exactly when its priority is at most the limit |
| `Grammar.InfixAt` | parser.c:992-1004 | the same for infix entries strictly below the limit |
| `Grammar.ParseLeft` | parser.c:1006-1037 | a left operand with enough parentheses is taken whole and the loop goes on behind it, so binary operators associate to the left |
| `Grammar.ParseSpelled` | parser.c:1006-1037 | a tree written with enough parentheses comes back, marks included, and leaves exactly the tokens behind it |
| `Spelling.StrictEnough` | parser.c:1006-1037 | whatever is parsed without a missing part has parentheses wherever an operator does not fit the limit |
| `Spelling.Exactly` | parser.c:1006-1037 | the tokens of a written tree parse to that tree, all of them, if and only if every part that does not fit its place has parentheses |
| `Spelling.Fewest` | parser.c:1006-1037 | with parentheses only there a tree parses back, and no way of writing it that parses back has fewer tokens |
| `Parser.Parser.FindPrefix` | parser.c:978-989 | the first entry for the next token with a prefix function and a priority of at most the limit |
| `Parser.Parser.FindInfix` | parser.c:992-1003 | the first entry for the next token with an infix function and a priority below the limit |
| `Parser.Parser.SimplePrefix` | parser.c:371-386 | operator and operand, the operand parsed under the operator's priority |
| `Parser.Parser.WrappingExpression` | parser.c:443-481 | a parenthesised expression with its mark, the empty list, or a literal in square or curly brackets |
| `Parser.Parser.Combine` | parser.c:1022-1034 | whichever infix function it is replaces the left operand; when its rest is missing the left operand stands and the tokens read stay consumed |
| `Parser.Parser.SimpleInfix` | parser.c:537-556 | a binary operator, its right operand parsed under its own priority |
| `Parser.Parser.SimplePostfix` | parser.c:520-533 | an increment or decrement behind its operand |
| `Parser.Parser.WrappingInfix` | parser.c:485-516 | a call, which may be empty, or an access by index, which may not |
| `Parser.Parser.ExprBp` | parser.c:1006-1037 | the loop's result and position are those of the recursive parse |
| `Parser.ParseWritten` | parser.c:1006-1037 | parsing a tree written with enough parentheses gives it back and consumes exactly its tokens |
| `Parser.ParseAll` | parser.c:1006-1037 | parsing the tokens of a written tree gives that tree and consumes all of them exactly when it has enough parentheses |
| `Precedence.EveryInfix` | parser.c:903-970 | the thirteen levels hold exactly the operators that stand between operands |
| `Precedence.TwoOperators` | parser.c:903-970 | a s b m c is grouped around m when m is of a tighter level than s, and to the left otherwise, assignments included |
| `Precedence.PrefixTighter` | parser.c:896-901 | a prefix operator takes less than any operator between operands |
| `Precedence.CallTightest` | parser.c:889-894 | a call or an access is taken before a prefix or a binary operator |
| `Precedence.PostfixOutside` | parser.c:896-901 | an increment behind an operand applies to the operand with its prefix operator, and before any binary operator |
| `Wire.BytesDecode` | blueberry.c:625-680 | an opcode's bytes, wherever they stand, decode to that opcode's cached operation and to its own length |
| `Assembly.PatchJump` | encoder.c:113-119 | writing four bytes behind a jump's first four changes that jump's target and nothing else |
| `Assembly.AssembleDecodes` | blueberry.c:617-685 | decoding the assembled bytes gives the cached operation of every opcode that is no label, in order, and a return behind them |
| `Encoder.FunctionEncoder.EmitPass` | encoder.c:222-402 | all instructions in order with empty jumps, every label's instruction number, and for every label object the place of its last use |
| `Encoder.FunctionEncoder.PatchPass` | encoder.c:404-422 | each such place gets its label's number; fails exactly when a jump's label is nowhere |
| `Encoder.FunctionEncoder.EncodeFunction` | encoder.c:215-425 | both passes together |
| `Encoder.JumpExact` | encoder.c:404-422 | a jump names the instruction just behind its label if and only if no later jump uses its label object, or that instruction is number 0 |
| `Encoder.BuildCached` | blueberry.c:617-685 | one cached operation for each instruction, a return behind them; an unknown opcode ends the list |
| `Encoder.EncodeThenCache` | blueberry.c:617-685 | the j-th opcode that is no label is the j-th cached operation, with the same operands and the target the encoder chose |
| `Payload.FirstBytes` | encoder.c:138-160 | form and opcode in the first byte, destination, source and condition in the next ones, the number low byte first behind them |
| `Payload.PairsBack` | blueberry_vm/advanced_opcodes.c:302-319 | the map handler's reading of the bytes written for a map literal gives each pair back, string ids modulo 65536 |
| `Payload.KeysExactly` | blueberry_vm/advanced_opcodes.c:344-386 | the access handler reads the keys written for a path exactly when there is one and none behind the first is a multiple of 65536 |
| `Payload.PathCut` | blueberry_vm/advanced_opcodes.c:344-386 | the path 5.0.7 is read as far as 5 |
| `Payload.ReadBack` | blueberry_vm/advanced_opcodes.c:240-400 | every handler takes out of a cached operation what the instruction said, paths under that condition |
| `Payload.EncodeThenRead` | blueberry.c:617-685 | so for the j-th instruction of a function through its bytes |
| `Payload.MoveTo` | blueberry_vm/advanced_opcodes.c:254-269 | copies registers one after the other into the window |
| `Payload.MoveFrom` | blueberry_vm/advanced_opcodes.c:273-288 | copies the window one after the other into registers |
| `Payload.MovedToAt` | blueberry_vm/advanced_opcodes.c:254-269 | the window gets the values its sources had before, when no source is a place of the window written earlier |
| `Payload.MovedFromAt` | blueberry_vm/advanced_opcodes.c:273-288 | the targets get the window's values, when they differ and none is a place read later |
| `Link.NamesDiffer` | bytecode.c:661-676 | two generated labels never share a name, so the encoder's map of names keeps them apart |
| `Link.JumpNumber` | encoder.c:404-422 | in the compiler's code every jump gets the number of the instruction behind its mark |
| `Link.CachedFromBytes` | blueberry.c:617-685 | encoding the compiler's code finds every label, and what the machine caches from its bytes is one operation for each instruction and a return |
| `Link.ValueStored` | blueberry.c:322-340 | the handler that a value instruction's first byte selects stores what the instruction means: immediates come back sign-extended, 64-bit literals whole |
| `Link.DispatchesStep` | blueberry.c:460-484 | one instruction of the labelled code is exactly one dispatch, and jumping to a label is setting pc to the jump's number |
| `Link.Forward` | blueberry.c:322-484 | when the labelled code comes to its end, the cached operations come to a return with the same registers |
| `Link.Backward` | blueberry.c:322-484 | when the cached operations come to a return, the labelled code comes to its end with the same registers |
| `Link.EvaluatorThenOperations` | blueberry.c:617-685 | source to machine: whenever the evaluator finishes a function body, running the operations cached from that function's encoded bytes returns with every set variable's value in its register |
| `Link.OperationsThenEvaluator` | blueberry.c:617-685 | machine to source: whenever that run returns, the evaluator finishes with the same values, unless it reads a variable that was never set |
| `Unit.InternKeeps` | encoder.c:178-195 | entering distinct texts appends them in order, so the compiler's ids stay the indices of the file |
| `Unit.StringTable.Intern` | encoder.c:178-195 | the text's first place, a new one at the end when it is not there |
| `Unit.EncodeUnit` | encoder.c:431-488 | header, string table, functions |
| `Unit.Reader.U16Le` | blueberry_vm/bytecode_load.c:17-20 | two bytes, low first, or nothing at the end of the file |
| `Unit.Reader.U32Le` | blueberry_vm/bytecode_load.c:22-25 | four bytes, low first |
| `Unit.Reader.Take` | blueberry_vm/bytecode_load.c:27-32 | the next bytes, or nothing when there are too few |
| `Unit.Reader.Function` | blueberry_vm/bytecode_load.c:112-139 | one function, its name out of the string table |
| `Unit.LoadUnit` | blueberry_vm/bytecode_load.c:75-143 | a whole file, or nothing where the loader gives up |
| `Unit.EncodeThenLoad` | encoder.c:431-488 | when the sizes fit their fields, loading an encoded unit gives every pool string under its id and every function with its name, argument and register counts and code |
| `UnitLayout.Header` | encoder.c:457-461 | a file starts with CIBC, version 2 and the counts of strings and functions, low byte first |
| `UnitLayout.Layout` | encoder.c:463-484 | each string stands behind its length; each function is its name's place, the argument and register counts, no locals, the length of its code and the code |

## Left out

- HashMap.Map.Set: hashes with the map's own hash; the source hashes the pointer, so a map keyed by identity and used by pointer as well is not modelled.
- HashMap.Map.Replay: settings of a stored key after a deletion are left out of runs; one such setting is covered by HashMap.Map.Set, which says exactly when it makes a second copy, and nothing is stated for a table with two copies.
- HashMap.Map.Resize: grows without the 32-bit limit on the number of slots and never fails to allocate.
- Hash map: iteration, clearing, space reservation and reference counts.
- BTree.OrderedMap.Set: `count` and tree sizes are unbounded; allocation failure and copy-on-write mode are not modelled.
- BTreeNode.Node.Insert: a node's item and child arrays are sequences of the entries in use, not fixed arrays with a length.
- BTreeIter.Iter.All: the tree does not change while it is iterated.
- Matcher.State.Call: only the mode in which the end of input is a miss; no streaming, no REF, EXEC or callback patterns; stack and capture arrays do not run out.
- Codegen.Generator.ConsumeExpr: integer and constant literals, locals, prefix operators and the seventeen two-operand operators that have both a register and an immediate handler; no doubles, strings, accesses, calls, short-circuit operators, increments or function literals.
- Codegen.Generator.ConsumeStmt: no for loops, returns, gotos, multiple assignment or assignments inside expressions.
- Codegen.Generator.Find: a name that is not declared makes the compilation fail here; the source turns it into a member of `_global`. Generated labels share the map of locals in the source, so a variable named like one (`wend_1`) is outside the model.
- Compiler.CompileFunction: the fixed capacity of the opcode array, 32-bit wrap of label and loop numbers, and the assignment of a named function to its name.
- Compiler.MachineThenEvaluator: claims nothing about a program that reads a variable before setting it; its register may hold an old temporary.
- Link.CachedFromBytes: each jump has its own label object, as each `b_reg_ulabel` and `b_ulabel_idx` call makes one; explicit gotos that share an object are covered by `Encoder.JumpExact` alone.
- Link.EvaluatorThenOperations: operators are the value functions of the evaluator; tagged arithmetic, reference counts, coroutines, metamethods and the frame setup of a call are not modelled.
- RegAlloc.Allocator.TmpContinuous: `qsort` is a function that returns the sorted list.
- Encoder.BuildCached: takes code made of whole instructions; on a truncated one the source reads past its end. Which bytes have a handler is a parameter.
- Payload.ReadBack: lists of at most 255 registers, and only what a handler reads; building the map or array, looking names up and the check of string ids against the table are not modelled. The byte order of the host is little-endian.
- Payload.MoveTo: 256 registers with the window among them, values without reference counts.
- Unit.EncodeThenLoad: the fields' truncation to 16 and 32 bits is modelled, but the round trip is stated where they do not truncate; the reader's bound check wraps at 32 bits in the source and does not here.
- Arena.Arena.Alloc: one arena; walking or adding arenas of a type, destructors, the stack of new objects, and the tracking, canary and poison builds.
- Arena.Arena.FreeLinked: called with the size the block was allocated with; other sizes are misuse.
- TrimZeros.TrimZeros: rotation and bitwise or are written arithmetically; the rest of the double printer, which needs the power-of-ten table, is not part of this model.
- Decimal.FromString: hexadecimal and binary prefixes, fractions and exponents end in `Elsewhere`, without a value.
- Decimal.ToString: integers only.
- Parser.Parser.ExprBp: 56 of the 68 table entries: prefix, postfix and binary operators, brackets, calls, accesses by index and atoms; no newline handling, comma lists, member and map accesses, functions or statements.
- Parser.Parser.WrappingExpression: with no comma lists, a literal has at most one item.
- Spelling.Exactly: for limits of at least 112, the least the expression parser is called with on an operand.
- `ci_timer.c`, `ci_array.c`, `ci_string.c`, file and console I/O, dump helpers: not part of this model.
