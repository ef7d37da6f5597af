# Verified models of the algorithm cores

The repository collects course projects in C and C++. This project models the algorithms among them
that carry a deep property, and proves those properties of the models. Code that changes state in
place is modelled by classes whose methods change fields, nodes or arrays in place; each such method
is proved against a function or a predicate on values, and the theorems are about those.

| modules | what they model | main results |
|---|---|---|
| `RbBalance`, `RbHeap`, `RbInsert`, `RbErase`, `RbSplice`, `RbTree` | the intrusive red-black tree with parent pointers and the ordered set on top of it | insert, delete, replace, search, traversal and comparison on the heap refine a sorted sequence of nodes; every rebalancing loop ends in a valid tree; search is logarithmic |
| `Grammars`, `LrItems`, `LrTables`, `LrParser`, `LrPumping`, `LrViable`, `LrHalting`, `LrFamilies`, `LrDriver`, `LrLoops` | the LR(0) generator and its parser | the automaton is the canonical collection, and its sets hold exactly the items that ways down the productions lead to; for every grammar the parser never gets stuck and accepts only sentences; the exact condition on an LR(0) grammar under which it ends on every input, and decides the language; two grammars on which it does not end |
| `LlSets`, `LlTables`, `LlParser`, `LlLanguage`, `LlExpression` | the LL(1) generator and its parser | FIRST and FOLLOW mean what they should; the parser always ends and decides whether the tokens before the first end mark of its global queue are a sum of products of factors |
| `PageLaws`, `PageOptimal`, `PageTies`, `PageQueues`, `PageRecency`, `PageClock`, `PageTraces`, `PageReplacement` | the page replacement simulator | which page each policy gives up, told from the memories and references of its run alone; the optimal policy is at most one replacement off, and it is exactly known when; LRU, FIFO and clock are competitive; more frames never hurt LRU |
| `GoBackN`, `GbnMessages`, `GbnWindows`, `GbnRecovery` | Go-Back-N over channels that lose and damage | safe over every run if and only if no acknowledgement is taken before the first acceptance; which bounds are safe; when the window test is right; from every state everything can still be delivered |
| `MemArena`, `MemPolicies`, `MemAllocator` | the boundary-tag allocators with first, best and worst fit | the layout invariant over every request and release; what is chosen, how much of it is given out, and that this leaves no choice of layout; a release undoes its request |
| `Formulas`, `Infix`, `InfixGrouping`, `Quads` | infix to postfix to quadruples | products bind stronger than sums; exactly when the quadruples compute the value of the expression; which texts are grouped as usual |
| `Peterson` | two threads under Peterson's lock | mutual exclusion, no deadlock, bounded overtaking, no lost update |
| `PrecedenceFunctions` | the iteration for precedence functions | it ends if and only if there is a solution, and then at the least one |
| `Sequences` | what several of the models say about sequences | shared definitions |

## How to read the models

- **Red-black tree.** A `Root` keeps a ghost copy of the fields of its nodes and a ghost tree value;
  `Valid` says that the copy is right, that the nodes are linked as the tree (children, parents,
  colours), that the tree obeys the red-black rules and that its keys increase. A loop that climbs
  carries the path above its node; `At` says that the heap holds a tree at the hole of a path. Keys
  are integers, into which the finitely many keys of any total order embed. The cases that the C code
  writes inline are separate methods here.
- **LR(0).** The containers of items are sets, and loops over them take the items in an arbitrary
  order, because the source orders them by address. `Stuck` stands for what the C code would do
  wrong: popping below the bottom, pushing a transition of -1, reading outside a table. Theorems about
  runs count steps: each leaf and each node of a parse forest is one. A forest `Stands` when its roots
  can be on the stack; a grammar is `Tame` when no stack can grow out of nothing back into the same
  state and none can be derived from itself, and tokens are `Bounded` when the forests that can stand
  over a beginning of them are bounded in size.
- **LL(1).** Symbols are names instead of integer codes; ε and the end mark are two terminals of their
  own. The generator and the parser are proved for every grammar; the last module instantiates them.
  Stack and queue are fields of the parser that every call finds as the one before it left them.
- **Page replacement.** Every algorithm also returns a ghost `Trace`, the memories before each reference
  and after the last one; the laws in `PageLaws` say which page is given up from that and the references,
  and know nothing of queues, flags or hands. A demand policy is any way of choosing victims; `Feasible` says that some
  demand policy serves a string with at most so many replacements. The number of frames and the
  reference string are parameters.
- **Go-Back-N.** One machine holds both sides and both channels, which deliver in order but may lose
  or damage anything. The number of sequence numbers and the most datagrams outstanding are separate;
  the source has 10 for both. Remainders are written as its `MOD` macro expands, without parentheses
  around its first argument. The objects `Client` and `Server` are proved to do what the machine's
  steps do.
- **Allocators.** The three files differ only in how the free list is searched and where a block is
  inserted, so one class takes the policy as a parameter. Blocks are offsets; header and footer fields
  are maps from offsets, with the next link at the end of the footer, so that it moves when a block
  grows. Header and footer are 13 and 12 bytes, their sizes on a 64-bit machine.
- **Infix and quadruples.** `Formulas` has sums, products and factors with their text, postfix and value,
  and knows nothing of ranks or grammars; the theorems about the infix machine, the quadruples and the
  expression grammar are stated with it. Where other groupings of a text are discussed, an expression is a
  tree of operands and operators; `Show` prints it with the parentheses it needs when equal ranks group to
  the right.
- **Peterson.** A step is one read or write of a shared variable by either thread; the two parts of
  the waiting condition are read in separate steps. Account values wrap around at 32 bits.

## What the proofs found

- The page scoring at `OS/实验三/project_3/main.c:80-92` gives "used at the last reference" and "never
  used again" the same score. `PageOptimal.OptIsNotOptimal` is a string on which this costs a
  replacement, and `PageTies.OptIsOptimalExactly` says exactly when it does.
- `last_sent_ackn` starts at 0 (`network_theory/gbn_client/gobackn_protocol.cpp:12`), so a server that
  has accepted nothing acknowledges number 0. `GoBackN.DamagedFirstDatagram` shows the byte lost, and
  `GoBackN.SafeExactly` that this is the only way to lose one below the full window.
- With as many datagrams outstanding as there are sequence numbers, which the source allows, the
  property fails even without that: exactly the smaller bounds are safe (`GbnWindows.SafeBoundsExactly`).
  `window_empty` holds whenever the number outstanding is a multiple of the number of sequence numbers
  (`GbnWindows.WindowTestExactly`), so a full window looks empty (`GbnWindows.FullWindowLooksEmpty`).
  Messages shorter than that number avoid both: at the end of such a message everything has been
  delivered (`GbnMessages.ShortMessagesSafeExactly`, `GbnWindows.ShortMessagesDelivered`).
- Operators of equal rank group to the right, because the comparison at
  `byyl/实验六/project_6/main.c:144` is strict. `InfixGrouping.LeftGroupingExactly` says for which
  expressions, printed with the usual grouping to the left, this changes the postfix.
- The LR(0) parser need not end. For an LR(0) grammar it ends on every token string if and only if no
  stack grows out of nothing and none is derived from itself (`LrHalting.EndsExactly`); for any other
  grammar that is enough (`LrHalting.TameRunEnds`). It runs for ever on `aa` for S → S | a
  (`LrLoops.RenamingRunsForEver`). On the empty string for S → A S, A → ε, which has no conflict, its
  stacks grow at every step (`LrLoops.BarrenRunsForEver`), so there the source runs over the end of its
  256-entry stacks.
- A capital letter as an operand meets the temporary of its name. `Quads.ProgramExactly` says exactly
  when that spoils the value.
- The end mark is never taken out of the global queue of the LL(1) parser
  (`byyl/实验三/project_3/main.cpp:264-266`), so after a text that is accepted the next call rejects
  whatever it is given (`LlExpression.ParseExpressions`).
- The iteration for precedence functions, over integers of any size, ends on no matrix without a solution
  (`PrecedenceFunctions.PassesEndExactly`).
- `container_replace` does not compare the new key with its neighbours, so it keeps the search order
  exactly when the new key fits (`RbTree.Root.Replace`).

## Model

| member | source | states |
|---|---|---|
| RbTree.Root.constructor | byyl/实验五/project_5/rbtree/rbtree_rc.c:7-10 | a new tree is valid and empty |
| RbTree.Root.Search | byyl/实验五/project_5/rbtree/rbtree_rc.c:15-32 | returns a node with the key if and only if one is in the tree, after at most 2·log2(n+1) comparisons: two to the number of comparisons is at most (n+1)² |
| RbTree.Root.Insert | byyl/实验五/project_5/rbtree/rbtree_rc.c:37-63 | keeps a valid red-black search tree; returns -1 exactly when an equal key is there, and then no field of any node and nothing else has changed; otherwise exactly the new node is added, at its place in key order |
| RbTree.Root.LinkNode | byyl/实验五/project_5/rbtree/rbtree.h:88-95 | the only fields written are the new node's and the slot the search ended at |
| RbTree.Root.InsertColor | byyl/实验五/project_5/rbtree/rbtree.c:71-194 | the loop on the heap ends, and ends with the nodes linked as the tree that the case analysis on values gives, parent pointers and colours included |
| RbTree.Root.TurnLeft | byyl/实验五/project_5/rbtree/rbtree.c:94-157 | one turn under a left child either finishes the whole repair or has brought the same repair two levels further up |
| RbTree.Root.TurnRight | byyl/实验五/project_5/rbtree/rbtree.c:158-192 | the mirror image |
| RbTree.Root.RotateUnderLeft | byyl/实验五/project_5/rbtree/rbtree.c:117-157 | cases 2 and 3 write exactly the fields of the rotations |
| RbTree.Root.RotateUnderRight | byyl/实验五/project_5/rbtree/rbtree.c:170-191 | the mirror image |
| RbTree.Root.RotateSetParents | byyl/实验五/project_5/rbtree/rbtree.c:61-69 | the upper node takes over parent, colour and slot of the lower one, and nothing else changes |
| RbTree.Root.ChangeChild | byyl/实验五/project_5/rbtree/rbtree.h:168-179 | exactly the slot that held the old child now holds the new one, in the parent or at the root |
| RbInsert.OuterRight | byyl/实验五/project_5/rbtree/rbtree.c:142-157 | a right rotation on the heap turns the place of the grandparent into the rotated subtree; everything around it, parent links too, stays in place |
| RbInsert.InnerRight | byyl/实验五/project_5/rbtree/rbtree.c:117-157 | a double rotation on the heap does the same from an inner grandchild, through the state in which its parent links are stale |
| RbInsert.TurnFlip | byyl/实验五/project_5/rbtree/rbtree.c:95-115 | a colour flip moves the only violation two levels up and does not change what the repair will come to |
| RbInsert.TurnRotate | byyl/实验五/project_5/rbtree/rbtree.c:117-157 | the rotation cases leave no violation: the heap holds the finished tree |
| RbBalance.InsertFixBalances | byyl/实验五/project_5/rbtree/rbtree.c:71-194 | repairing a red-red violation gives black root, no red node with a red child and equal black heights |
| RbBalance.InsertFixKeepsOrder | byyl/实验五/project_5/rbtree/rbtree.c:71-194 | the repair keeps the nodes and their order |
| RbTree.Root.Delete | byyl/实验五/project_5/rbtree/rbtree_rc.c:69-76 | keeps a valid red-black search tree; returns the node with the key and takes exactly it out, or null exactly when there is none and then nothing changed |
| RbTree.Root.Erase | byyl/实验五/project_5/rbtree/rbtree.c:380-383 | takes exactly the given node out of a valid tree and leaves a valid one |
| RbTree.Root.Unlink | byyl/实验五/project_5/rbtree/rbtree.h:183-274 | the node leaves the linked structure, and the result is the parent of the place where a black node is missing, or null when none is |
| RbTree.Root.SpliceDouble | byyl/实验五/project_5/rbtree/rbtree.h:215-274 | a node with two children is replaced by its successor, which takes its links and colour |
| RbTree.Root.FindSuccessor | byyl/实验五/project_5/rbtree/rbtree.h:217-250 | the walk ends at the least node of the right subtree, and returns its parent as the source's two cases do |
| RbTree.Root.EraseColor | byyl/实验五/project_5/rbtree/rbtree.c:196-356 | the climb ends, and ends with the nodes linked as the tree that the case analysis on values gives |
| RbTree.Root.EraseTurn | byyl/实验五/project_5/rbtree/rbtree.c:202-354 | one turn either finishes the whole repair, exactly when the case analysis on values does, or leaves the shortage of one black node one level further up |
| RbErase.RedSibling | byyl/实验五/project_5/rbtree/rbtree.c:212-229 | case 1 keeps the shortage where it was and makes the sibling black |
| RbErase.LiftedInPlace | byyl/实验五/project_5/rbtree/rbtree.c:261-303 | cases 3 and 4 end the repair on the heap, on both sides |
| RbErase.FlippedInPlace | byyl/实验五/project_5/rbtree/rbtree.c:231-260 | case 2 ends the repair under a red parent and otherwise moves the shortage to the parent |
| RbBalance.EraseFixBalances | byyl/实验五/project_5/rbtree/rbtree.c:196-356 | with one black node too few on every path below a hole, the repair restores all red-black rules |
| RbBalance.EraseFixKeepsOrder | byyl/实验五/project_5/rbtree/rbtree.c:196-356 | and keeps the nodes and their order |
| RbBalance.EraseAtBalances | byyl/实验五/project_5/rbtree/rbtree.h:183-279 | erasing any node of a red-black tree gives a red-black tree |
| RbBalance.EraseAtOrder | byyl/实验五/project_5/rbtree/rbtree.h:183-279 | erasing takes exactly the one node out of the order |
| RbSplice.DoubleInPlace | byyl/实验五/project_5/rbtree/rbtree.h:215-274 | the assignments for a node with two children, in either of the source's two cases, leave the spliced tree in place |
| RbTree.Root.First | byyl/实验五/project_5/rbtree/rbtree.c:403-413 | the least node, or null for the empty tree |
| RbTree.Root.Next | byyl/实验五/project_5/rbtree/rbtree.c:429-458 | the node that follows in key order, or null after the last |
| RbTree.Root.Prev | byyl/实验五/project_5/rbtree/rbtree.c:461-487 | the node before in key order, or null before the first |
| RbTree.NextOfPlace | byyl/实验五/project_5/rbtree/rbtree.c:429-458 | told by its place: after the node at place i comes the one at i+1, and nothing after the last |
| RbTree.PrevOfPlace | byyl/实验五/project_5/rbtree/rbtree.c:461-487 | before the node at place i comes the one at i-1, and nothing before the first |
| RbTree.Root.Traverse | byyl/实验五/project_5/rbtree/rbtree_rc.c:92-97 | visits every node exactly once, in strictly increasing key order, and ends |
| RbTree.Root.Compare | byyl/实验五/project_5/rbtree/rbtree_rc.c:99-113 | the difference of the keys at the first place where the two key sequences differ; 1 or -1 when only the first or only the second goes on there; 0 when both end |
| RbTree.CompareZero | byyl/实验五/project_5/rbtree/rbtree_rc.c:99-113 | for valid trees the comparison is 0 if and only if the key sets are equal, whatever the shapes |
| RbTree.Root.Replace | byyl/实验五/project_5/rbtree/rbtree_rc.c:82-89 | the found node's place in the order goes to the new one; the result is a valid tree if and only if the new key fits between the neighbours |
| RbTree.Root.ReplaceNode | byyl/实验五/project_5/rbtree/rbtree.c:490-504 | the shape and colours stay, and only the one node is exchanged |
| RbBalance.RedBlackExactly | byyl/实验五/project_5/rbtree/rbtree.c:25-39 | the red-black rules of the model hold if and only if the root is black and, on the ways down to the leaves, no red node follows a red one and the same number of black nodes is met |
| RbTree.SearchCost | byyl/实验五/project_5/rbtree/rbtree.c:36-39 | a red-black tree of n nodes is at most 2·log2(n+1) high |
| LrTables.Generator.MakeAllItems | byyl/实验五/project_5/LR0_parser.c:284-319 | the grammar is augmented with a new start symbol, and all dotted positions of all productions are made |
| LrTables.Generator.MakeItemSetClosure | byyl/实验五/project_5/LR0_parser.c:326-357 | ends, with the least closed superset |
| LrItems.ClosureIsLeast | byyl/实验五/project_5/LR0_parser.c:326-357 | the specification of closure is closed, contains the set, and lies in every closed superset |
| LrTables.Generator.MakeStateItemSet | byyl/实验五/project_5/LR0_parser.c:375-393 | the goto of an item set on a symbol; empty exactly when no item waits for the symbol |
| LrItems.RunGoesOn | byyl/实验五/project_5/LR0_parser.c:375-393 | the automaton moves on from the state of a string exactly when an item there waits for the symbol |
| LrViable.ItemsAreOpen | byyl/实验五/project_5/LR0_parser.c:375-393 | a dotted production is in the set that a string leads to if and only if there is a way down the productions from the start symbol, each entered at the symbol where the one above is left, that spells the string: no closure, goto or state is mentioned |
| LrTables.Generator.FindSameState | byyl/实验五/project_5/LR0_parser.c:395-404 | the index of the state with this item set, or -1 exactly when there is none |
| LrTables.Generator.MakeDfa | byyl/实验五/project_5/LR0_parser.c:406-449 | ends, with pairwise different states, all reachable, the start state first, and every transition the index of the goto set or -1 exactly when that set is empty |
| LrTables.DfaStates | byyl/实验五/project_5/LR0_parser.c:406-449 | an item set is a state if and only if some string of symbols leads to it and it is not empty: the canonical collection |
| LrTables.DfaIsComplete | byyl/实验五/project_5/LR0_parser.c:431-448 | every string that leads anywhere leads to a state |
| LrTables.Generator.StateGo | byyl/实验五/project_5/LR0_parser.c:451-464 | the transition on the symbol |
| LrTables.Generator.MakeParsingTable | byyl/实验五/project_5/LR0_parser.c:494-543 | an ACTION cell holds something that an item of the state asks for, and is an error exactly when no item asks; a GOTO cell holds the transition, or -1 when no item waits for the nonterminal |
| LrTables.Generator.WriteItem | byyl/实验五/project_5/LR0_parser.c:507-541 | after each item the cells are right for the items seen so far, in whatever order they come |
| LrItems.RunSuffix | byyl/实验五/project_5/LR0_parser.c:375-393 | an item in the state of a string has what stands before its dot as the end of that string, and begins where the string without it leads |
| LrItems.RunAwaits | byyl/实验五/project_5/LR0_parser.c:326-357 | where an item begins, another waits for its left side, unless it is the start item at the beginning |
| LrItems.RunAccepts | byyl/实验五/project_5/LR0_parser.c:509-511 | the accepting item is complete only after exactly the old start symbol |
| LrParser.ReduceKeeps | byyl/实验五/project_5/LR0_parser.c:663-670 | a reduction pops exactly the right side of its production from both stacks, never underflows and never pushes -1; the state stack remains the automaton's path of the symbol stack |
| LrParser.ShiftKeeps | byyl/实验五/project_5/LR0_parser.c:658-662 | a shift keeps the state stack on the path of the symbol stack, and never reads past the input |
| LrParser.AcceptMeans | byyl/实验五/project_5/LR0_parser.c:656-677 | acceptance happens only with the input used up and just the start symbol on the stack, which then derives the tokens |
| LrParser.StepIsSafe | byyl/实验五/project_5/LR0_parser.c:656-677 | one turn of the loop, whatever the table says: never stuck, the invariant kept, acceptance proves a derivation |
| LrParser.ParserIsSound | byyl/实验五/project_5/LR0_parser.c:640-678 | for every grammar, any number of steps: never stuck, the stacks on a path, and acceptance only of sentences |
| LrParser.ForestIsParsed | byyl/实验五/project_5/LR0_parser.c:640-678 | over tables without conflicts the parser carries out any parse forest that an item of the top state waits for, in exactly one step for each leaf and each node |
| LrParser.ParserIsComplete | byyl/实验五/project_5/LR0_parser.c:640-678 | over tables without conflicts every sentence is accepted |
| LrParser.ParserDecidesLanguage | byyl/实验五/project_5/LR0_parser.c:640-678 | over tables without conflicts a token string is accepted after some number of steps if and only if the start symbol derives it |
| LrHalting.ConflictFreeExactly | byyl/实验五/project_5/LR0_parser.c:494-543 | no cell of the tables is asked for two different actions if and only if the grammar is LR(0): beside an item that is complete every other item of a state waits for a nonterminal |
| LrHalting.Lr0Exactly | byyl/实验五/project_5/LR0_parser.c:494-543 | a grammar is LR(0) if and only if, told by such ways alone, wherever a right side can be reduced no other can, no terminal can come next, and what was read is not just the start symbol |
| LrPumping.TameExactly | byyl/实验五/project_5/LR0_parser.c:656-677 | the forests whose roots can stand on the stack over a beginning of the tokens are bounded in size, for every token string, if and only if no stack can grow out of nothing back into the same state and no stack can be derived from itself |
| LrHalting.RunningExactly | byyl/实验五/project_5/LR0_parser.c:656-677 | over tables without conflicts the parser is still running after n steps if and only if a forest with n leaves and nodes can stand over a beginning of the tokens |
| LrHalting.BoundedRunEnds | byyl/实验五/project_5/LR0_parser.c:656-677 | over any tables, a run ends on tokens over which those forests are bounded |
| LrHalting.RunEndsExactly | byyl/实验五/project_5/LR0_parser.c:656-677 | for an LR(0) grammar the run on given tokens ends if and only if they are bounded |
| LrHalting.TameRunEnds | byyl/实验五/project_5/LR0_parser.c:656-677 | over any tables, conflicts included, every run ends when no stack grows out of nothing and none is derived from itself |
| LrHalting.EndsExactly | byyl/实验五/project_5/LR0_parser.c:640-678 | for an LR(0) grammar the parser ends on every token string if and only if no stack grows out of nothing and none is derived from itself |
| LrViable.ReadableIsViable | byyl/实验五/project_5/LR0_parser.c:375-393 | every string that the automaton reads is the beginning of a string that the start symbol derives |
| LrViable.WayIsDerivation | byyl/实验五/project_5/LR0_parser.c:375-393 | such a way is a derivation: the start symbol derives what is read, then the symbol in front of which the way ends, then some rest |
| LrFamilies.CleanRunEnds | byyl/实验五/project_5/LR0_parser.c:656-677 | so every run ends over tables without conflicts, when every nonterminal derives some string of terminals |
| LrFamilies.RankedRunEnds | byyl/实验五/project_5/LR0_parser.c:656-677 | and over any tables, when no right side is empty and productions that rename one symbol to another go down a ranking |
| LrHalting.ParserEnds | byyl/实验五/project_5/LR0_parser.c:640-678 | under that condition on the grammar, or boundedness over the given tokens, the parser ends over any tables, and always by accepting or rejecting |
| LrHalting.FinishedRunDecides | byyl/实验五/project_5/LR0_parser.c:640-678 | a run that has ended over tables without conflicts accepted if and only if the tokens are a sentence |
| LrHalting.ParserDecides | byyl/实验五/project_5/LR0_parser.c:640-678 | for an LR(0) grammar where the run ends, it ends by accepting a sentence or rejecting anything else |
| LrLoops.RenamingRunsForEver | byyl/实验五/project_5/LR0_parser.c:656-677 | for S → S | a the parser runs for ever on aa, in whatever order the tables were filled |
| LrLoops.BarrenIsLr0 | byyl/实验五/project_5/LR0_parser.c:494-543 | the grammar S → A S, A → ε is LR(0) |
| LrLoops.BarrenRunsForEver | byyl/实验五/project_5/LR0_parser.c:656-677 | and yet its parser works without end on the empty string, its stacks growing at every step: S derives no string of terminals |
| LrDriver.Lookup | byyl/实验五/project_5/LR0_parser.c:671 | the action looked up is the one the step function takes; a shift has a token to shift and a reduction goes through |
| LrDriver.Reduce | byyl/实验五/project_5/LR0_parser.c:663-670 | both stacks after a reduction are those of the step function |
| LrDriver.Parse | byyl/实验五/project_5/LR0_parser.c:640-678 | the loop over the array stacks, on an input on which it ends: ends with the outcome of the specified run, which is an acceptance or a rejection |
| LrDriver.Recognize | byyl/实验五/project_5/LR0_parser.c:640-678 | from a grammar alone, through generator and parser, when runs end by the exact condition on the grammar or on the tokens: ends, and accepts only sentences; for an LR(0) grammar, exactly the sentences |
| LlTables.Generator.MakeFirst | byyl/实验三/project_3/main.cpp:79-113 | the rounds end, at the least solution of the FIRST equations |
| LlTables.Generator.AddProduction | byyl/实验三/project_3/main.cpp:98-108 | adds what a production contributes, and nothing to any other nonterminal |
| LlTables.Generator.MakeListFirst | byyl/实验三/project_3/main.cpp:115-127 | FIRST of a string of symbols |
| LlTables.Generator.MakeFollow | byyl/实验三/project_3/main.cpp:129-166 | the rounds end, at the least solution of the FOLLOW equations |
| LlTables.Generator.AddFollow | byyl/实验三/project_3/main.cpp:144-159 | adds what one place in a production contributes |
| LlTables.SameSizeSameSets | byyl/实验三/project_3/main.cpp:112 | growing sets whose sizes add up to the same have not changed, so the loop's test is right |
| LlSets.FirstIsExact | byyl/实验三/project_3/main.cpp:79-113 | a terminal is in FIRST(X) if and only if X derives a string beginning with it, and ε if and only if X derives the empty string |
| LlSets.ClosedFirstHasStarts | byyl/实验三/project_3/main.cpp:79-113 | any solution of the FIRST equations contains all that can begin a derived string |
| LlSets.TrueFirstIsClosed | byyl/实验三/project_3/main.cpp:79-113 | what can begin a derived string is itself a solution |
| LlSets.FollowIsExact | byyl/实验三/project_3/main.cpp:129-166 | when every nonterminal is reachable, a terminal or the end mark is in FOLLOW(A) if and only if it can come next after A in a string derived from the start symbol and the end mark |
| LlSets.ClosedFollowHasNext | byyl/实验三/project_3/main.cpp:129-166 | any solution of the FOLLOW equations contains all that can come next |
| LlSets.TrueFollowIsClosed | byyl/实验三/project_3/main.cpp:129-166 | what can come next is itself a solution |
| LlTables.Generator.MakeParsingTable | byyl/实验三/project_3/main.cpp:168-209 | each cell is the first production predicted for it, or empty exactly when none is |
| LlTables.Generator.Choose | byyl/实验三/project_3/main.cpp:177-205 | the first production of the nonterminal that the terminal predicts |
| LlParser.LookupParsingTable | byyl/实验三/project_3/main.cpp:211-223 | the table's entry, and none for a terminal outside the columns |
| LlParser.StepIsSound | byyl/实验三/project_3/main.cpp:243-272 | what has been read followed by the stack is derived from the start symbol; every step keeps this |
| LlParser.ParserIsSound | byyl/实验三/project_3/main.cpp:230-273 | for every grammar and any sets, what is accepted is a sentence |
| LlParser.ForestIsParsed | byyl/实验三/project_3/main.cpp:243-272 | over a predictive table the parser follows any parse forest to acceptance |
| LlParser.ParserIsComplete | byyl/实验三/project_3/main.cpp:230-273 | over a predictive table every sentence is accepted |
| LlParser.RunEnds | byyl/实验三/project_3/main.cpp:243-272 | when no nonterminal comes back to itself without reading a token, every run ends |
| LlParser.ParserDecides | byyl/实验三/project_3/main.cpp:230-273 | over a predictive table a finished run accepted if and only if the tokens are a sentence |
| LlParser.PushBody | byyl/实验三/project_3/main.cpp:248-251 | the right side without ε is on top of the stack, first symbol first |
| LlParser.Parser.Turn | byyl/实验三/project_3/main.cpp:243-272 | one turn on the two global containers is a step of the parser: what other calls left below the end mark of the stack and behind that of the queue stays |
| LlParser.Parser.Parse | byyl/实验三/project_3/main.cpp:230-273 | the loop ends whatever is queued, and returns true exactly when the tokens before the first end mark of the queue, earlier leavings first, are a sentence; the end mark is left in the queue |
| LlExpression.LeastIsBounded | byyl/实验三/project_3/project_2_3_def.h:50-64 | the computed sets of the expression grammar lie within explicit ones |
| LlExpression.GrammarIsLl1 | byyl/实验三/project_3/project_2_3_def.h:50-64 | with those sets no two productions of a nonterminal are predicted by the same terminal |
| LlExpression.GrammarIsRanked | byyl/实验三/project_3/project_2_3_def.h:50-64 | the expression grammar has no left recursion, hidden or not |
| LlExpression.MakeTable | byyl/实验三/project_3/main.cpp:297-318 | sets and table of the expression grammar: they fit a parser that always ends and decides |
| LlLanguage.ExpressionsExactly | byyl/实验三/project_3/project_2_3_def.h:50-64 | the grammar derives a token string if and only if it is the text of a sum of products of factors over i, given as a datatype with + - * / and the parentheses spelled out |
| LlExpression.ParseExpressions | byyl/实验三/project_3/main.cpp:275-337 | the first file is accepted exactly when it is the text of a sum of products of factors over i, + - * / and parentheses; the second is judged in the same way together with what the first left in the queue, and so is rejected after an accepted one, whatever it holds |
| PageReplacement.Simulator.LoadPage | OS/实验三/project_3/main.c:25-44 | the frames hold the first different pages, in the order of their first references, and the last reference used is the first one of the last page; the memory fills if and only if there are as many different pages as frames |
| PageReplacement.Simulator.InMem | OS/实验三/project_3/main.c:46-53 | whether the page is in some frame |
| PageReplacement.Simulator.CountAhead | OS/实验三/project_3/main.c:80-86 | the score of a page: how many references are looked at until it is met |
| PageReplacement.Simulator.ChooseVictim | OS/实验三/project_3/main.c:77-91 | the first frame with the highest score |
| PageReplacement.Simulator.OptReplAlg | OS/实验三/project_3/main.c:71-97 | at every miss the page given up is the first of those referenced furthest ahead, with the last position for those not referenced again, and the count is the number of references absent from memory; some demand policy makes as many replacements; none from the same memory makes fewer by more than one, and none makes fewer if and only if no tie over the last page is lost; 0 when the memory never fills |
| PageOptimal.SoonerIsBetter | OS/实验三/project_3/main.c:71-97 | of two memories that differ in one page, the one whose page is used sooner can do whatever the other can |
| PageOptimal.FurthestIsBest | OS/实验三/project_3/main.c:71-97 | evicting a page used furthest ahead is as good as any other eviction |
| PageOptimal.ScoreIsNextUse | OS/实验三/project_3/main.c:80-92 | the score is the next use over all references but the last, and so cannot tell the last from never |
| PageOptimal.OptIsOptimal | OS/实验三/project_3/main.c:71-97 | over all references but the last no demand policy replaces less |
| PageOptimal.OptIsNearlyOptimal | OS/实验三/project_3/main.c:71-97 | over all references no demand policy replaces less by more than one |
| PageOptimal.OptIsNotOptimal | OS/实验三/project_3/main.c:80-92 | two frames and two references on which one replacement would do and the policy makes two |
| PageTies.OptIsOptimalExactly | OS/实验三/project_3/main.c:71-97 | the policy is optimal on the whole string if and only if it does not evict the last page, unused until then, while another page lies idle and two idle pages remain at every later miss |
| PageTies.TieCosts | OS/实验三/project_3/main.c:80-92 | when it does, it pays exactly one replacement that another policy saves |
| PageReplacement.Simulator.FifoReplAlg | OS/实验三/project_3/main.c:113-127 | at every miss the page given up is the one loaded longest ago, and the count is the number of references absent from memory; it is at most the number of frames times that of any demand policy from the same memory |
| PageReplacement.Simulator.LruReplAlg | OS/实验三/project_3/main.c:129-169 | at every miss the page given up is the one in memory whose last reference is longest ago, and the count is the number of references absent from memory; it is at most the number of frames times that of any demand policy; at the end memory and queue hold the same pages |
| PageReplacement.Simulator.LruReference | OS/实验三/project_3/main.c:149-166 | one reference moves its page to the end of the queue, or replaces the front by it, and the frames keep holding exactly the queue's pages |
| PageReplacement.Simulator.LruEnqueue | OS/实验三/project_3/main.c:136-146 | one reference while there is room: its page moves to the end of the queue or is appended |
| PageReplacement.Simulator.LruLoad | OS/实验三/project_3/main.c:135-147 | after loading the queue is the pages in order of last use |
| PageRecency.RecentIsKept | OS/实验三/project_3/main.c:135-166 | the queue always lists the most recently used pages in order of last use |
| PageRecency.RecencyIsByLastUse | OS/实验三/project_3/main.c:135-166 | later in that order is later referenced |
| PageRecency.Inclusion | OS/实验三/project_3/main.c:129-169 | with fewer frames the queue is a suffix of the queue with more |
| PageRecency.MoreFramesReplaceLess | OS/实验三/project_3/main.c:129-169 | given enough different pages, more frames never cost more replacements |
| PageRecency.LruIsCompetitive | OS/实验三/project_3/main.c:129-169 | at most the number of frames times the replacements of any demand policy |
| PageRecency.FifoIsCompetitive | OS/实验三/project_3/main.c:113-127 | likewise for first in first out |
| PageClock.ReplaceShifts | OS/实验三/project_3/main.c:181-196 | a replacement by the hand takes the front of a hidden order of eviction and puts the new page at its end |
| PageClock.MarkMoves | OS/实验三/project_3/main.c:198-203 | setting a flag moves the page back in that order |
| PageClock.ClockIsCompetitive | OS/实验三/project_3/main.c:171-207 | at most the number of frames times the replacements of any demand policy |
| PageQueues.QueuesAreCompetitive | OS/实验三/project_3/main.c:113-207 | the same bound for every policy that evicts the front of an order, appends misses and only moves hits back |
| PageReplacement.Simulator.ClockReplAlg | OS/实验三/project_3/main.c:171-207 | at every miss the page given up is in the first frame from the hand on that was neither loaded nor referenced since the hand last went past it, or under the hand when there is none; the hand stands one past the frame loaded last; the count is the number of references absent from memory, and at most the number of frames times that of any demand policy |
| PageTraces.ClockGivesSecondChance | OS/实验三/project_3/main.c:171-207 | what the flags and the hand do step by step obeys that law, in which neither flags nor a stored hand occur |
| PageTraces.FlagIsUsed | OS/实验三/project_3/main.c:181-203 | a flag is set exactly when its frame was loaded or referenced since the hand last went past |
| PageTraces.RoundRobinIsOldest | OS/实验三/project_3/main.c:120-124 | loading round robin gives up the page loaded longest ago |
| GoBackN.SafeExactly | network_theory/gbn_client/gobackn_protocol.cpp:10-103 | with fewer datagrams outstanding than sequence numbers, over every interleaving of additions, losses, damage, timeouts and deliveries: accepted bytes are always a prefix of those given and only accepted bytes have left the window, if and only if no acknowledgement is taken before the first acceptance |
| GoBackN.StepKeeps | network_theory/gbn_client/gobackn_protocol.cpp:21-103 | every step keeps the invariant that ties window, counters and both channels to the bytes given and accepted |
| GoBackN.RunKeeps | network_theory/gbn_server/gobackn_protocol.cpp:140-190 | hence every run does |
| GoBackN.EmptyWindowMeansDelivered | network_theory/gbn_client/gobackn_protocol.cpp:37-39 | below the full window, the window test holds if and only if nothing is outstanding, and then all that was given has been accepted, in order |
| GbnRecovery.Recovers | network_theory/gbn_client/gobackn_protocol.cpp:54-72 | below the full window, from whatever a run without early acknowledgements has led to, one timeout, the arrival of all that is then under way and the taking of all acknowledgements leave the window empty, and all that was given accepted, in order |
| GoBackN.DamagedFirstDatagram | network_theory/gbn_server/gobackn_protocol.cpp:171-187 | a damaged first datagram is answered with number 0, and the sender drops byte 0 unaccepted |
| GoBackN.FullWindowFails | network_theory/gbn_client/gobackn_protocol.cpp:33-35 | with as many datagrams outstanding as there are numbers, a timeout makes the receiver accept a byte twice |
| GbnWindows.SafeBoundsExactly | network_theory/gbn_client/gobackn_protocol.cpp:33-35 | all runs without an early acknowledgement under a bound on the datagrams outstanding are safe if and only if the bound is below the number of sequence numbers |
| GbnWindows.WideBoundFails | network_theory/gbn_client/gobackn_protocol.cpp:33-35 | a run without an early acknowledgement that is not safe, for every bound from that number on |
| GbnWindows.WindowTestExactly | network_theory/gbn_client/gobackn_protocol.cpp:37-39 | in every run under any bound the window test holds if and only if the number of datagrams outstanding is a multiple of the number of sequence numbers |
| GbnWindows.FullWindowLooksEmpty | network_theory/gbn_client/gobackn_protocol.cpp:37-39 | a run after which the window is full, the test says that it is empty, and nothing has been accepted |
| GbnWindows.TestAfterEvents | network_theory/gbn_client/gobackn_protocol.cpp:54-72 | likewise for the events of the sender alone, which is what its methods are tied to |
| GbnWindows.ShortMessagesDelivered | network_theory/gbn_client/gobackn_protocol.cpp:54-72 | messages each shorter than the number of sequence numbers, no early acknowledgement: when the test holds at the end, all that was given has been accepted, in order |
| GbnMessages.ShortMessagesSafeExactly | network_theory/gbn_client/gobackn_protocol.cpp:54-72 | under the sender's own bound, runs whose messages are each shorter than the number of sequence numbers are safe if and only if no acknowledgement is taken before the first acceptance |
| GbnMessages.SenderShare | network_theory/gbn_client/gobackn_protocol.cpp:54-72 | in every run the sender moves as its own events say, and is given exactly the bytes they put |
| GoBackN.Client.constructor | network_theory/gbn_client/gobackn_protocol.cpp:10-14 | the sender starts as the machine's initial sender |
| GoBackN.Client.CanAddToWindow | network_theory/gbn_client/gobackn_protocol.cpp:33-35 | whether fewer datagrams than the bound are outstanding |
| GoBackN.Client.AddToWindow | network_theory/gbn_client/gobackn_protocol.cpp:21-31 | the machine's addition, and the datagram sent |
| GoBackN.Client.IsWindowEmpty | network_theory/gbn_client/gobackn_protocol.cpp:37-39 | the machine's window test |
| GoBackN.Client.ResendWindow | network_theory/gbn_client/gobackn_protocol.cpp:41-52 | all outstanding datagrams, oldest first |
| GoBackN.Client.RemoveFromWindow | network_theory/gbn_client/gobackn_protocol.cpp:84-103 | as many datagrams leave the window as the acknowledgement is ahead, modulo the number of sequence numbers |
| GoBackN.Client.SendMessage | network_theory/gbn_client/gobackn_protocol.cpp:54-72 | puts the bytes of the line in order, each while there is room, sends the window again on every silence, and ends only with the whole line put and the window test true; what it sends and how its fields end up is what its events say |
| GoBackN.Server.ParseValidDatagram | network_theory/gbn_server/gobackn_protocol.cpp:148-169 | accepts exactly an intact datagram in range with the expected number |
| GoBackN.Server.ReceiveDatagram | network_theory/gbn_server/gobackn_protocol.cpp:171-187 | accepts and acknowledges, or repeats the last acknowledgement and changes nothing |
| MemAllocator.Allocator.constructor | OS/实验二/project_2/mem_mgr_ff.c:20-24 | one free block over the whole arena, and the list of it |
| MemAllocator.Allocator.Request | OS/实验二/project_2/mem_mgr_ff.c:26-59 | null if and only if n ≤ 0 or every free block is smaller than n, and then nothing changes; otherwise a free block of the policy's kind (lowest address, smallest, largest that fits) is used: one of at most n + 25 bytes is given out whole, a larger one gives exactly n, and the other size - n - 25 bytes follow as a free block; no other block changes, the list holds exactly the free blocks, and the representation invariant holds again; the number of steps of the search |
| MemAllocator.Allocator.Find | OS/实验二/project_2/mem_mgr_bf.c:44-56 | the search ends at the block that the policy chooses, or at the list head |
| MemAllocator.Allocator.TakeWhole | OS/实验二/project_2/mem_mgr_bf.c:57-60 | a block too small to split is given whole: its tag and the two links around it change |
| MemAllocator.Allocator.Split | OS/实验二/project_2/mem_mgr_bf.c:61-76 | a larger block is cut in two, and the rest is in the list at the policy's place |
| MemAllocator.Allocator.MoveInList | OS/实验二/project_2/mem_mgr_bf.c:73-74 | the rest leaves its place in the circular list and is linked where a policy by size wants it |
| MemAllocator.Allocator.Release | OS/实验二/project_2/mem_mgr_ff.c:69-153 | the used blocks are those before without the released one, and no two free blocks are neighbours; headers, footers, tags and the circular list describe the new layout |
| MemPolicies.LayoutIsDetermined | OS/实验二/project_2/mem_mgr_ff.c:69-153 | that leaves no choice: a layout without free neighbours is determined by its used blocks |
| MemAllocator.Allocator.MergeRight | OS/实验二/project_2/mem_mgr_ff.c:80-91 | a free right neighbour is swallowed; its footer, with the next link in it, becomes the merged block's |
| MemAllocator.Allocator.MergeLeft | OS/实验二/project_2/mem_mgr_ff.c:114-120 | a free left neighbour grows, and its next link moves to the new footer |
| MemAllocator.Allocator.MergeBoth | OS/实验二/project_2/mem_mgr_ff.c:133-142 | both neighbours are merged and only one list element remains |
| MemAllocator.Allocator.ListAdd | OS/实验二/project_2/mem_mgr_wf.c:21-28 | the scan and the four link writes insert the block at the policy's place (first fit: by address; best fit: forwards by size; worst fit: backwards by size) |
| MemArena.ListDelCuts | OS/实验二/project_2/mem_mgr_def.h:115-119 | unlinking leaves the circular list without the element |
| MemArena.ListAddPuts | OS/实验二/project_2/mem_mgr_def.h:101-114 | linking before a block and linking after its predecessor are the same, and leave the circular list with the element at that place |
| MemArena.TiledTotal | OS/实验二/project_2/mem_mgr_def.h:18-19 | block sizes plus header and footer for each block add up to the arena |
| MemArena.TiledDisjoint | OS/实验二/project_2/mem_mgr_def.h:8-19 | no two blocks overlap |
| MemPolicies.TakenKeeps | OS/实验二/project_2/mem_mgr_ff.c:33-57 | a request keeps: blocks tile the arena, no two neighbours are both free, the list holds exactly the free blocks, each once, in the policy's order |
| MemPolicies.TakenIsGranted | OS/实验二/project_2/mem_mgr_ff.c:33-57 | what a request makes of the layout, in bytes: the chosen block, what of it is given out, and what is cut off |
| MemPolicies.ReleasedKeeps | OS/实验二/project_2/mem_mgr_ff.c:69-153 | a release keeps the same |
| MemPolicies.ChoiceFits | OS/实验二/project_2/mem_mgr_bf.c:47-56 | there is no choice exactly when every free block is too small; otherwise first fit takes the lowest address that fits, best fit a smallest block that fits, worst fit a largest block |
| MemPolicies.ReleaseUndoesRequest | OS/实验二/project_2/mem_mgr_bf.c:36-176 | releasing a block right after its request restores the layout, and the list exactly for first and best fit, and for worst fit up to blocks of equal size |
| MemPolicies.InsertBack | OS/实验二/project_2/mem_mgr_wf.c:21-28 | inserting a chosen block again puts it back where it was, for worst fit among its equals |
| Infix.SumIsRead | byyl/实验六/project_6/main.c:91-163 | the machine reads the text of every sum of products of factors, with the operators and parentheses spelled out, to its postfix by structure: products bind stronger than sums |
| Infix.ShownIsSum | byyl/实验六/project_6/main.c:119-163 | every text that an expression is printed to is the text of such a sum, with the same postfix |
| Infix.TransformIsPostfix | byyl/实验六/project_6/main.c:119-163 | for every expression the printed infix is read to its postfix |
| Infix.ReadsExpr | byyl/实验六/project_6/main.c:126-160 | reading a subexpression leaves the stack below untouched and puts its postfix out, part of it still on the stack |
| Infix.EqualRanksGroupRight | byyl/实验六/project_6/main.c:144 | a-b-c is read by the machine as a-(b-c) |
| InfixGrouping.LeftGroupingExactly | byyl/实验六/project_6/main.c:144 | printed with the usual grouping to the left, an expression is read to its own postfix if and only if no operator has an operator of equal rank as its bare left operand; otherwise it is read to the postfix of the regrouped expression |
| InfixGrouping.RegroupedText | byyl/实验六/project_6/main.c:126-160 | the text printed with grouping to the left is the text, grouped to the right, of the regrouped expression |
| InfixGrouping.RegroupedIsLater | byyl/实验六/project_6/main.c:144-148 | regrouping moves operators later in the postfix whenever there is anything to regroup |
| Infix.Translator.Transform | byyl/实验六/project_6/main.c:119-163 | on the text of any sum of products of factors the loop over the buffers ends with its postfix, by which * and / bind stronger than + and -, then the terminator and a null character, within bounds |
| Infix.Translator.DisplaceInto | byyl/实验六/project_6/main.c:144-148 | only strictly stronger operators leave the stack |
| Infix.Translator.UnwindInto | byyl/实验六/project_6/main.c:135-142 | operators leave down to the opening parenthesis, which goes too |
| Quads.PostfixValue | byyl/实验六/project_6/main.c:119-163 | evaluating the postfix pushes exactly the value of the expression |
| Quads.ReplacedKeepsValue | byyl/实验六/project_6/main.c:183-204 | replacing the first operator and its operands by a temporary keeps the value, once the quadruple has run, if no other token has its name; and removes one operator |
| Quads.BlankedIsReplaced | byyl/实验六/project_6/main.c:194-202 | blanking the text and writing the temporary is that replacement on the text without blanks |
| Quads.Maker.FindAndDelQuad | byyl/实验六/project_6/main.c:177-208 | finds the first operator and its two operands and replaces them, or reports that no operator is left |
| Quads.Maker.Before | byyl/实验六/project_6/main.c:184-192 | the nearest character before that is not blank |
| Quads.ProgramExactly | byyl/实验六/project_6/main.c:177-222 | the quadruples leave the value of the expression in the left side, whatever operators and variables mean, if and only if no operand is read after a temporary of its name has been written |
| Quads.LowerIsUnmixed | byyl/实验六/project_6/main.c:177-208 | which holds whenever no operand is a capital letter |
| Quads.QuadsTotal | byyl/实验六/project_6/main.c:177-208 | with operators that count, the quadruples leave too much exactly when an operand is mixed up with a temporary |
| Quads.Maker.GenQuad | byyl/实验六/project_6/main.c:210-222 | one quadruple for each operator and an assignment; running them leaves the value of the expression in the left side if and only if no operand is read after a temporary of its name has been written |
| Quads.Translate | byyl/实验六/project_6/main.c:224-234 | from the text of a sum of products of factors to quadruples that leave its value by structure in the left side, whatever operators and variables mean, if and only if no operand is read after a temporary of its name has been written |
| Peterson.MutualExclusion | OS/实验一/project_1_1/main.c:25-60 | over every interleaving of single reads and writes the two threads are never both between the end of waiting and the loop test |
| Peterson.RunKeeps | OS/实验一/project_1_1/main.c:25-60 | the invariant that implies it, kept over every run |
| Peterson.BalancedAtTest | OS/实验一/project_1_1/main.c:38 | at every loop test of either thread the two accounts add up to 0, with wrap-around |
| Peterson.TransferBalances | OS/实验一/project_1_1/main.c:34-36 | any random transfer keeps the wrapped sum at 0 |
| Peterson.NoUpdateIsLost | OS/实验一/project_1_1/main.c:32-38 | in every run the first account is the wrapped sum of what rand returned to either thread and has since been stored there, the second the wrapped negative of what has been stored there; while no thread is about to store, that is the sum of everything rand has returned; a finished thread has asked rand count+1 times |
| Peterson.CountsAll | OS/实验一/project_1_1/main.c:37-38 | a thread that has finished has counted count+1 turns |
| Peterson.NoDeadlock | OS/实验一/project_1_1/main.c:31 | never are both threads blocked; a blocked thread's rival has not finished |
| Peterson.UnblockedEnters | OS/实验一/project_1_1/main.c:31 | in every run, a waiting thread of either name that is not blocked gets in within two of its own steps |
| Peterson.OvertakenOnce | OS/实验一/project_1_1/main.c:31 | in every run, while a thread of either name waits the other enters at most once, and not at all once it has deferred |
| PrecedenceFunctions.Table.MakePrecFunc | byyl/实验四/project_4/main.cpp:198-222 | whenever the relations can be met at all, the iteration ends, after a pass that changes nothing, with f below, equal to or above g exactly where the matrix says less, equal or greater, and below every other solution: the least one |
| PrecedenceFunctions.PassesEndExactly | byyl/实验四/project_4/main.cpp:198-222 | some pass changes nothing if and only if the relations can be met: on any other matrix the loop runs for ever |
| PrecedenceFunctions.FixedIsSolution | byyl/实验四/project_4/main.cpp:204-221 | a pass changes nothing if and only if the values already meet all relations |
| PrecedenceFunctions.Table.Pass | byyl/实验四/project_4/main.cpp:206-220 | the two loops over the pairs are one pass on the two rows, and report whether it changed them |
| PrecedenceFunctions.Table.RaisePair | byyl/实验四/project_4/main.cpp:209-218 | the one pair is raised as its relation asks and nothing else is written; a change is reported exactly when there is one |
| PrecedenceFunctions.Table.GetPrec | byyl/实验四/project_4/main.cpp:128-140 | the relation between two terminals |
| PrecedenceFunctions.PairStaysUnder | byyl/实验四/project_4/main.cpp:209-218 | raising one pair never passes any solution |

## Left out

- GoBackN.SafeExactly: asks for fewer datagrams outstanding than sequence numbers; the source's own bound is one more, under which it is false (`GbnWindows.SafeBoundsExactly`).
- GoBackN.EmptyWindowMeansDelivered: asks for the same; under the source's own bound the test can hold with a full window (`GbnWindows.FullWindowLooksEmpty`).
- GbnRecovery.Recovers: asks for fewer datagrams outstanding than sequence numbers and no early acknowledgement, without which bytes are already lost.
- GoBackN.Client.SendMessage: promises nothing of delivery for a line as long as the number of sequence numbers, where it can end with nothing accepted; waits for answers given as a sequence and returns when they are used up; sockets, timeouts in seconds and bad acknowledgements, which are only listened past, are not modelled.
- GoBackN.Server.ParseValidDatagram: text and `sscanf` are not modelled; a datagram arrives intact or damaged, chosen freely.
- LrDriver.Parse: asks for an input on which the run ends, after any number of steps; on others the source's loop does not end.
- LrDriver.Recognize: asks for a tame grammar or bounded tokens; for LR(0) grammars the loop ends on no others (`LrHalting.RunEndsExactly`), and with conflicts it may or may not.
- LrParser.ParserIsComplete: for tables without conflicts only; with conflicts the source keeps whichever action it writes last, and soundness is all that is proved.
- LrTables.Generator.MakeAllItems: positions 0 to the length of each production; line 306 of the source reads the length through a container that has not been given its production yet.
- LrTables.Generator.MakeStateItemSet: the source reads one symbol past the end of a right side and relies on finding NULL there; the model says that no symbol is next.
- LrTables.Generator.MakeDfa: the fixed sizes of the tables (32 states, 32 symbols, 64 productions, 16 symbols to a right side) and of the parser's stacks (256 entries) are not modelled.
- LlTables.Generator.MakeParsingTable: the printing in the loop is left out.
- LlParser.Parser.Parse: asks for an end mark in the queue, as the files given to the source hold one; without it the source reads the front of an empty queue.
- LlSets.FollowIsExact: asks for every nonterminal to be reachable from the start symbol; FOLLOW is also fed by productions that no derivation reaches.
- PageReplacement.Simulator.LruReplAlg: asks for enough different pages to fill the memory; otherwise the source indexes past the reference string.
- PageReplacement.Simulator.OptReplAlg: the limits on memory and on the reference string are not modelled.
- MemAllocator.Allocator.Request: the counter of steps is always returned; the worst-fit source writes through it without a test for NULL.
- MemAllocator.Allocator.Release: the pointer is that of a used block or NULL, as the source demands of its callers.
- MemArena.TiledTotal: byte-level layout, alignment and pointer casts inside a block are not modelled.
- Infix.Translator.Transform: the 128-character buffers are an array long enough for the expression; growing the stack by reallocation is left out.
- Quads.Maker.GenQuad: between 1 and 26 operators. With none the source starts looking behind the terminator; after 26 temporaries the next name is no letter and the `continue` at line 188 repeats for ever.
- Quads.Translate: asks for the same.
- Peterson.RunKeeps: memory is sequentially consistent; timing and printing are left out.
- PrecedenceFunctions.Table.MakePrecFunc: asks for a solvable matrix, since the loop ends on no other (`PrecedenceFunctions.PassesEndExactly`).
- PrecedenceFunctions.PassesEndExactly: the values are unbounded integers; on a matrix without a solution the source's would overflow in the end.
- RbTree.Root.Insert: allocation and freeing of nodes, augmentation callbacks (the source passes only empty ones) and the packing of the colour into the parent pointer are not modelled.
- Grammar input, scanners and token readers, sockets, threads, files and printing.
- `container_destroy`, the random page policy, the generator of reference strings and the measurements.
- The operator precedence parser, the recursive-descent parser, the file system, k-means, the vector and list headers, and the shell, daemon and monitor projects.
