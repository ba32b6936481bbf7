# HexType, verified

HexType is a type-confusion detector for C++: a runtime library and a modified clang. This project
models the parts of both that do the most work and proves what they are for. `dafny verify dfyconfig.toml`
verifies the whole project.

**The red-black tree of the runtime** (`hextype_rbtree.cc`), an ordered map from pointers to pointers.
`RbTree.dfy` has the operations on the heap, with their parent pointers, rotations and recolourings; the
same cases appear in `RbCases.dfy` as functions on trees, which the methods are proved to follow. A
position in a tree is a subtree and the path above it (`Ctx`), so that a case that climbs is a function
on paths. `compare` truncates keys to 32 bits, hence the map is keyed by the signed low 32 bits.

- `Insert`, `Delete` and `Lookup` keep the red-black and ordering invariants and act as a finite map;
  one insert rotates at most twice and one delete at most three times; the loops take no more steps than
  the tree is high, and the height is at most twice the logarithm of the size plus one.
- A delete recolours the doomed node and rebalances around it while it is still linked in. The case
  invariants are therefore about the path above the node only, which is one black node short.
- `RbHistory.Run`: the answers to any sequence of operations follow from the operations alone;
  `RbHistory.LastOneDecides` and `RbHistory.NeverInserted` say how.

**Short-circuit control flow** (`Cfg*.dfy`): conditions made of `&&`, `||`, `!`, `?:`, `throw` and
leaves are compiled to basic blocks. A small machine runs the blocks; for every sound constant-folding
oracle, running them performs the leaves of the source expression in the same order and arrives with the
same value, or at the block its truth value selects. No block ever has two jumps to one target, and every PHI has
exactly one entry for each edge to its block, in every graph that is built from there on (`CfgPhis.dfy`). Operands that
fold create no block, and an expression has a value exactly when it is not void (`CfgFolding.dfy`). The meaning of the
source, `CfgLang.Eval`, is itself tied to the language by `CfgLang.OperatorsAreConditionals` and
`CfgLang.ConditionalsSelect`.

**Exact computations in clang's code generator**: the size of an array new-expression, at compile time
and at run time (`NewSize.dfy`); vector initializers with merged and folded shuffles (`VectorInit.dfy`); HexType's
inheritance and phantom relations (`TypeRelation.dfy`); aggregation of member copies into `memcpy`
(`FieldMemcpy.dfy`); bit-field access (`BitField.dfy`); the set of vtable pointers a constructor
initializes (`VTablePtrs.dfy`); class pointer conversions and HexType's choice of check (`BasePaths.dfy`).

Four expected properties do not hold of the code everywhere. Each is proved to hold exactly when a stated
condition does:

- Array new of a type of size zero: a comment at `src/clang-files/CGExprCXX.cpp:698-702` says that a negative
  count times anything overflows, which is false when the size is zero. `NewSize.NothingNegative` and
  `NewSize.NothingTooOften` are the exceptions, and `NewSize.EmptyTypesAreExceptional` gives inputs for a
  64-bit `size_t`.
- A `memcpy` for a run of members stops short when the last member shares its offset with an empty one
  before it, or is 512 MiB or larger (`getMemcpySize` keeps a size in bits in an `unsigned`).
  `FieldMemcpy.CutShort` is the condition, and `FieldMemcpy.SomeMembersAreCutShort` gives classes.
- A vector initializer is not always emitted: the builder folds shuffles of constants
  (`src/clang-files/CodeGenFunction.cpp:50`), and the code then casts the folded constant to a shuffle
  (`src/clang-files/CGExprScalar.cpp:1244`, `:1285` and `:1296`). `VectorInit.CastFails` is the condition, and
  `VectorInit.ConstantThenSwizzleFails` gives `(float4){ (float2)1.0f, (a + b).xy }`.
- HexType's check for two addresses is meant for casts that move the pointer, but a null pointer that is kept gets
  it as well. `BasePaths.BaseToDerived` has the condition and `BasePaths.KeptNullHasTwoAddresses` an input.

That a pointer converted to a base and cast back is the same pointer, and null for null, is proved for all
objects that do not wrap around the address space (`BasePaths.PointersComeBack`). `BasePaths.ThereAndBack`
adds the exact condition when nothing is said about the object and the null checks.

## Model

| member | source | states |
|---|---|---|
| `RbMap.Key32` | src/compiler-rt-files/hextype_rbtree.cc:106-110 | a pointer becomes a signed 32-bit number congruent to it modulo 2^32 |
| `RbMap.SameKey` | src/compiler-rt-files/hextype_rbtree.cc:106-118 | two pointers are one key exactly when they agree on their low 32 bits |
| `RbShape.PlugRedBlack` | src/compiler-rt-files/hextype_rbtree.cc:219-264 | a tree is red-black exactly when the subtree at a position and the path above it are, with the same black height |
| `RbShape.PlugInorder` | src/compiler-rt-files/hextype_rbtree.cc:144-178 | the in-order sequence at a position is what is left of it, its own, and what is right of it |
| `RbCases.InsertRestores` | src/compiler-rt-files/hextype_rbtree.cc:219-264 | from a red node below a possibly red parent, the insert cases end in a red-black tree |
| `RbCases.InsertKeepsOrder` | src/compiler-rt-files/hextype_rbtree.cc:219-264 | the insert cases do not change the in-order sequence |
| `RbCases.RedParent` | src/compiler-rt-files/hextype_rbtree.cc:233-242 | below a red parent there is a black grandparent, so `uncle` and `grandparent` are defined |
| `RbCases.SiblingThere` | src/compiler-rt-files/hextype_rbtree.cc:309-332 | a node one black short has a sibling, and a red sibling has two children: no null is dereferenced in the delete cases |
| `RbCases.DeleteRestores` | src/compiler-rt-files/hextype_rbtree.cc:302-383 | from a path that is one black short at its end, the delete cases end in one that fits a red-black tree |
| `RbCases.DeleteKeepsOrder` | src/compiler-rt-files/hextype_rbtree.cc:302-383 | the delete cases keep what is before and after the node |
| `RbMemory.RotationHolds` | src/compiler-rt-files/hextype_rbtree.cc:144-164 | the pointer updates of a rotation turn a heap that holds a tree into one that holds the rotated tree, parent links included |
| `RbMemory.CutHolds` | src/compiler-rt-files/hextype_rbtree.cc:166-178 | replacing a node by its only child leaves the heap holding the tree without the node |
| `RbEdits.SearchEnds` | src/compiler-rt-files/hextype_rbtree.cc:120-135 | where the search ends, the key is found or is not in the tree |
| `RbEdits.AddLeaf` | src/compiler-rt-files/hextype_rbtree.cc:188-217 | linking a new node where the search ended and rebalancing updates the map at its key |
| `RbEdits.Overwrite` | src/compiler-rt-files/hextype_rbtree.cc:194-196 | storing a value in an existing node updates the map at its key |
| `RbEdits.UnlinkRestores` | src/compiler-rt-files/hextype_rbtree.cc:279-287 | rebalancing around a node with at most one child and splicing it out gives a red-black tree |
| `RbEdits.DeleteHere` | src/compiler-rt-files/hextype_rbtree.cc:279-291 | doing so removes exactly the key of the node |
| `RbEdits.DeletePredecessor` | src/compiler-rt-files/hextype_rbtree.cc:271-291 | copying the predecessor and splicing that out removes exactly the key of the node copied into |
| `RbHeight.HeightBound` | src/compiler-rt-files/hextype_rbtree.cc:120-135 | a red-black tree with n nodes has 2^height at most (n + 1)^2 |
| `RbTree.RbTree.constructor` | src/compiler-rt-files/hextype_rbtree.cc:78-82 | a new tree is valid and empty |
| `RbTree.RbTree.NewNode` | src/compiler-rt-files/hextype_rbtree.cc:84-102 | null exactly when the allocation fails, else a new node with the given fields and the children's parent links set |
| `RbTree.RbTree.ReplaceNode` | src/compiler-rt-files/hextype_rbtree.cc:166-178 | the whole new heap: the parent's link, the new node's parent, and nothing else |
| `RbTree.RbTree.RotateLeft` | src/compiler-rt-files/hextype_rbtree.cc:144-153 | the new fields of every node after a left rotation |
| `RbTree.RbTree.RotateRight` | src/compiler-rt-files/hextype_rbtree.cc:155-164 | the same for a right rotation |
| `RbTree.RbTree.InsertCase1` | src/compiler-rt-files/hextype_rbtree.cc:219-224 | the heap becomes the tree that `RbCases.InsertCase1` gives, with at most two rotations however far it climbs |
| `RbTree.RbTree.InsertCase2` | src/compiler-rt-files/hextype_rbtree.cc:226-231 | the same, from a node with a parent |
| `RbTree.RbTree.InsertCase3` | src/compiler-rt-files/hextype_rbtree.cc:233-242 | the same, from a red parent: recolour and climb two levels, or rotate |
| `RbTree.RbTree.InsertCase4` | src/compiler-rt-files/hextype_rbtree.cc:244-253 | the same, with a black uncle: an inner grandchild is first rotated outward |
| `RbTree.RbTree.InsertCase5` | src/compiler-rt-files/hextype_rbtree.cc:255-264 | the same, for an outer grandchild; the assertion holds |
| `RbTree.RbTree.DeleteCase1` | src/compiler-rt-files/hextype_rbtree.cc:302-307 | the heap around the node becomes the path that `RbCases.DeleteCase1` gives, with at most three rotations however far it climbs |
| `RbTree.RbTree.DeleteCase2` | src/compiler-rt-files/hextype_rbtree.cc:309-319 | the same, from a node with a parent; a rotation here rules out a further climb |
| `RbTree.RbTree.DeleteCase3` | src/compiler-rt-files/hextype_rbtree.cc:321-332 | the same, with a black sibling: recolour and climb one level, or go on |
| `RbTree.RbTree.DeleteCase4` | src/compiler-rt-files/hextype_rbtree.cc:334-345 | the same, when the climb is over |
| `RbTree.RbTree.DeleteCase5` | src/compiler-rt-files/hextype_rbtree.cc:347-367 | the same, with a red nephew: the inner one is rotated outward |
| `RbTree.RbTree.DeleteCase6` | src/compiler-rt-files/hextype_rbtree.cc:369-383 | the same, with a red outer nephew; both assertions hold |
| `RbTree.RbTree.HeightIsLogarithmic` | src/compiler-rt-files/hextype_rbtree.cc:120-135 | every valid tree on the heap has 2^height at most (nodes + 1)^2 |
| `RbTree.RbTree.LookupNode` | src/compiler-rt-files/hextype_rbtree.cc:120-135 | a node exactly when the truncated key is in the map, and then the one that has it, in no more steps than the tree is high |
| `RbTree.RbTree.Lookup` | src/compiler-rt-files/hextype_rbtree.cc:137-142 | the value that the map has for the truncated key, or null |
| `RbTree.RbTree.Insert` | src/compiler-rt-files/hextype_rbtree.cc:180-217 | the tree stays valid, the map is updated at the key, an existing key keeps all nodes and changes one value, a failed allocation changes nothing; at most two rotations and height steps |
| `RbTree.RbTree.MaximumNode` | src/compiler-rt-files/hextype_rbtree.cc:294-300 | the rightmost node, in fewer steps than the subtree is high |
| `RbTree.RbTree.Delete` | src/compiler-rt-files/hextype_rbtree.cc:266-292 | the tree stays valid, the map loses exactly the key, the result is 1 exactly when the key was there, otherwise nothing changes; at most three rotations and height steps |
| `RbHistory.Perform` | src/compiler-rt-files/hextype_rbtree.h:49-52 | one operation on a tree with a given history answers as that history says |
| `RbHistory.Run` | src/compiler-rt-files/hextype_rbtree.h:49-52 | for every sequence of operations on a new tree, each answer is determined by the operations before it: the last value inserted for the low 32 bits of the key and not deleted since |
| `RbHistory.LastOneDecides` | src/compiler-rt-files/hextype_rbtree.h:49-52 | the last operation that took effect on a key with the same low 32 bits decides: an insertion makes its value the answer and a delete succeed, a delete makes them null and fail |
| `RbHistory.NeverInserted` | src/compiler-rt-files/hextype_rbtree.h:49-52 | without an insertion that took effect, a lookup answers null and a delete fails |
| `CfgCorrect.BranchCorrect` | src/clang-files/CodeGenFunction.cpp:1157-1353 | running the blocks emitted for a condition performs the leaves of the source in the same order and arrives at the true block exactly when the condition is true, at the false block when it is false, and unwinds when it throws |
| `CfgCorrect.BoolCorrect` | src/clang-files/CGExpr.cpp:109-125 | the emitted code computes the truth value of an expression, with the effects of the source |
| `CfgCorrect.ValueCorrect` | src/clang-files/CGExprScalar.cpp:3078-3394 | the emitted code computes the value of an expression with logical and, or, not and conditionals, evaluating an operand only where the language does |
| `CfgCorrect.ShortCircuitCorrect` | src/clang-files/CGExprScalar.cpp:3116-3153 | the same for a logical operator that needs a join block |
| `CfgCorrect.SelectCorrect` | src/clang-files/CGExprScalar.cpp:3340-3356 | the same for a conditional that becomes a `select` |
| `CfgCorrect.DiamondCorrect` | src/clang-files/CGExprScalar.cpp:3358-3393 | the same for a conditional with control flow, whichever arm throws |
| `CfgEdges.BranchEdges` | src/clang-files/CodeGenFunction.cpp:1157-1353 | the jumps that a condition adds lead to its two targets or to new blocks |
| `CfgEdges.StaysLinked` | src/clang-files/CodeGenFunction.cpp:1157-1353 | no jump to a block that does not exist is ever emitted |
| `CfgEdges.DiamondPhiComplete` | src/clang-files/CGExprScalar.cpp:3380-3393 | the PHI of a conditional has exactly one entry for each predecessor of the join block |
| `CfgPhis.BranchKeeps` | src/clang-files/CodeGenFunction.cpp:1157-1353 | lowering a condition to two different targets without a PHI keeps jumps inside the graph, never gives a block two edges to one target, and leaves every PHI with one entry for each predecessor |
| `CfgPhis.ValueKeeps` | src/clang-files/CGExprScalar.cpp:3078-3394 | so does lowering a value |
| `CfgPhis.StaysSimple` | src/clang-files/CodeGenFunction.cpp:1157-1353 | no block gets two edges to one target |
| `CfgPhis.ShortCircuitPhiComplete` | src/clang-files/CGExprScalar.cpp:3125-3150 | the entries of the PHI of a logical and or or name exactly the edges to the join block, however many of them the left operand adds, and no block twice |
| `CfgPhis.OneEntryPerEdge` | src/clang-files/CGExprScalar.cpp:3130-3132 | one entry for each predecessor is one for each edge, as no block has two |
| `CfgPhis.LoweringKeepsPhisComplete` | src/clang-files/CGExprScalar.cpp:3078-3394 | every PHI that was ever emitted stays complete, whatever is lowered afterwards |
| `CfgPhis.EveryPhiMatchesItsEdges` | src/clang-files/CGExprScalar.cpp:3078-3394 | from an empty function, after any sequence of expressions, the entries of every PHI are exactly the edges to its block |
| `CfgFolding.ValueUnlessVoid` | src/clang-files/CGExprScalar.cpp:3272-3394 | the emitter returns a value exactly for expressions that are not void |
| `CfgFolding.FoldedThrow` | src/clang-files/CGExprScalar.cpp:3283-3287 | a folded conditional whose live arm is a throw has the value `undef` if the other arm has a type, and none if it has not |
| `CfgFolding.NoBlockForCondition` | src/clang-files/CodeGenFunction.cpp:1165-1270 | a condition whose operators all have an operand that folds and does not decide creates no block |
| `CfgFolding.NoBlockForValue` | src/clang-files/CGExprScalar.cpp:3097-3113 | nor does a value whose operators all have a folded first operand, or are conditionals with cheap arms |
| `CfgBuilder.Builder.EmitBranchOnBoolExpr` | src/clang-files/CodeGenFunction.cpp:1157-1353 | emission with a moving insertion point builds the graph that the theorems above are about |
| `CfgBuilder.Builder.VisitBinLAnd` | src/clang-files/CGExprScalar.cpp:3097-3153 | the same for the value of a logical and |
| `CfgBuilder.Builder.VisitBinLOr` | src/clang-files/CGExprScalar.cpp:3175-3231 | the same for the value of a logical or |
| `CfgBuilder.Builder.VisitConditional` | src/clang-files/CGExprScalar.cpp:3262-3394 | the same for the value of a conditional |
| `CfgBuilder.Builder.CreatePhiForPreds` | src/clang-files/CGExprScalar.cpp:3125-3132 | a PHI with one constant entry for every edge to the join block so far |
| `NewSize.SignedRange` | src/clang-files/CGExprCXX.cpp:609-620 | the count is its bits up to a multiple of 2^width, within the range of its type |
| `NewSize.ElementsAreSubscripts` | src/clang-files/CGExprCXX.cpp:592-598 | there are exactly as many elements as tuples of subscripts within the dimensions |
| `NewSize.ArraySizes` | src/clang-files/CGExprCXX.cpp:592-602 | an array of n elements has n times the size of an element |
| `NewSize.NestedArrays` | src/clang-files/CGExprCXX.cpp:594-598 | `new int[5][3]` asks for 60 bytes and constructs 15 elements |
| `NewSize.FlattenType` | src/clang-files/CGExprCXX.cpp:592-598 | the element type, and the product of the dimensions modulo 2^size width |
| `NewSize.Multipliers` | src/clang-files/CGExprCXX.cpp:592-602 | the product with the element size is the exact size of the type |
| `NewSize.ClzSays` | src/clang-files/CGExprCXX.cpp:622-624 | the test on leading zeros says that the count does not fit `size_t` |
| `NewSize.AdjustConstant` | src/clang-files/CGExprCXX.cpp:613-632 | the checks fail exactly when the count is below the minimum or too wide, and otherwise the count is exact |
| `NewSize.ConstantSize` | src/clang-files/CGExprCXX.cpp:609-661 | the size is count times size plus cookie in exact arithmetic, or all ones if the count is bad or the total does not fit, except exactly for `NothingTooOften`; whenever the total of a count that is a `size_t` fits, the flattened count times the element size is the size without cookie |
| `NewSize.AdjustDynamic` | src/clang-files/CGExprCXX.cpp:678-734 | the emitted comparisons accept only counts that are exact and large enough, or negative ones that a multiplication will catch |
| `NewSize.ScaleDynamic` | src/clang-files/CGExprCXX.cpp:736-776 | the multiplications, and the shared multiplication for one-byte elements, give both products |
| `NewSize.DynamicSize` | src/clang-files/CGExprCXX.cpp:664-809 | the run-time computation gives the same size, except exactly for `NothingTooOften` and `NothingNegative`, and the same flattened count whenever the total of a count that is a `size_t` fits |
| `NewSize.DeleteMatchesNew` | src/clang-files/CGExprCXX.cpp:1727-1750 | sized delete recomputes exactly the size requested, from the stored count, element size and cookie |
| `NewSize.EmptyTypesAreExceptional` | src/clang-files/CGExprCXX.cpp:698-702 | inputs for both exceptions with a 64-bit `size_t` |
| `VectorInit.CreateShuffle` | src/clang-files/CodeGenFunction.cpp:48-51 | a shuffle of two constants is a constant with the lanes of the shuffle, any other is the instruction |
| `VectorInit.PlaceScalar` | src/clang-files/CGExprScalar.cpp:1224-1268 | a scalar lands in the next lane, by a merged shuffle or an insertion, and the earlier lanes stay; a component of a vector as wide as the result becomes an operand of one shuffle; the cast to a shuffle fails exactly for a flagged constant and a component of a vector as wide as the result |
| `VectorInit.MergeSwizzle` | src/clang-files/CGExprScalar.cpp:1275-1299 | the merged mask picks the lanes so far, through a shuffle with `undef` if that is what they are, and then those of the swizzle; the cast fails exactly for a flagged constant |
| `VectorInit.PlaceVector` | src/clang-files/CGExprScalar.cpp:1270-1328 | a vector or swizzle lands in the next lanes, and a value flagged as a shuffle with `undef` is a constant or uses its first operand only; a swizzle of a vector as wide as the result is not emitted by itself |
| `VectorInit.PadZeros` | src/clang-files/CGExprScalar.cpp:1330-1339 | the lanes without an initializer are zero |
| `VectorInit.VisitInitList` | src/clang-files/CGExprScalar.cpp:1185-1341 | the emission fails exactly for `CastFails`; otherwise all instructions are well typed and the built value is the lanes of all initializers in order, each from the lane where those before it end (where `undef` itself is a later initializer, its lanes may hold anything), and every lane after them is 0 |
| `VectorInit.ConstantThenSwizzleFails` | src/clang-files/CGExprScalar.cpp:1275-1299 | a constant vector followed by a swizzle of a full-width vector meets `CastFails` |
| `TypeRelation.ReachedIsClosure` | src/clang-files/CGExprCXX.cpp:1299-1340 | the recursion from (C, C) reaches exactly the pairs of C or a transitive base of C with its proper transitive bases |
| `TypeRelation.ReachedExactly` | src/clang-files/CGExprCXX.cpp:1299-1340 | what the recursion reaches from any pair, in terms of inheritance chains |
| `TypeRelation.ParentsAreClosure` | src/clang-files/CGExprCXX.cpp:1312-1323 | the parent pairs recorded are exactly the hashes of those pairs, where both are non-zero |
| `TypeRelation.PhantomsAreSameSize` | src/clang-files/CGExprCXX.cpp:1319-1322 | the phantom pairs recorded are exactly both orientations of those with equal data size |
| `TypeRelation.OneBase` | src/clang-files/CGExprCXX.cpp:1312-1338 | a class with one base records exactly that base, and both as phantoms of each other if their data sizes are equal |
| `TypeRelation.PhantomsStaySymmetric` | src/clang-files/CGExprCXX.cpp:1319-1322 | recording keeps the phantom relation symmetric |
| `TypeRelation.Storage.Insert` | src/clang-files/CGExprCXX.cpp:1281-1297 | the stored relation gains exactly one pair, through a new or an existing set |
| `TypeRelation.Relations.GetTypeRelationInfo` | src/clang-files/CGExprCXX.cpp:1299-1340 | both relations gain exactly what the reached pairs call for and lose nothing; the recursion ends on the rank of the base |
| `FieldMemcpy.ConstructorMemcpyizer.AddNextField` | src/clang-files/CGClass.cpp:1098-1118 | the fields go on describing the open run; members are added in order |
| `FieldMemcpy.ConstructorMemcpyizer.EmitMemcpy` | src/clang-files/CGClass.cpp:1032-1065 | one `memcpy` from the first member of the run to its computed end |
| `FieldMemcpy.ConstructorMemcpyizer.EmitAggregatedInits` | src/clang-files/CGClass.cpp:1185-1202 | nothing, a single initializer or a `memcpy`, depending on the length of the run, which is then closed |
| `FieldMemcpy.ConstructorMemcpyizer.AddMemberInitializer` | src/clang-files/CGClass.cpp:1174-1183 | a member joins the run, or ends it and is initialized by itself |
| `FieldMemcpy.EmitMembers` | src/clang-files/CGClass.cpp:1405-1415 | the loop and `finish` emit the code that the theorems below are about |
| `FieldMemcpy.EachMemberOnce` | src/clang-files/CGClass.cpp:1174-1223 | every initializer is performed exactly once and in order, and no `memcpy` leaves its run |
| `FieldMemcpy.InitializedAlone` | src/clang-files/CGClass.cpp:1142-1202 | a member is initialized by itself exactly when it may not be copied as bytes (not a defaulted copy, poisoned padding, not trivial, volatile) or neither neighbour may |
| `FieldMemcpy.AggregationIsMemberwise` | src/clang-files/CGClass.cpp:994-1223 | for all objects, the code leaves every member as the initializers do one by one, exactly when no member is cut short |
| `FieldMemcpy.SomeMembersAreCutShort` | src/clang-files/CGClass.cpp:1020-1031 | classes for which it does not |
| `BitField.Unit.Load` | src/clang-files/CGExpr.cpp:1464-1491 | bit by bit, the bits of the field, extended by sign or with zeros |
| `BitField.Unit.Store` | src/clang-files/CGExpr.cpp:1660-1725 | bit by bit, exactly the bits of the field are replaced, by the truncated value, and the result is what a load would give |
| `BitField.OthersKeepTheirs` | src/clang-files/CGExpr.cpp:1692-1704 | every disjoint field in the unit keeps its bits |
| `BitField.LoadedNumber` | src/clang-files/CGExpr.cpp:1660-1725 | in numbers: a load after a store gives the value modulo 2^size, read as signed for a signed field; a field as wide as its type, or a wider `bool` field, loses nothing |
| `VTablePtrs.Collector.GetVTablePointers` | src/clang-files/CGClass.cpp:2369-2424 | after the recursion every subobject below the given one is covered, what was collected stays, its own pointer comes before those of its bases, and no virtual base is descended into twice |
| `VTablePtrs.CollectVTablePointers` | src/clang-files/CGClass.cpp:2357-2367 | exactly the subobjects with a vtable pointer of their own are collected, with the base offset equal to that of the nearest virtual base plus the offset from it; that of the whole object comes first, and that of a virtual base comes once |
| `VTablePtrs.OwnPointers` | src/clang-files/CGClass.cpp:2376-2382 | apart from the whole object, only a virtual base or one that is not the primary base of the class before it has a pointer of its own |
| `VTablePtrs.DirectPointers` | src/clang-files/CGClass.cpp:2386-2422 | every direct base with a vtable that is virtual, or not the primary base, has one, at its offset |
| `VTablePtrs.VTableField` | src/clang-files/CGClass.cpp:2318-2339 | both ways to compute the address of the field |
| `VTablePtrs.InitializeVTablePointers` | src/clang-files/CGClass.cpp:2426-2438 | exactly the vtable pointers of the object are written, each with its own address point and where its subobject really is, and the one at the start of the object first, through which the offsets of virtual bases are read |
| `BasePaths.OffsetsAdd` | src/clang-files/CGClass.cpp:148-172 | offsets add up over joined paths |
| `BasePaths.OffsetExtends` | src/clang-files/CGClass.cpp:148-172 | each step adds the offset of its base in the layout of the class reached so far |
| `BasePaths.ComputeNonVirtualBaseClassOffset` | src/clang-files/CGClass.cpp:148-172 | the loop computes the offset of the path |
| `BasePaths.GetAddressOfBaseClass` | src/clang-files/CGClass.cpp:266-350 | the address of the base subobject with its virtual offset, devirtualized or not, and null for a checked null |
| `BasePaths.GetAddressOfDerivedClass` | src/clang-files/CGClass.cpp:352-424 | the address of the enclosing object, and null for a checked null |
| `BasePaths.ThereAndBack` | src/clang-files/CGClass.cpp:266-424 | converting to a base and back is the identity exactly when the null checks agree about the pointer |
| `BasePaths.PointersComeBack` | src/clang-files/CGExprScalar.cpp:1343-1361 | with the null checks that the casts get, converting any pointer to a base and casting back gives the pointer, and null for null, for objects that do not wrap; null stays null exactly when the cast is none of unchecked, of `this`, or an implicit glvalue conversion |
| `BasePaths.ReferencesComeBack` | src/clang-files/CGExpr.cpp:3648-3677 | the same for references, which are never checked for null |
| `BasePaths.BaseToDerived` | src/clang-files/CGExprScalar.cpp:1441-1485 | HexType's check for one address is chosen exactly when the cast does not move the pointer, apart from a kept null; the check for two has the address before the cast first, and it is the address after it plus the offset |
| `BasePaths.KeptNullHasTwoAddresses` | src/clang-files/CGExprScalar.cpp:1470-1483 | a kept null with a base at offset 8 gets the check for two addresses, which are equal |

## Left out

- `RbTree.RbTree.NewNode`: whether `malloc` succeeds is a parameter; the node that is leaked when a key is overwritten is not tracked, and `free` is the removal of the node from the set of nodes.
- `RbTree.RbTree.constructor`: `rbtree_create` dereferences the result of `malloc` without a check; the allocation always succeeds here.
- `CfgCorrect.ValueCorrect`: values are unbounded integers, so conversions to the type of the expression are not modelled; what constant folding and the test for cheap operands answer is any oracle that is right about value and effects.
- `CfgBuilder.Builder.EmitBranchOnBoolExpr`: profile counts, branch weights, debug locations, cleanups of conditional temporaries and labels inside conditions are not modelled. How `EmitBlock` continues in a block follows its documentation in `CodeGenFunction.h`; CGStmt.cpp is not part of this model.
- `CfgBuilder.Builder.CreatePhiForPreds`: the order of the entries, which follows the order of uses in the source and of blocks here.
- `CfgBuilder.Builder.VisitBinLAnd`: the vector form; the extension to the result type does not change an unbounded integer.
- `CfgBuilder.Builder.VisitBinLOr`: the same.
- `CfgBuilder.Builder.VisitConditional`: the OpenCL select and the GNU form `a ?: b`.
- `VectorInit.VisitInitList`: scalars in braces and array range designators. The base of a component or swizzle has just been loaded, as it is for every such expression, so that those are never folded themselves.
- `TypeRelation.Relations.GetTypeRelationInfo`: hashes are given numbers, and being complete and having a definition are one property.
- `FieldMemcpy.EmitMembers`: bit-fields, whose storage needs layout code that is not in the repository; the cleanups that destroy members when an exception is thrown; assignment operators (`AssignmentMemcpyizer`), which aggregate in the same way. A member initializer that is not a byte copy may depend on the members before it, not on padding.
- `FieldMemcpy.ConstructorMemcpyizer.AddNextField`: a field with a smaller offset than the first, which only bit-fields can have.
- `FieldMemcpy.ConstructorMemcpyizer.EmitMemcpy`: the storage offset of a leading bit-field.
- `NewSize.DynamicSize`: new of a single object, and how the cookie size is chosen.
- `NewSize.DeleteMatchesNew`: a delete without a stored count.
- `VTablePtrs.InitializeVTablePointers`: the value of an address point, that a missing one is skipped, the test whether the ABI has constructors initialize the pointers at all, and the hidden members of the Microsoft ABI.
- `BasePaths.GetAddressOfBaseClass`: alignment, and the sanitizer's checks.
- The type tables that the LLVM passes of HexType build, the object table and cast cache of the runtime, and the report files.
- `EmitNullBaseClassInitialization`: it subtracts an absolute offset from a size relative to the last store (`src/clang-files/CGExprCXX.cpp:394`), so with more than one virtual base pointer it is not clear what it should do.
- LLVM types, debug information, TBAA, Objective-C, OpenMP, SEH and the pass pipeline.
