# XQilla: a model of the query engine's core

This project models the parts of XQilla that promise something about every query, every document
or every stream, and proves those promises. Pure code is modelled by functions and lemmas. Code
that changes things step by step is modelled by classes and loops, each proved against a
function, and the promises are proved about that function.

* **FLWOR pipeline.** `Flwor` gives the meaning of a chain of for, let, where, order-by and
  count clauses as a sequence of environments. `FlworMeaning` says what each clause delivers, by
  index and by the order of keys. `PushBack` is the optimiser that moves clauses towards the
  start of the chain: it terminates, ends in a normal form, which `PushBackNormal` describes by
  names alone, and keeps the tuples and their order unless one of its swaps captures a name. The
  code does not check that condition; `PushBackScope` proves that of the swaps the code makes
  exactly those that capture no name are sound, and gives a chain whose meaning changes.
  `TupleNodes` is the relinking of nodes in place, `TupleIterators` the pull iterators, and
  `TupleTypes` the cardinalities that variables are declared with.
* **Streaming projection.** `PathTree` defines what a path tree selects from a stream and a
  matcher that is exact for it, and `PathPlaces` says the same by places and expanded names.
  `PathFilter` is the filter with its stack, its flags and its late output of skipped ancestors,
  proved against `PathProjection`, which is what it passes on as a function of the stream.
* **Flat tree store.** `FastXdm` is what the event handlers do to the arrays,
  `FastXdmNavigation` what levels and links mean, `FastXdmNamespaces` what is kept of
  namespaces, `FastXdmDocument` the object over growing arrays, and `StoredDocuments` and
  `AxisIterators` the walks along the axes (the axis classes of
  src/fastxdm/FastXDMNodeImpl.cpp). `TreeAxes` says of the stored trees, by the paths that lead
  to their nodes, what each axis selects.
* **Document order.** `DocumentOrder` is the algebra of properties by which sorts are dropped,
  `Axes` the axes over stored documents, `PathExpressions` the meaning of paths and the inferred
  properties, and `PathMeaning` what they select and for which axes order is inferred.
  `PathTyping` is the rewriting of paths by static typing, `PathSteps` says by index which steps
  it keeps and what they become, `PathLimits` where it does not keep the results, and
  `PathNodes` are the path nodes as objects.
* **Full text.** `FullText` says what a conjunction delivers and when a phrase matches,
  `FullTextIterators` is the backtracking iterator with the order and distance filters.
* **Smaller cores.** `StringPool`, `MemoryList`, `AnalyzeString`, with `AnalyzeParts` on the
  elements that it writes, and `EncodeForUri`.

`Sequences`, `Places`, `StableSort`, `Options` and `Events` are shared.

What the proofs show about the code that its comments do not say:

* A let (or count) can be moved in front of a clause that reads or binds the same name; then the
  tuples change (`PushBackScope.SwapExact`, `PushBackScope.ShadowingChangesMeaning`). A let
  moved in front of an order-by whose key reads it can change the order of the tuples
  (`PushBackScope.LetOrderBySwapExact`).
* The streaming filter outputs an element late, for an attribute or namespace, without the look
  at its ancestors that it takes for elements and leaves; the output can then select an element
  that the input does not (`PathFilter.AttributeCaptures`). A wanted leaf can come to stand
  where another path selects it (`PathFilter.LeafMisleads`).
* The rule for combining step properties can claim the subtree property wrongly. In a path that
  cannot happen, but a simple map applies the rule to any properties, and document order can
  then be inferred of results with repeated nodes (`PathLimits.SimpleMapLosesOrder`).
* A for, let or quantified variable of exactly one item is declared to be the context item,
  whatever its value (src/context/impl/VarTypeStoreImpl.cpp:29-39). Apart from what that says of
  the context item it is right, so the order inferred for a path that starts at a variable is
  right (`PathExpressions.FirstPath`); on the right of a simple map over more than one item it
  is not (`DocumentOrder.CarriedExact`, `PathExpressions.MappedVariable`,
  `PathLimits.VariableLosesOrder`).
* Where a let binds a name again, the declaration of the earlier binding stays, so several items
  can be declared to be one (`TupleTypes.LetDeclaredExact`).
* fn:doc declares that its document is in the subtree of the context item. The order inferred
  for a path that starts there is right (`PathExpressions.DocPath`); in `a/doc(@href)` it is
  not, and a document named twice comes twice (`PathLimits.DocLosesOrder`). fn:document declares
  at most one node, whatever it delivers (`PathLimits.DocumentLosesOrder`).
* A later step that does not use the context clears the ones before it, which also removes
  repeated results of a variable. Where its static type may be atomic, or after a traced step,
  it does not, and the results are repeated (`PathLimits.UntypedLosesOrder`,
  `PathLimits.TracedLosesOrder`).
* The comment on constant steps in src/ast/XQNav.cpp:192-195 holds only if the steps before the
  constant select something (`PathTyping.ConstantStepExact`, `PathTyping.SortedPathExact`).
* In a buffered operand a pending reset survives the first fetch, so a conjunction delivers some
  combinations again (`FullText.DeliveredLength`).
* Two words at one and the same position are at the largest distance there is, so "at least"
  accepts them (`FullText.SamePositionRange`).
* A store that starts without room for attributes stays without, because doubling nothing gives
  nothing (`FastXdmDocument.SlotsAreNeeded`).

Run `dafny verify dfyconfig.toml` to check the whole project.

## Model

| member | source | states |
|---|---|---|
| Flwor.PrecedesIsStrictWeakOrder | src/ast/OrderByTuple.cpp:215-248 | The order-by comparison, ascending or descending, empty least or greatest, is a strict weak order whenever the items' greater-than is one |
| FlworMeaning.OrderByDelivers | src/ast/OrderByTuple.cpp:215-247 | The tuples come out in the order of their keys: atomic keys ascending or descending, and empty and NaN keys first exactly if empty is least or the order is descending, but not both |
| FlworMeaning.OrderByIsStable | src/ast/OrderByTuple.cpp:156-180 | The tuples with keys tied to any given key come out in the order in which they came |
| FlworMeaning.ChainInOrder | src/ast/OrderByTuple.cpp:156-180 | So do the tuples of every chain that ends in an order-by, whatever comes before it |
| FlworMeaning.ForDelivers | src/ast/ForTuple.cpp:165-182 | For each tuple one with each item of the expression, in order, and its position counted from one; the position is hidden by a variable of the same name, and all others keep their values |
| FlworMeaning.LetAndCountDeliver | src/ast/CountTuple.cpp:127-136 | By index: a let binds the value of its expression in each tuple (src/ast/LetTuple.cpp:175-186), a count its number from one |
| FlworMeaning.WhereDelivers | src/ast/WhereTuple.cpp:160-171 | Keeps, in order, exactly the tuples for which the test holds |
| FlworMeaning.AndHolds | src/ast/WhereTuple.cpp:80-100 | An And holds exactly where all its operands do |
| Flwor.LetPastFor | src/ast/LetTuple.cpp:66-97 | A let moved in front of a for keeps the tuples and their order, if the let does not read the for's variables and the for neither reads nor binds the let's |
| Flwor.LetPastLet | src/ast/LetTuple.cpp:66-97 | Two lets commute if neither reads the other's variable and the variables differ |
| Flwor.LetPastCount | src/ast/LetTuple.cpp:66-97 | A let and a count commute if the let does not read the counter and the names differ |
| Flwor.LetPastWhere | src/ast/LetTuple.cpp:66-97 | A let moved in front of a where that does not read its variable keeps the stream |
| Flwor.LetPastOrderBy | src/ast/LetTuple.cpp:66-97 | A let moved in front of an order-by that does not read its variable keeps the stable order |
| Flwor.WherePastFor | src/ast/WhereTuple.cpp:52-78 | A where that reads none of the for's variables can filter before the for |
| Flwor.WherePastOrderBy | src/ast/WhereTuple.cpp:52-78 | Filtering commutes with the stable sort |
| Flwor.OrderByPastFor | src/ast/OrderByTuple.cpp:51-94 | If the key reads neither the for variable nor its position, sorting the expanded stream is expanding the sorted stream |
| Flwor.CountPastCount | src/ast/CountTuple.cpp:47-74 | Two counts with different names commute |
| StableSort.SortIsSorted | src/ast/OrderByTuple.cpp:156-180 | The sort delivers keys in order |
| StableSort.SortIsStable | src/ast/OrderByTuple.cpp:156-180 | Tuples with equal keys keep their order |
| StableSort.StableSortUnique | src/ast/OrderByTuple.cpp:156-180 | Order of keys and order within ties determine the result: every stable sort is this one |
| StableSort.FlatMapSort | src/ast/OrderByTuple.cpp:51-94 | Sorting commutes with an expansion whose results tie with their origin |
| PushBack.Type | src/ast/LetTuple.cpp:99-114 | The swap-and-retype recursion terminates on every chain: the lexicographic measure shrinks with every recursive call |
| PushBack.TypeAll | src/ast/WhereTuple.cpp:80-114 | The splitting of an And into one where per operand terminates with it |
| PushBack.TypeIsNormal | src/ast/LetTuple.cpp:99-114 | Typing a node over a normal chain gives a normal chain |
| PushBack.OptimizeIsNormal | src/optimizer/StaticTyper.cpp:416-468 | After the whole pass no clause can be split or moved by the code's own tests; the pass leaves a chain alone exactly if it is normal, so a second pass changes nothing |
| PushBackNormal.OptimizeSettles | src/ast/WhereTuple.cpp:52-108 | By names alone: after the pass no where is left, past other wheres, behind a for or let of which it reads no variable or behind an order-by; no order-by behind such a for or let; no count, past counts, behind a let; no let that creates nothing behind a for, when it reads none of the names bound from there on; and the pass leaves a chain alone exactly if that is so |
| PushBackNormal.NormalIsSettled | src/ast/LetTuple.cpp:66-97 | A chain is normal by the code's tests exactly if no clause is left behind one that, by names alone, it goes past |
| PushBackNormal.OptimizeInOrder | src/ast/WhereTuple.cpp:80-114 | The pass keeps the order of the fors, of the order-bys, of the counts, of the lets that read the same names and create nothing, and of the wheres that read the same names; the operands of an And that is split come in theirs |
| PushBack.OptimizeKeepsPieces | src/ast/LetTuple.cpp:107-114 | The pass permutes the clauses, up to the splitting of And |
| PushBack.SwapMeaning | src/ast/LetTuple.cpp:107-114 | Every swap that captures no name keeps the meaning |
| PushBack.TypeKeepsScope | src/ast/LetTuple.cpp:99-114 | Where the clauses that may move bind names of their own, no swap captures one, and the names stay so |
| PushBack.TypeKeepsMeaning | src/ast/WhereTuple.cpp:80-114 | One typing step keeps the tuple stream, including the And split, unless a swap it makes captures a name |
| PushBack.OptimizeKeepsMeaning | src/ast/LetTuple.cpp:66-114 | For every chain the optimised chain yields the same tuples in the same order, unless one of the swaps captures a name |
| PushBack.WellScopedIsSafe | src/ast/LetTuple.cpp:66-114 | If every count and every let that can move binds a name that no earlier clause binds or uses, no swap of the whole pass captures a name; a for may bind an earlier name again |
| PushBackScope.LetForSwapExact | src/ast/LetTuple.cpp:66-97 | What the code does not check: moving a let in front of a for is sound for all expressions with the reported uses if and only if the for neither reads nor binds the let's variable |
| PushBackScope.LetLetSwapExact | src/ast/LetTuple.cpp:66-97 | The same for a let: sound if and only if the skipped let does not read the variable and binds another |
| PushBackScope.LetCountSwapExact | src/ast/LetTuple.cpp:66-97 | The same for a count: sound if and only if the names differ |
| PushBackScope.CountLetSwapExact | src/ast/CountTuple.cpp:47-63 | Moving a count in front of a let is sound if and only if the let does not read the counter and binds another name |
| PushBackScope.LetWhereSwapExact | src/ast/LetTuple.cpp:66-97 | The same for a where, whatever its condition: sound if and only if the condition does not read the variable |
| PushBackScope.LetOrderBySwapExact | src/ast/LetTuple.cpp:88-90 | The same for an order-by, for every key with the reported uses and every order: sound if and only if the key does not read the variable |
| PushBackScope.SwapExact | src/ast/LetTuple.cpp:66-97 | Of all swaps that the code makes, whatever the two clauses, those that capture no name are sound for all expressions, and no others |
| PushBackScope.ShadowingChangesMeaning | src/ast/LetTuple.cpp:66-114 | A chain with a shadowing let that the optimiser changes the tuples of |
| TupleNodes.TupleNode.StaticTypingImpl | src/ast/LetTuple.cpp:99-114 | Relinking parent pointers in place gives a chain of nodes that spells out the result of Type |
| TupleNodes.TupleNode.SplitAnd | src/ast/WhereTuple.cpp:80-100 | Splitting an And in place gives the chain of TypeAll |
| TupleNodes.CanPushLetBack | src/ast/LetTuple.cpp:66-97 | The walk along the ancestors finds a for exactly if the specification says the let can move |
| TupleNodes.CanPushWhereBack | src/ast/WhereTuple.cpp:52-78 | The same for where |
| TupleNodes.CanPushOrderByBack | src/ast/OrderByTuple.cpp:51-77 | The same for order-by |
| TupleNodes.CanPushCountBack | src/ast/CountTuple.cpp:47-63 | The same for count |
| TupleNodes.OptimizeTupleNode | src/optimizer/StaticTyper.cpp:416-468 | The visitor's walk over the nodes computes Optimize |
| TupleIterators.TupleResult.Next | src/ast/ForTuple.cpp:165-182 | Each call moves to the next tuple of the chain's meaning, or reports the end exactly when there is none |
| TupleIterators.TupleResult.NextContext | src/ast/ContextTuple.cpp:55-61 | The root delivers one tuple |
| TupleIterators.TupleResult.NextFor | src/ast/ForTuple.cpp:165-182 | For delivers the flat-map of its parent's tuples, positions starting again with each |
| TupleIterators.TupleResult.NextLet | src/ast/LetTuple.cpp:175-186 | Let delivers its parent's tuples with the variable bound |
| TupleIterators.TupleResult.NextWhere | src/ast/WhereTuple.cpp:160-171 | Where delivers the tuples that satisfy the condition |
| TupleIterators.TupleResult.NextOrderBy | src/ast/OrderByTuple.cpp:156-180 | Order-by reads everything, sorts it stably and delivers it; what it still has to deliver is in the order of the keys, said by the greater-than, the direction and the place of empty keys alone |
| TupleIterators.TupleResult.NextCount | src/ast/CountTuple.cpp:127-136 | Count delivers its parent's tuples numbered from one |
| TupleIterators.TupleResult.GetVar | src/ast/ForTuple.cpp:145-154 | Looking a variable up along the iterators finds its value in the current tuple |
| TupleIterators.ReturnResult.Next | src/ast/XQReturn.cpp:82-100 | Return delivers the items of its expression tuple by tuple, and then the end, however often it is asked |
| TupleIterators.Evaluate | src/ast/XQReturn.cpp:82-112 | Pulling a FLWOR to its end delivers exactly the list-comprehension meaning, and the optimised chain delivers the same items |
| TupleTypes.InScopeIsTrue | src/ast/LetTuple.cpp:116-132 | If every binding hides the earlier ones, the cardinalities are right in every tuple |
| TupleTypes.LetDeclaredExact | src/ast/LetTuple.cpp:126-132 | But the earlier ones overwrite: the declarations stay right if and only if a let does not bind other than one item to a name declared to be one item |
| TupleTypes.OthersDeclaredTrue | src/ast/ForTuple.cpp:94-107 | A for, where, order-by or count keeps them right, also where it binds a name again |
| TupleTypes.DistinctDeclared | src/ast/ForTuple.cpp:94-107 | Where no name is bound twice, what is declared is what is in scope |
| TupleTypes.FirstDeclares | src/ast/LetTuple.cpp:126-132 | What is declared of a name comes from the first clause that binds it: one item exactly if that is a for, its position, a count, or a let of an expression of one item |
| PathPlaces.SelectsByPlace | src/events/QueryPathTreeFilter.cpp:162-203 | What a path of the tree selects, by places and expanded names: every step stands at a node that it accepts, a step without a name or without a URI at any, a child step right below the step before it and a descendant step anywhere below |
| PathPlaces.ChildStepsSelect | src/events/QueryPathTreeFilter.cpp:174-185 | Child steps with names and URIs select a path of elements if and only if there are as many, and every element has the name and the URI of its step |
| PathPlaces.PlacedIsPassed | src/events/QueryPathTreeFilter.cpp:162-203 | An element is picked by exactly the path nodes whose path can be placed with its end there, and passed on exactly if there is one |
| PathPlaces.AttributeIsPassed | src/events/QueryPathTreeFilter.cpp:250-283 | The same for attributes, which a descendant attribute step picks at any depth |
| PathPlaces.LeafIsPassed | src/events/QueryPathTreeFilter.cpp:218-248 | The same for texts, comments and processing instructions, by steps that are not limited to elements |
| PathPlaces.ClashesMean | src/events/QueryPathTreeFilter.cpp:104-160 | The test for clashes finds exactly the steps expected below the last output ancestor that could take an element for one expected below the real parent, by expanded names |
| PathPlaces.AncestorsPassed | src/events/QueryPathTreeFilter.cpp:104-160 | The skipped ancestors are passed on outermost first, and no more than until nothing can be confused or none is left |
| PathTree.HitsAreSelected | src/events/QueryPathTreeFilter.cpp:162-203 | The simulation of the path tree is exact: a path node is reported for an element if and only if the path it ends selects the element, which PathPlaces says by names and places |
| PathTree.MatchFollowsPaths | src/events/QueryPathTreeFilter.cpp:162-216 | On a well-nested stream the expected children at every level are those offered by the paths of the open nodes |
| PathTree.StartSelects | src/events/QueryPathTreeFilter.cpp:162-203 | The picks added at a start event are exactly the path nodes that select it |
| PathTree.AttributeSelects | src/events/QueryPathTreeFilter.cpp:250-267 | The attributes a path node picks are those below a node where the path tree offers it, at any depth for a descendant attribute step |
| PathFilter.AddChildren | src/events/QueryPathTreeFilter.cpp:317-325 | Adding a path node's children to an entry gives exactly the expected set and its flags |
| PathFilter.ElementEntry | src/events/QueryPathTreeFilter.cpp:162-185 | The entry of an element is matched exactly if some expected path node hits it, and expects what the matcher does |
| PathFilter.FindClash | src/events/QueryPathTreeFilter.cpp:104-160 | The nested loops find a clash exactly if some expected pair could be confused |
| PathFilter.NoClashSameHits | src/events/QueryPathTreeFilter.cpp:104-160 | Without a clash, an element is hit by the same path nodes below the last output ancestor as below its real parent |
| PathFilter.MaterializeIsExact | src/events/QueryPathTreeFilter.cpp:104-160 | Outputting a skipped ancestor late keeps the output's matcher where the input's is |
| PathFilter.WantedParentIsMatched | src/events/QueryPathTreeFilter.cpp:218-248 | Where the tests accept every name, the parent of a wanted leaf has always been passed on |
| PathFilter.QueryPathTreeFilter.CheckAncestors | src/events/QueryPathTreeFilter.cpp:104-160 | Passes on exactly the skipped ancestors that the specification does, until nothing expected can be confused below the last output ancestor; the open elements stay nested and no match is gained or lost |
| PathFilter.QueryPathTreeFilter.StartElementEvent | src/events/QueryPathTreeFilter.cpp:162-203 | Passes an element on exactly if an expected path node hits it; keeps the open output elements the matched stack entries in order, and the matches exact |
| PathFilter.QueryPathTreeFilter.EndElementEvent | src/events/QueryPathTreeFilter.cpp:205-216 | Passes on exactly the ends of what was passed on, and each closes the right start |
| PathFilter.QueryPathTreeFilter.StartDocumentEvent | src/events/QueryPathTreeFilter.cpp:58-91 | Passes every document on; this keeps the matches if and only if the same path nodes select it in the output and in the input |
| PathFilter.QueryPathTreeFilter.EndDocumentEvent | src/events/QueryPathTreeFilter.cpp:93-102 | The same for the end of a document |
| PathFilter.QueryPathTreeFilter.LeafEvent | src/events/QueryPathTreeFilter.cpp:218-248 | Texts, comments and processing instructions are passed on exactly where they are wanted; this keeps the selected leaves if and only if the last output ancestor and the parent select them alike |
| PathFilter.QueryPathTreeFilter.AttributeEvent | src/events/QueryPathTreeFilter.cpp:250-283 | Passes the attribute on exactly where it is expected; this keeps the matches if and only if the last output ancestor does not capture the element that is output late for it |
| PathFilter.QueryPathTreeFilter.NamespaceEvent | src/events/QueryPathTreeFilter.cpp:285-297 | Passes every namespace on; this keeps the matches under exactly the same condition |
| PathFilter.Project | src/events/QueryPathTreeFilter.cpp:58-297 | The output is the projection as a function of the stream, and well nested; the paths pick the same elements and documents, by the same path nodes in the same order, from output and input after every event, if and only if no event disturbs the projection, and then also the same attributes; and the same leaves too if and only if no leaf misleads |
| PathFilter.LateTopExact | src/events/QueryPathTreeFilter.cpp:269-277 | Passing an element on late without looking at its ancestors keeps the matches exactly if the last output ancestor does not capture it |
| PathFilter.AttributeCaptures | src/events/QueryPathTreeFilter.cpp:250-283 | Path trees and a stream for which the output selects an element that the input does not |
| PathFilter.LeafMisleads | src/events/QueryPathTreeFilter.cpp:218-248 | Path trees and a stream for which the output has a leaf where another path selects it |
| FastXdm.CheckText | src/fastxdm/FastXDMDocument.cpp:117-135 | Buffered text becomes a node unless it is empty, and nothing else changes |
| FastXdm.BuildsTree | src/fastxdm/FastXDMDocument.cpp:117-337 | The events of every well-formed tree are accepted, and the arrays encode the tree with adjacent text merged, empty text dropped and absent types defaulted, each element's attributes being exactly one run |
| FastXdm.KidsBuild | src/fastxdm/FastXDMDocument.cpp:117-337 | The same for any sequence of siblings, from any state inside an element |
| FastXdm.OutputIsClean | src/fastxdm/FastXDMDocument.cpp:394-463 | Writing the merged tree out is erasing namespaces, merging text and defaulting types in its stream |
| FastXdmNavigation.AppendNavigable | src/fastxdm/FastXDMDocument.cpp:117-135 | A new node keeps levels and sibling links right, and its parent by the backward scan is the node that is open |
| FastXdmNavigation.HandleNavigable | src/fastxdm/FastXDMDocument.cpp:137-337 | Every event keeps every sibling link the next node at equal level before any shallower one |
| FastXdmNavigation.TreeNavigable | src/fastxdm/FastXDMDocument.cpp:137-337 | So the store of every well-formed tree is navigable |
| FastXdmNavigation.ParentIsOneUp | src/fastxdm/FastXDMDocument.hpp:232-243 | The backward scan always stops, one level up |
| FastXdmNavigation.StartedInOpen | src/fastxdm/FastXDMDocument.cpp:218-234 | A started element's parent is the element that was open |
| FastXdmNavigation.ParentStays | src/fastxdm/FastXDMDocument.hpp:232-243 | No later event changes the parent of a node |
| FastXdmNamespaces.NamespacesStored | src/fastxdm/FastXDMDocument.cpp:324-337 | The finished store has the namespaces of the whole tree, in document order, each with the index of the element that declares it, and the marker if there are any |
| FastXdmNamespaces.HandleKeepsFirst | src/fastxdm/FastXDMDocument.cpp:324-337 | Every event keeps every element linked to the first of its namespaces, and to none exactly if it declares none |
| FastXdmDocument.FastXDMDocument.AddNode | src/fastxdm/FastXDMDocument.cpp:117-135 | Writing a slot and linking the previous sibling is Append, across a resize |
| FastXdmDocument.FastXDMDocument.CheckTextBuffer | src/fastxdm/FastXDMDocument.cpp:117-135 | Flushes the text buffer as CheckText does |
| FastXdmDocument.FastXDMDocument.ResizeNodes | src/fastxdm/FastXDMDocument.cpp:339-345 | Doubling the array keeps its contents |
| FastXdmDocument.FastXDMDocument.StartElementEvent | src/fastxdm/FastXDMDocument.cpp:218-234 | Refines the handler of the specification |
| FastXdmDocument.FastXDMDocument.EndElementEvent | src/fastxdm/FastXDMDocument.cpp:236-248 | Refines the handler of the specification |
| FastXdmDocument.FastXDMDocument.AttributeEvent | src/fastxdm/FastXDMDocument.cpp:295-322 | Refines the handler of the specification, across a resize, also where no element is open |
| FastXdmDocument.FastXDMDocument.NamespaceEvent | src/fastxdm/FastXDMDocument.cpp:324-337 | Refines the handler of the specification, across a resize |
| FastXdmDocument.FastXDMDocument.EndEvent | src/fastxdm/FastXDMDocument.cpp:159-216 | Flushes the last text and adds the end markers |
| FastXdmDocument.FastXDMDocument.GetParent | src/fastxdm/FastXDMDocument.hpp:232-243 | The do-while scan computes the parent |
| FastXdmDocument.FastXDMDocument.ToEventsImpl | src/fastxdm/FastXDMDocument.cpp:394-463 | Writes out exactly the tree that the arrays hold from a node on, and stops after it |
| FastXdmDocument.FastXDMDocument.KidsToEvents | src/fastxdm/FastXDMDocument.cpp:440-452 | The loop over the following deeper nodes writes out exactly the children |
| FastXdmDocument.FastXDMDocument.AttributesToEvents | src/fastxdm/FastXDMDocument.cpp:409-425 | The loop over the attributes with the same owner writes out exactly the element's attributes |
| FastXdmDocument.RoundTrip | src/fastxdm/FastXDMDocument.cpp:39-468 | Feeding any well-formed tree into a store whose initial sizes are not zero where it needs a slot, and writing node 0 out again, gives the cleaned stream |
| FastXdmDocument.SlotsAreNeeded | src/fastxdm/FastXDMDocument.cpp:339-361 | The sizes that must not be zero are exactly those of the arrays that the finished store fills |
| FastXdmDocument.AttributeRoundTrip | src/fastxdm/FastXDMSequenceBuilder.cpp:147-162 | A single attribute, in a store without room for nodes, comes out with its type defaulted |
| DocumentOrder.LessThanIsBefore | src/fastxdm/FastXDMNodeImpl.cpp:434-471 | The node classes' comparison, by index and owner, of nodes and attributes in any combination (attributes at lines 1304-1348) is document order, where attributes are stored in the order of their owners |
| DocumentOrder.SubtreesKeepOrder | src/ast/XQNav.cpp:305-313 | Items below two nodes that are not nested are ordered as those nodes are |
| DocumentOrder.CombineSound | src/ast/XQNav.cpp:291-335 | Each combined property holds of the composed step, for every input and step that satisfy theirs, if the subtree property is earned |
| DocumentOrder.CombineExact | src/ast/XQNav.cpp:291-335 | The rule is sound for all inputs and steps if and only if the subtree property is earned: the third rule alone can claim it wrongly |
| DocumentOrder.FoldEarns | src/ast/XQNav.cpp:155-175 | On the way through a path it is always earned, because results known to be peers are known to be in the subtree |
| DocumentOrder.FixedExact | src/ast/XQVariable.cpp:98-98 | Exactly which properties follow, at every other context item, from those that a result has at one: none that speak of the context item, and of the others those that are given or follow |
| DocumentOrder.CarriedCombines | src/ast/XQNav.cpp:291-335 | What the combined properties say regardless of the context item holds whenever that of the input does and the step has its properties; the subtree property need not be earned |
| DocumentOrder.CarriedExact | src/ast/XQNav.cpp:291-335 | Where only that is known of the step as well, the order that the rule infers is right for all inputs and steps if and only if the input is known to be at most one item |
| DocumentOrder.IncreasingIsGrouped | src/ast/XQNav.cpp:299-303 | Results in document order are grouped by document |
| DocumentOrder.OrderedMeans | src/runtime/Sequence.cpp:203-216 | Sorting and removing equal neighbours gives the same items, strictly increasing |
| DocumentOrder.OrderedIsIdentity | src/ast/XQDocumentOrder.cpp:65-68 | Sorting results that are in document order changes nothing |
| Axes.AxisSelects | src/ast/XQStep.cpp:182-217 | Each axis delivers exactly the nodes that XPath defines, by level and owner |
| Axes.ForwardIncreases | src/ast/XQStep.cpp:142-163 | Forward axes deliver in document order |
| Axes.AxisSound | src/ast/XQStep.cpp:46-80 | Every axis satisfies the properties declared for it at every context item |
| PathExpressions.PropertiesSound | src/ast/XQNav.cpp:151-175 | All properties inferred for an expression, over any nesting of steps, predicates, paths, sorts, simple maps, variables, and calls with what they declare, hold of its results at every context item, where they are earned |
| PathMeaning.PredicateKeeps | src/ast/XQPredicate.cpp:163-208 | A positional predicate keeps, in order, exactly the results that pass its test with their position, counted from one, and the number of all results |
| PathMeaning.NthKept | src/ast/XQPredicate.cpp:163-208 | [n] keeps the result at position n, or nothing if there is none |
| PathMeaning.LastKept | src/ast/XQPredicate.cpp:163-208 | [last()] keeps the last result |
| PathMeaning.TestKeeps | src/ast/XQPredicate.cpp:163-208 | Any other predicate keeps, in order, exactly the results that pass |
| PathMeaning.StepSelects | src/axis/NodeTest.cpp:138-156 | A step selects exactly the nodes on its axis that are of its kind and pass its name test; a wildcard all of them, or only the documents and elements |
| PathMeaning.KindOfTree | src/axis/NodeTest.cpp:144-156 | In a store, exactly the nodes that encode text, comments, processing instructions, elements and documents are of that kind, and none of them an attribute |
| PathMeaning.PathSelects | src/ast/XQNav.cpp:352-378 | A path selects exactly the items that its steps, one after the other, lead to; sorted, each once in document order |
| PathMeaning.OrderInferred | src/ast/XQStep.cpp:46-80 | Order is inferred for a path of steps, under any predicates, if and only if, without self steps, it moves to parents and then once forward or to the parent, or to children and attributes and then once within the subtree |
| PathMeaning.PropertiesInferred | src/ast/XQStep.cpp:46-80 | Exactly the properties that are inferred for a path of steps, by its axes alone: always grouped and in one document; peers after moves to children and attributes only; in the subtree after moves within it only; one node after moves to the parent only |
| PathMeaning.OrderAfterFirst | src/ast/XQNav.cpp:291-335 | The same for every path that starts with anything else, by the properties that are declared of it |
| PathMeaning.StartsOfPaths | src/functions/FunctionRoot.cpp:69-70 | A path from fn:doc or from a variable of one item has its order inferred exactly where that of its steps is; from fn:root only for at most one step after steps to the parent; from a variable of any number of items never |
| PathMeaning.MapInferred | src/ast/XQVariable.cpp:98-98 | Over a variable, order is inferred for a map to a step exactly if the variable is declared to be one node and the step goes on, or peers in order and the step stays below |
| PathExpressions.CarriesSound | src/ast/XQNav.cpp:151-175 | What they say regardless of the context item holds already where calls, constants and variables are what they declare regardless of it, and the steps from more than one item, and after the last constant one, are earned |
| PathExpressions.EarnedCarries | src/ast/XQNav.cpp:151-175 | That condition is the weaker one |
| PathExpressions.LastPartSound | src/ast/XQNav.cpp:179-197 | The properties inferred over all the steps, also those before the last constant one, say the truth of what is left after clearing them |
| PathExpressions.SortIsNotNeeded | src/ast/XQDocumentOrder.cpp:65-68 | Where document order is inferred and carried, dropping the sort changes nothing |
| PathExpressions.InheritedExact | src/ast/XQVariable.cpp:98-98 | The properties that the use of a variable takes over are right for every value, declared with them at some item, and for every use, if and only if they do not say that it is the context item |
| PathExpressions.BoundVariable | src/optimizer/StaticTyper.cpp:230-246 | A typeswitch, transform or global variable, which is declared with the properties of its expression, has a value of which they say the truth |
| PathExpressions.DeclaredVariable | src/context/impl/VarTypeStoreImpl.cpp:29-39 | Of a for, let or quantified variable the declaration, by cardinality alone, says the truth regardless of the context item, whatever it is bound to, if and only if it has at most one item where it is declared to have one |
| PathExpressions.FirstPath | src/ast/XQNav.cpp:291-297 | The order inferred for every path is right whatever it starts from, if that is what it declares regardless of the context item |
| PathExpressions.MappedVariable | src/ast/XQMap.cpp:79-79 | On the right of a simple map a variable carries its properties if and only if it does by itself, and it is not declared to be the context item or the map is over at most one item |
| PathExpressions.RootEarned | src/functions/FunctionRoot.cpp:69-70 | What fn:root declares is right at every context item |
| PathExpressions.DocCarries | src/functions/FunctionDoc.cpp:56-57 | What fn:doc declares is right regardless of the context item if and only if it delivers at most one node |
| PathExpressions.DocConstantCarries | src/functions/FunctionDoc.cpp:56-57 | The same for a name that does not use the context, such as a literal |
| PathExpressions.DocEarned | src/functions/FunctionDoc.cpp:56-57 | It is right altogether if and only if, besides, the document is in the subtree of the context item |
| PathExpressions.DocPath | src/functions/FunctionDoc.cpp:56-57 | The order inferred for every path that starts at fn:doc is right |
| PathExpressions.CollectionCarries | src/functions/FunctionCollection.cpp:54-55 | What fn:collection declares is right regardless of the context item if and only if it delivers in document order |
| PathTyping.DeadEnds | src/ast/XQNav.cpp:237-268 | Only documents and elements have children or descendants, only elements attributes |
| PathTyping.NarrowedLosesNothing | src/ast/XQNav.cpp:237-268 | Narrowing a wildcard step to what the next step can leave from changes nothing after that step |
| PathTyping.AbsorbedKeepsItems | src/ast/XQNav.cpp:246-258 | descendant-or-self::node() and a step down select the same set as one descendant step, also under predicates that do not use the position |
| PathTyping.RewriteMeans | src/ast/XQNav.cpp:216-278 | The whole pass over adjacent steps keeps the set of results, and their order if no step is absorbed |
| PathSteps.RewriteByPlace | src/ast/XQNav.cpp:216-278 | By index: the pass leaves, in order, exactly the steps that are not descendant-or-self::node() before a step to children or descendants without positional predicates; such a next step moves to the descendant axis; every other wildcard is narrowed exactly where the next step, under any predicates, goes down or to attributes |
| PathSteps.PathKeeps | src/ast/XQNav.cpp:151-210 | Typing a path keeps exactly the typed steps from the last one on that starts with a constant or variable, ends in nodes, creates nothing and has nothing traced before it, with nested paths joined |
| PathSteps.CutsByLeaves | src/ast/XQNav.cpp:179-197 | Whether a step clears the ones before it, or forbids that, by the leaves of the expression: the first, the last and all of them |
| PathSteps.TypedIsFlat | src/ast/XQNav.cpp:155-165 | No step of a typed path is a path |
| PathSteps.SortGoes | src/ast/XQDocumentOrder.cpp:65-68 | The sort over a path of steps is dropped exactly where order is inferred, said by the axes alone |
| PathTyping.GatherShape | src/ast/XQNav.cpp:151-210 | Where document order is inferred for a path, no step of it can be absorbed |
| PathTyping.ConstantStepExact | src/ast/XQNav.cpp:179-197 | Clearing the steps before a constant one keeps the set of results if and only if those steps select something or nothing follows from the constant |
| PathTyping.PathTyped | src/ast/XQNav.cpp:151-285 | A whole path, with any number of constant steps, selects the same set after typing if and only if what is cut off is no loss; and then, where order is inferred and carried, it delivers what the sorted path does |
| PathTyping.UncutPathTyped | src/ast/XQNav.cpp:151-285 | And that is what the path itself does, where its steps carry their properties as they stand |
| PathTyping.SortedPathExact | src/ast/XQNav.cpp:151-285 | A sorted path keeps its results, item for item, under exactly the same condition |
| PathTyping.DependentIsKept | src/ast/XQNav.cpp:179-197 | Where every step after the first uses the context, nothing is cleared |
| PathTyping.TypedMeans | src/ast/XQNav.cpp:151-285 | Static typing - joining nested paths, cutting off steps unless that is forbidden, narrowing and absorbing steps, dropping sorts - keeps the results of every proper expression, with variables and calls of any declaration, item for item |
| PathLimits.SimpleMapLosesOrder | src/ast/XQMap.cpp:79-79 | In a document as the builders store it: a simple map for which document order is inferred of results that are not in order, so that static typing changes them |
| PathLimits.VariableLosesOrder | src/context/impl/VarTypeStoreImpl.cpp:29-39 | A for or let variable of one item, whatever its value: document order is inferred of a simple map that repeats it, and static typing changes the results |
| PathLimits.DocLosesOrder | src/functions/FunctionDoc.cpp:56-57 | fn:doc called from each of several nodes for the same document: document order is inferred of the repeated node, and static typing changes the results |
| PathLimits.DocumentLosesOrder | src/functions/FunctionDocument.cpp:53-54 | fn:document called with two names: it declares one node and delivers two, and static typing drops the sort that would put them in order |
| PathLimits.UntypedLosesOrder | src/ast/XQNav.cpp:179-182 | A variable of one item that may be atomic, as a later step, does not clear the steps before it, and static typing changes the results |
| PathLimits.TracedLosesOrder | src/ast/XQNav.cpp:179-182 | The same for a variable known to be a node, after a traced step |
| PathNodes.XQNav.StaticTypingImpl | src/ast/XQNav.cpp:151-285 | The two loops over the steps compute Typed and the folded properties |
| PathNodes.XQNav.RewriteSteps | src/ast/XQNav.cpp:216-278 | The loop with look-ahead computes Rewrite |
| PathNodes.NavStepResult.Next | src/ast/XQNav.cpp:352-378 | Delivers the concatenation of what the step selects from each item at its position, counted from one |
| PathNodes.StepFromAt | src/ast/XQNav.cpp:352-378 | The item at index k is stepped from at position k + 1 |
| PathNodes.StepFromIsFlatMap | src/ast/XQNav.cpp:352-378 | A step that does not look at the position delivers what the meaning of paths says |
| PathNodes.UniqueNodesResult.Next | src/ast/XQDocumentOrder.cpp:95-110 | Delivers each item once, where it first occurs |
| PathNodes.UnorderedMeans | src/ast/XQDocumentOrder.cpp:77-85 | In unordered mode the items are the same, and nothing is removed where document order is inferred and carried |
| StoredDocuments.HandleShaped | src/fastxdm/FastXDMDocument.cpp:137-337 | Every event keeps attributes in the order of their owners with each element at its first one, and nodes with children documents or elements |
| StoredDocuments.TreeIsDocument | src/fastxdm/FastXDMDocument.cpp:137-361 | The finished store of every well-formed tree is a document as the axes need it |
| AxisIterators.AttributeAxisNodes | src/fastxdm/FastXDMNodeImpl.cpp:955-991 | The run from the element's first attribute delivers exactly its attributes |
| StoredDocuments.DocumentsHold | src/fastxdm/FastXDMDocument.cpp:137-361 | Stored documents satisfy all that typing paths asks of them |
| AxisIterators.ParentOf | src/fastxdm/FastXDMNodeImpl.cpp:788-803 | The backward scan, used as the parent axis |
| AxisIterators.ChildAxisNodes | src/fastxdm/FastXDMNodeImpl.cpp:668-693 | Following sibling links from the first deeper node delivers exactly the children |
| AxisIterators.AxisNodes | src/fastxdm/FastXDMNodeImpl.cpp:634-953 | Whatever the axis, the walk over the arrays delivers its nodes in its order |
| TreeAxes.AxisOnTree | src/fastxdm/FastXDMNodeImpl.cpp:634-953 | In the store that encodes a tree every axis, by levels and indexes, is what it is in the tree, by the paths of child numbers: a child one step further on, a descendant any number, siblings with the same parent, following and preceding in preorder |
| TreeAxes.StepOnTree | src/fastxdm/FastXDMNodeImpl.cpp:634-953 | A step in the stored document of any well-formed tree selects exactly the nodes that stand on its axis in the merged tree, are of its kind there and pass its name test |
| TreeAxes.NodesStand | src/fastxdm/FastXDMDocument.cpp:137-361 | Every node of the stored document stands at a path of the merged tree |
| TreeAxes.AttributesOnTree | src/fastxdm/FastXDMNodeImpl.cpp:955-991 | The attribute axis selects exactly the attributes of the element in the tree, in their order, and nothing at any other node |
| TreeAxes.PlacesOf | src/fastxdm/FastXDMNodeImpl.cpp:434-471 | Document order of the indexes is preorder of the paths, and what is at or below a node is one stretch of indexes |
| AxisIterators.BuildDocument | src/fastxdm/FastXDMDocument.cpp:39-361 | A document built from any well-formed tree, under the same condition on the initial sizes, is ready for these walks and encodes the tree |
| FullText.NextDelivers | src/fulltext/FTAnd.cpp:110-136 | Reading on a buffered operand delivers the rest of the pass, one match at a time, and loses nothing |
| FullText.ResetStarts | src/fulltext/FTAnd.cpp:138-143 | After a reset the pass starts again; before anything was read, it will deliver the first match twice |
| FullText.DeliveredMember | src/fulltext/FTAnd.cpp:171-225 | A conjunction delivers every combination of its operands' matches at least once, and nothing else |
| FullText.DeliveredLength | src/fulltext/FTAnd.cpp:110-143 | Exactly how many combinations come again, because a pending reset survives the first fetch |
| FullText.TokenDistanceIs | include/xqilla/fulltext/FTOption.hpp:50-61 | The word distance of distinct positions is the number of tokens between; of one and the same position it wraps to the largest number |
| FullText.SamePositionRange | src/fulltext/FTDistance.cpp:264-282 | Two words at one and the same position are accepted by every at least, and by at most or exactly only with the largest number |
| FullText.RangesMean | src/fulltext/FTDistance.cpp:264-282 | At rising positions each of the four ranges, from and to included, accepts exactly if it bounds the number of tokens between every two neighbours as it says |
| FullText.OrderMeans | src/fulltext/FTOrder.cpp:74-90 | A match is in query order exactly if no word stands before one that is earlier in the query, wherever the two are in the match |
| FullText.ConjunctionSpells | src/fulltext/FTWords.cpp:166-182 | The conjunction of the query's words delivers exactly the matches that spell the query |
| FullText.PhraseExact | src/fulltext/FTWords.cpp:197-203 | The pipeline delivers the match at positions p, p+1, ... exactly where the phrase stands in the text at p, and nothing else |
| FullText.PhraseFound | src/fulltext/FTWords.cpp:197-203 | A text contains the phrase if and only if the pipeline delivers anything |
| FullTextIterators.StartingIsDelivered | src/fulltext/FTAnd.cpp:171-193 | Before the first call, what is to come is the whole conjunction |
| FullTextIterators.BufferedMatches.Next | src/fulltext/FTAnd.cpp:110-136 | Moves the buffered operand as specified |
| FullTextIterators.BufferedMatches.Reset | src/fulltext/FTAnd.cpp:138-143 | Resets the buffered operand as specified |
| FullTextIterators.FTConjunctionMatches.Next | src/fulltext/FTAnd.cpp:171-225 | The backtracking loop terminates and moves to the next combination, or ends exactly when there is none |
| FullTextIterators.FTConjunctionMatches.GetStringIncludes | src/fulltext/FTAnd.cpp:227-236 | The includes are those of the current matches, in operand order |
| FullTextIterators.FTStringSearchMatches.Next | src/fulltext/FTWords.cpp:325-340 | Delivers one match per token of the word |
| FullTextIterators.HasCrossed | src/fulltext/FTOrder.cpp:74-90 | The nested loops find a pair out of order exactly if there is one |
| FullTextIterators.FTOrderMatches.Next | src/fulltext/FTOrder.cpp:63-97 | Delivers exactly the operand's matches that are in query order |
| FullTextIterators.OutOfRange | src/fulltext/FTDistance.cpp:213-231 | The loop over the sorted positions finds two neighbours out of range exactly if there are any |
| FullTextIterators.FTDistanceMatches.Next | src/fulltext/FTDistance.cpp:202-238 | Delivers exactly the operand's matches whose neighbours in the text are within the range |
| FullTextIterators.ExecuteAllWords | src/fulltext/FTWords.cpp:166-182 | Builds the conjunction of the query's words |
| FullTextIterators.ExecutePhrase | src/fulltext/FTWords.cpp:197-203 | Pulling the pipeline to its end gives the phrase matches |
| StringPool.ComputeHash | include/xqilla/framework/StringPool.hpp:80-89 | The loop computes the hash in 32-bit arithmetic |
| StringPool.ShortHash | include/xqilla/framework/StringPool.hpp:80-89 | Where nothing wraps or is shifted in, the hash is the value of the characters as digits to the base 38 |
| StringPool.EqualsNIs | src/framework/StringPool.cpp:112-122 | Among strings of one length the comparison finds equal content, zeros included |
| StringPool.ComparisonsAgree | src/framework/StringPool.cpp:81-87 | For terminated requests both comparisons agree, so the two kinds share one table |
| StringPool.StringPool.Find | src/framework/StringPool.cpp:137-147 | Walking the chain of the hash finds the reference exactly if the content is pooled |
| StringPool.StringPool.Resize | src/framework/StringPool.cpp:233-257 | Rehashing moves every bucket to its chain and keeps the set and all references; the new size is computed in 32 bits |
| StringPool.EnlargedIsLoaded | src/framework/StringPool.cpp:149-152 | Enlarging a full table brings the load below three quarters; the 32-bit wrap-around starts only beyond 736,100,351 strings |
| StringPool.MoveChain | src/framework/StringPool.cpp:240-252 | Moving the buckets of one chain in place leaves the others as they were |
| StringPool.StringPool.GetPooledStringN | src/framework/StringPool.cpp:124-164 | A poolable string gets the one reference for its content, a longer one a reference of its own, a null pointer nothing; with fewer than 736,100,351 strings the table stays at most three quarters full; hits, misses and strings of more than 100 characters are counted in 32 bits |
| StringPool.StringPool.GetPooledString | src/framework/StringPool.cpp:65-110 | The same for terminated strings and null |
| StringPool.InternAll | src/framework/StringPool.cpp:65-164 | Over any run of poolable requests two references are the same if and only if the contents are, earlier references stay, and the pool has been extended by exactly the contents requested |
| MemoryList.BaseMemoryManager.Allocate | src/framework/BaseMemoryManager.cpp:129-174 | The new block is linked last, and the counters count it |
| MemoryList.BaseMemoryManager.Deallocate | src/framework/BaseMemoryManager.cpp:198-256 | Any live block is taken out; the others stay linked in order |
| MemoryList.Unlink | src/framework/BaseMemoryManager.cpp:211-231 | Joining the neighbours keeps one doubly linked list of the rest |
| MemoryList.BaseMemoryManager.ReleaseAll | src/framework/BaseMemoryManager.cpp:66-81 | Frees every live block once, newest first, and leaves the counters as they were, which is right exactly if there was none |
| MemoryList.Run | src/framework/BaseMemoryManager.cpp:66-257 | Over any interleaving of requests the counters are the number and total size of exactly the live blocks |
| AnalyzeString.InsertIs | src/functions/FunctionAnalyzeString.cpp:48-53 | The ordered set holds each region once, in the order of the comparison |
| AnalyzeString.TextExact | src/functions/FunctionAnalyzeString.cpp:63-97 | The recursion uses every region, and its texts are the input if and only if the regions are nested or disjoint |
| AnalyzeString.ElementsExact | src/functions/FunctionAnalyzeString.cpp:63-97 | Whatever the regions, the elements are balanced, and there is one for each region, in order (AnalyzeParts says which they are) |
| AnalyzeParts.PartsExact | src/functions/FunctionAnalyzeString.cpp:63-145 | By names and numbers: the elements inside the result are one match for each match, one non-match for each gap that is not empty, and one group with its number in decimal for each group that took part, each exactly once around its text; they end in the order of the text, and a group inside its match |
| AnalyzeParts.TextsInOrder | src/functions/FunctionAnalyzeString.cpp:99-145 | The texts inside the elements named match are those of the matches, in order, and the texts inside those named non-match the gaps that are not empty, in order |
| AnalyzeString.MatchProgress | src/functions/FunctionAnalyzeString.cpp:113-128 | Adding a match and its groups lets no two regions cross |
| AnalyzeString.TextConserved | src/functions/FunctionAnalyzeString.cpp:99-145 | For ordered, disjoint, non-empty matches with nested or disjoint groups, the texts are exactly the input |
| AnalyzeString.AnalyzeStringEvents | src/functions/FunctionAnalyzeString.cpp:63-97 | The recursion over the shared iterator writes what the specification says |
| AnalyzeString.CollectRegions | src/functions/FunctionAnalyzeString.cpp:113-131 | The loops collect the regions and the gaps |
| AnalyzeString.AnalyzeString | src/functions/FunctionAnalyzeString.cpp:99-145 | The loops and the recursion together write the result that AnalyzeParts describes; it conserves the text and balances its elements |
| EncodeForUri.CodepointInUtf8 | src/functions/FnModule.hpp:129-149 | All bytes are at most 255 |
| EncodeForUri.PercentByteDecodes | src/functions/FnModule.hpp:151-165 | The indexes into the hexadecimal digits are 1 to 16, and the three characters decode to the byte |
| EncodeForUri.CharacterEncoded | src/functions/FnModule.hpp:167-194 | Exactly the letters, digits and - . _ ~ stay; every byte of any other character becomes a percent sign and two upper-case hexadecimal digits |
| EncodeForUri.EncodedInTurn | src/functions/FnModule.hpp:167-194 | A string is encoded character by character |
| EncodeForUri.EncodedDecodes | src/functions/FnModule.hpp:167-194 | Percent-decoding the result gives the UTF-8 bytes of the input |
| EncodeForUri.CodeDecodes | src/functions/FnModule.hpp:129-149 | The bytes of a code point decode to it, whatever follows |
| EncodeForUri.EncodeRoundTrip | src/functions/FnModule.hpp:129-194 | Percent-decoding and then UTF-8-decoding the result recovers every input |
| EncodeForUri.EncodeInjective | src/functions/FnModule.hpp:167-194 | Different inputs have different encodings |

## Left out

- PushBack.OptimizeKeepsMeaning: asks that no swap captures a name, which the code does not check; the condition is exact for each swap, but a whole chain can keep its meaning by chance although one of its swaps captures a name.
- PushBackScope.LetForSwapExact: takes a for whose position variable differs from its variable, as the language demands.
- PathFilter.Project: the conditions are exact for agreement after every event; output that differs on the way might agree at the end by chance. A leaf is taken to be selected by every test that is not limited to elements, as the filter takes it, whatever the name of a processing instruction.
- FastXdm.BuildsTree: a document occurs only as the root, which is what the builders feed.
- FastXdmDocument.FastXDMDocument.EndEvent: the links stay unbounded indexes; the program rewrites them to pointers into the final array here.
- PathTyping.TypedMeans: excludes sorts that are dropped although a step from more than one item is right only regardless of the context item, for which DocumentOrder.CarriedExact has the exact condition, or although a call is not what it declares, and constant steps that lose results, for which PathTyping.SortedPathExact has the exact condition; PathLimits has inputs that fail.
- PathExpressions.CollectionCarries: whether a collection comes in document order is up to its resolver.
- PathExpressions.DeclaredVariable: whether a variable has exactly one item is given, as its static type is; values are nodes.
- FastXdmDocument.RoundTrip: the store cannot be used where an initial size of zero meets a slot that is needed, since doubling makes none; what the program then does is not modelled.
- MemoryList.BaseMemoryManager.Allocate: the counters do not wrap around; whether memory is available is a parameter.
- FLWOR: expressions are total, pure functions of the environment with the variables they use; creating nodes is a flag that blocks moves. Updates, errors, interrupts, debug hooks and the stable/unstable modifier are not modelled; the sort is always the stable one.
- FLWOR: atomic keys and collations are reduced to an order on items.
- Path expressions: items are nodes and attributes of stored documents; atomic results and their checks are not modelled, nor are steps that use the position in the outer path. Constructed nodes are new ones at every evaluation, which a function of the context item does not capture. Conditionals, typeswitch, treat and transform pass on the properties of their branches, and calls of user functions those of the body; they would only add easy cases. The tests of predicates are taken to create nothing and not to be traced. Nodes of other implementations are ordered by address in the program and are not modelled.
- Namespace nodes: the namespace axis, and the order of a namespace node and its owner, which the program leaves undecided (FastXDMNodeImpl::lessThan).
- Projection: the absent prefix, URI and type of the program (null) are empty or missing values here.
- Flat store: writing out inherited namespaces at the root, writing out with namespaces, and the update functions, which are not implemented in the program.
- Full text: an operand of a conjunction stands for the matches that its own iterator still delivers. Excluded matches, windows, scopes, disjunction, sentence and paragraph units and the normalisation of words are not modelled.
- String pool: the overload that transcodes from UTF-8, and the statistics output.
- Allocation list: the chunked and the debugging variants, and the integer pool.
- fn:analyze-string: the regular expression engine; its matches are a parameter, and so are the conditions on them.
- Parsing, serialisation, URI resolution, schema validation, the debugger and the C interface: I/O, or code that would only add easy members.
