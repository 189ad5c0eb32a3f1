# OpenSMT: interpolation, formula transformations and the assertion stack

The solver bundled with this repository (`src/opensmt`) turns formulas and proofs into other formulas and
proofs. These Dafny files model six of its parts and prove that what comes out means what went in.

- **Resolution proofs and Craig interpolation** (`Clauses`, `Proofs`, `LocalSteps`, `Rules`, `Cuts`, `Contexts`,
  `FollowUp`, `ProofGraph`, `Restructure`, `Traversal`, `GraphWalks`, `Normalization`, `Unfolding`, `StrandedNode`,
  `Formulas`, `Interpolation`, `InterpolationContext`, `Strength`, `Duality`, `SwapStrength`). A refutation is a graph of
  clauses with antecedent pointers and resolvent sets. Seven local rules rewrite it in place, a traversal
  repairs what a rule leaves stale, and an interpolation engine walks the graph from the leaves to the root. The
  class `ProofGraph` is the graph on the heap; `View()` is its value, and the rules are functions on values.
- **If-then-else elimination** (`Terms`, `TermStack`, `Dfs`, `IteDags`, `PathConditions`, `IteToSwitch`,
  `IteHandler`). Nested if-then-elses become switches: "if this path condition holds, the term equals this value".
- **Incremental CNF and the assertion stack** (`TermMapper`, `Tseitin`, `Caches`, `Cnfizer`, `CnfizerRun`,
  `SolverStates`, `MainSolver`, `MainSolverRun`). Formulas are pushed, popped, asserted and checked over one SAT
  solver, whose clauses are never taken back; frame literals switch them on and off.
- **Substitutions** (`Digraphs`, `Tarjan`, `TarjanRun`, `LoopBreaker`, `SubstLoopBreaker`, `Rewriter`, `Closures`,
  `Facts`, `Retrieval`, `SubstPass`, `SubstRun`, `SubstExample`, `LostFact`). Facts at the top of a formula become
  substitutions, loops among them are found and broken, the rest is closed and applied until nothing changes.
- **Arithmetic** (`LinearForms`, `ArithLogic`, `Decimal`, `DivMod`, `DivModRewriter`, `DivModRun`, `StringConv`).
  Integer inequalities and equalities in normal form, the elimination of divisions and modulos by constants, and
  the conversion of decimal literals.
- **Two data structures** (`SplayShapes`, `SplaySteps`, `SplayTree`; `ValuationTrees`, `ModelBuilder`). A top-down
  splay tree on the heap, and the trees in which function models are collected.

Where the source updates objects or loops over changing collections, the model is a class or a method with loop
invariants, and its contract ties it to a function or predicate on values. What is then proved about whole runs
and whole graphs is stated about those functions.

What the solver is given from outside is a parameter: the SAT solver (`MainSolvers.Reliable`), preprocessing of a
frame (`MainSolvers.PreprocessingRight`), the term constructors that simplify (`Rewriters.Simplifies`), the
labelling of shared variables (any total one), the numbers of terms in names, and the interpolants of theory lemmas
(`Interpolation.Admissible`). Random tie-breaks are nondeterministic choices.

`Simplifies` asks of the constructors that they keep sort, value and leaves, and that a term does not grow
(`Size(simp(t)) <= Size(t)`). The last is a real hypothesis; termination of the substitution pass rests on it, and
arithmetic constructors, which normalise, need not meet it. `SubstExamples.BuildSimplifies` gives constructors
that do.

## Model

| member | source | states |
|---|---|---|
| Clauses.MergeClauses | src/opensmt/proof/PGHelp.cc:168-218 | the two-index merge of two sorted clauses is sorted, and its literals are exactly those of the resolvent on the pivot |
| Clauses.HasOccurrenceBin | src/opensmt/proof/PGHelp.cc:17-31 | the binary search tells with which sign a variable occurs in a clause sorted by variable, or that it does not |
| Contexts.Classify | src/opensmt/proof/PGRules.cc:78-160 | the few occurrence tests choose an antecedent of w as v1 and a rule whose full condition (which of the four literals of the two pivots occur where) then holds |
| Contexts.RuleUnique | src/opensmt/proof/PGRules.cc:19-165 | at a given v3 and v at most one rule is enabled; only A1 leaves open which antecedent of w plays v1 |
| Contexts.ContextUnique | src/opensmt/proof/PGRules.cc:19-165 | the tests single out one context at a given v3 and v, also between the two that A1 would allow |
| ProofGraphs.ProofGraph.GetRuleContext | src/opensmt/proof/PGRules.cc:19-165 | on a valid graph it answers "no rule" exactly if the other antecedent of v is a leaf, and otherwise returns the one context that the occurrence tests allow there, in which its rule is enabled |
| ProofGraphs.ProofGraph.RuleApply | src/opensmt/proof/PGRules.cc:168-183 | after a swap rule the graph on the heap is an acyclic valid refutation with v's clause unchanged; after a cut rule a correctly derived clause that subsumes v's stands in its place, the empty root stays, and only v's resolvents are left to be recomputed; the graph is the one the rule defines |
| ProofGraphs.ProofGraph.ApplyRuleB3 | src/opensmt/proof/PGRules.cc:413-480 | the pointer updates and the two clean-ups make the graph of rule B3: v2 has v's resolvents, w and v3 are gone with exactly what only served them |
| Rules.A1Preserves | src/opensmt/proof/PGRules.cc:185-236 | A1 with a fresh node keeps an acyclic valid refutation, its links, and v's clause |
| Rules.A2Preserves | src/opensmt/proof/PGRules.cc:281-314 | A2 where w serves v alone keeps an acyclic valid refutation, its links, and v's clause |
| FollowUps.A2BExposesCut | src/opensmt/proof/PGRules.cc:128-152 | what A2B is told apart for: after it a cut rule is enabled at the new w, with v3 in the place of w |
| FollowUps.A1BExposesCuts | src/opensmt/proof/PGRules.cc:128-152 | after A1B a cut rule is enabled at the new w, and one at the node that was added |
| FollowUps.A2UMovesUnit | src/opensmt/proof/PGRules.cc:128-152 | after A2U v resolves on the unit clause, and the new w has exactly v's clause and the literal the unit takes away |
| Rules.B2Subsumes | src/opensmt/proof/PGRules.cc:346-382 | B2 leaves the empty clause correctly derived at v, whose clause was not empty, and nothing but v's resolvents to recompute |
| Cuts.A1PrimePreserves | src/opensmt/proof/PGRules.cc:238-279 | the undo of A1 keeps an acyclic valid refutation and v's clause, whether or not v3 becomes useless |
| Cuts.CutSubsumes | src/opensmt/proof/PGRules.cc:316-344 | B1 and B2' leave a well derived clause at v that is part of the old one, and are never enabled where v's clause is empty |
| Cuts.B3Subsumes | src/opensmt/proof/PGRules.cc:413-480 | B3 leaves v2 in v's place, with a clause that is part of v's, in a graph whose links, ranks and clauses are right but for v's resolvents |
| Cuts.V3SurvivesExactly | src/opensmt/proof/PGRules.cc:454-465 | the node v3 is still there when B3 looks at its resolvents exactly if w had another resolvent than v, or some chain of resolvents leads from v3 past w |
| Cuts.UnusedSurvives | src/opensmt/proof/PGRules.cc:454-465 | v3 survives in particular if v1 is not derived from it |
| StrandedNodes.V3CanBeLost | src/opensmt/proof/PGRules.cc:454-465 | a refutation of fourteen nodes in which B3 is enabled and v3 is deleted before it is looked up |
| ProofGraphs.ProofGraph.RemoveTree | src/opensmt/proof/PGBuild.cc:442-475 | the queue deletes exactly the nodes that end up without resolvents once the given one is gone, keeps all links right and returns how many went |
| Rules.DuplicatedPreserves | src/opensmt/proof/PGBuild.cc:477-520 | giving v a copy of w to itself keeps an acyclic valid refutation, and the rule still applies in the same place, with a w that now serves v alone |
| ProofGraphs.ProofGraph.DupliNode | src/opensmt/proof/PGBuild.cc:477-520 | the pointer updates make exactly that graph, with a node whose id was not in use |
| Restructuring.VisitMerged | src/opensmt/proof/PGTransformationAlgorithms.cc:595-604 | a node whose antecedents still have the pivot can take their merge: its clause does not grow, it is derived again, and all other nodes keep what the traversal relies on |
| Restructuring.VisitReplaced | src/opensmt/proof/PGTransformationAlgorithms.cc:649-694 | where an antecedent has lost the pivot it can take the node's place, even the root's: its clause is part of the node's, the graph stays linked and acyclic, the root stays empty, and only the other antecedent may be left without resolvents |
| Restructuring.FinishTraversal | src/opensmt/proof/PGTransformationAlgorithms.cc:564-704 | from anywhere in a traversal with stale clauses the queue visits every node after its antecedents, ends, and leaves an acyclic valid refutation whose leaves are unchanged leaves of the old proof; no node is new, no clause has grown, and what had been visited is as it was |
| Traversals.CutWalks | src/opensmt/proof/PGTransformationAlgorithms.cc:626-635 | after B1, B2, B2' or B3 at a node just visited, every unvisited node still has all that its antecedents pass on, and exactly that unless it derives from v's heir; so the traversal can go on with that one node marked |
| Traversals.RuledEffect | src/opensmt/proof/PGRules.cc:168-480 | what each of the rules, applied to the input or to the graph with a copy of w, makes of v, w, the added node and everyone's clauses, said about the input |
| Traversals.TransformAndRestructure | src/opensmt/proof/PGTransformationAlgorithms.cc:609-704 | any enabled rule is applied, to the input or to the graph in which v has its own copy of w, exactly when the rule needs one; after a swap v keeps its clause, resolves on w's old pivot, and has the antecedents the rule gives it; after a cut v's heir has a clause that is part of v's, after B3 v is gone, and no other clause has grown; then the rest of the traversal repairs the graph without growing a clause and without touching what was visited, and the result is a refutation of the same clauses, in which again only the root has no resolvents |
| Traversals.TransformAndRestructureOnce | src/opensmt/proof/PGTransformationAlgorithms.cc:562-704 | a whole traversal from the leaves, for every heuristic and all tie-breaks, up to its first rule and to the end: it reports a transformation exactly if the heuristic picks a rule at some node, then one that it picks has been applied with the effect above and the rest repaired; otherwise nothing has changed. What is left is a refutation of the same clauses |
| GraphWalks.TopolSortingTopDown | src/opensmt/proof/PGHelp.cc:94-131 | the stack walk lists every node the root uses, each once, after its antecedents, and no other |
| GraphWalks.CleanProofGraph | src/opensmt/proof/PGBuild.cc:411-426 | repeated sweeps leave exactly the nodes reachable from the root, and count those removed |
| Normalization.NormalizeAntecedentOrder | src/opensmt/proof/PGBuild.cc:381-409 | breadth first from the root, every node of the proof gets the antecedent with the positive pivot first; nothing else changes and the proof stays valid |
| Normalization.FlippedUnfolds | src/opensmt/proof/PGBuild.cc:381-409 | reordering antecedents leaves every node's derivation tree as it was, hence its interpolant |
| Unfolding.UnfoldValid | src/opensmt/proof/PGCheck.cc:100-175 | every node of a graph that passes the proof check unfolds to a valid resolution tree of its clause |
| Interpolation.PartialEverywhere | src/opensmt/proof/InterpolationContext.cc:433-483 | for every labelling, mask and valuation, each node's partial interpolant passes both run-time checks: A and the negated a-part of the clause imply it, B and the negated b-part contradict it |
| Interpolation.OnlySharedVariables | src/opensmt/proof/InterpolationContext.cc:722-769 | no partial interpolant mentions a variable that is local to one side |
| Interpolation.RootIsCraigInterpolant | src/opensmt/proof/InterpolationContext.cc:520-590 | at the empty clause: A implies the interpolant, B contradicts it, and it is over shared variables |
| InterpolationContexts.SingleInterpolationContext.GetPivotColor | src/opensmt/proof/InterpolationContext.cc:292-316 | joins the antecedents' colours, clears the pivot's if it is shared, and returns the colour those bits or the pivot's class give; the assumed colour exactly for assumed variables |
| InterpolationContexts.SingleInterpolationContext.ProduceSingleInterpolant | src/opensmt/proof/InterpolationContext.cc:520-590 | the walk over the graph on the heap returns the interpolant that the recursive definition gives for the derivation tree of the root |
| InterpolationContexts.InterpolationContext.GetSingleInterpolant | src/opensmt/proof/InterpolationContext.cc:854-879 | what it returns for a mask is a Craig interpolant for that mask |
| InterpolationContexts.InterpolationContext.GetPathInterpolants | src/opensmt/proof/InterpolationContext.cc:881-907 | one Craig interpolant for each of the nested masks, and each one together with the partitions that change sides implies the next |
| Strength.WeakensBelow | src/opensmt/proof/InterpolationContext.cc:58-65 | on one propositional proof, colours that move from b towards a weaken every node's partial interpolant wherever the gap between the two restricted clauses is false |
| Strength.LabelsOrderInterpolants | src/opensmt/proof/InterpolationContext.cc:58-65 | of two labellings ordered pointwise (b, ab, a), the first gives the stronger interpolant |
| Strength.StrengthOrder | src/opensmt/proof/InterpolationContext.cc:817-827 | McMillan's interpolant implies Pudlak's, which implies McMillan-prime's; every other labelling lies between the two extremes |
| Duality.ExchangeNegates | src/opensmt/proof/InterpolationContext.cc:817-827 | exchanging A and B negates Pudlak's interpolant, and turns McMillan's into the negation of McMillan-prime's and back |
| Strength.PathInterpolation | src/opensmt/proof/InterpolationContext.cc:881-907 | with McMillan's labelling and A1 within A2, interpolant 1 and the partitions moved from B to A imply interpolant 2 |
| Unfolding.A2Unfolds | src/opensmt/proof/PGRules.cc:281-314 | A2 turns the derivation of v around and leaves those of v1, v2 and v3 alone |
| SwapStrength.PivotsKeepColours | src/opensmt/proof/PGHeuristics.cc:838-856 | after an A2 swap both pivots have the colours they had, and v has the same coloured variables |
| SwapStrength.TableHolds | src/opensmt/proof/PGHeuristics.cc:838-856 | for each pair of pivot colours the new partial interpolant is implied by, implies or equals the old one as the table says |
| SwapStrength.RowsAreTight | src/opensmt/proof/PGHeuristics.cc:838-856 | no row of the table promises too little: for every pair of colours, where it does not promise a direction, a concrete swap and valuation in which that direction fails |
| SwapStrength.SharedPivotsUnrelated | src/opensmt/proof/PGHeuristics.cc:838-856 | for two shared pivots neither direction holds: the two concrete problems, worked out |
| SwapStrength.ClassesDecide | src/opensmt/proof/PGHeuristics.cc:544-570 | under the pairs of classes that the heuristic asks for, the swap moves v's interpolant the announced way whatever the labelling |
| SwapStrength.AllowedSwapMovesRoot | src/opensmt/proof/PGHeuristics.cc:544-570 | a swap the heuristic allows keeps the refutation and strengthens (weakens) the interpolant of the whole proof |
| SwapStrength.AllowedExactly | src/opensmt/proof/PGHeuristics.cc:544-570 | the heuristic allows a swap exactly if w has at most one resolvent, the rule is an A2, and the table announces the direction asked for |
| IteToSwitches.ConstructIteDag | src/opensmt/itehandler/IteToSwitch.cc:183-245 | the stack walk makes a node for exactly the if-then-elses and their branches, children before parents, and finds exactly the top-level ones |
| IteDags.Dag.AnnotateWithParentInfo | src/opensmt/itehandler/IteToSwitch.cc:31-68 | for every node under the root it records exactly the edges that lead to it, with their polarity, and exactly the leaves |
| IteDags.Dag.GetReachableSubGraph | src/opensmt/itehandler/IteToSwitch.cc:70-116 | a fresh graph of exactly the terms under one if-then-else |
| IteDags.OneLeaf | src/opensmt/itehandler/IteToSwitch.cc:24-29 | because children are allocated first, a model passes through exactly one leaf: the end of its path |
| PathConditions.GetCondValPairs | src/opensmt/itehandler/IteToSwitch.cc:118-181 | the upward walk never misses a parent's condition; every leaf is listed once, and in every model exactly one of the conditions holds, that of the leaf the model ends at |
| IteToSwitches.MakeSwitch | src/opensmt/itehandler/IteToSwitch.cc:256-265 | the switch holds in a model exactly if the root equals the value the model selects |
| IteHandlers.EliminationIsConservative | src/opensmt/itehandler/IteHandler.cc:11-15 | over an extension of a valuation of the original variables, the ite-free formula holds exactly if every auxiliary variable has its if-then-else's value and the original formula holds |
| IteHandlers.ExtensionExists | src/opensmt/itehandler/IteHandler.cc:42-97 | such an extension exists for every valuation, if the auxiliary names are fresh |
| IteHandlers.EliminationIsEquisatisfiable | src/opensmt/itehandler/IteHandler.cc:11-15 | satisfiable formulas stay satisfiable, unsatisfiable ones unsatisfiable |
| IteHandlers.ReplaceItes | src/opensmt/itehandler/IteHandler.cc:42-97 | the stack walk replaces every if-then-else by its variable, wherever it occurs |
| IteHandlers.Rewrite | src/opensmt/itehandler/IteHandler.cc:11-15 | the pass as a whole returns the eliminated formula for a full set of switches, without if-then-elses |
| IteHandlers.NamesDiffer | src/opensmt/itehandler/IteHandler.cc:17-23 | two if-then-elses never get the same auxiliary name |
| IteHandlers.AuxNamesAreFresh | src/opensmt/itehandler/IteHandler.cc:17-23 | names made from the terms' numbers are fresh for a formula without variables that have the prefix |
| IteHandlers.GetIteTermFor | src/opensmt/itehandler/IteHandler.cc:25-40 | the name of an auxiliary variable parses back to its if-then-else |
| TermMappers.LiteralRoundTrip | src/opensmt/cnfizers/TermMapper.cc:33-61 | a formula means what the term of its literal means, and two formulas share a literal only if they differ in pairs of negations |
| TermMappers.TermMapper.GetOrCreateLit | src/opensmt/cnfizers/TermMapper.cc:88-100 | keeps the two-way mapping, adds at most the core of the formula and changes no other literal |
| Tseitin.DefinitionDefines | src/opensmt/cnfizers/Tseitin.cc:50-159 | the clauses emitted for a connective hold exactly if its literal equals the connective applied to its arguments' literals |
| Caches.CachedMeans | src/opensmt/cnfizers/Cnfizer.cc:205-213 | a term the cache has for a frame: in every model of the clauses of the base frame and that frame, its literal has the term's value |
| Cnfizers.IsClause | src/opensmt/cnfizers/Cnfizer.cc:110-131 | the worklist answers yes exactly for literals and trees of disjunctions over them |
| Cnfizers.CheckDeMorgan | src/opensmt/cnfizers/Cnfizer.cc:133-139 | answers yes exactly for negated pure conjunctions of literals |
| Cnfizers.CheckPureConj | src/opensmt/cnfizers/Cnfizer.cc:141-161 | answers yes exactly for trees of conjunctions over literals |
| CnfizerRuns.Cnfizer.CnfizeTerm | src/opensmt/cnfizers/Tseitin.cc:13-48 | after the worklist the term is cached for the frame, and what was emitted are definitions: true wherever every variable has its formula's value |
| CnfizerRuns.Cnfizer.DeMorganize | src/opensmt/cnfizers/Cnfizer.cc:93-108 | the one clause enforces the negated conjunction in its frame and follows from it |
| CnfizerRuns.Cnfizer.Cnfize | src/opensmt/cnfizers/Cnfizer.cc:49-83 | whatever was cached before, the clauses of the base frame and this frame now enforce the formula, and the new ones follow from it and from definitions |
| SolverStates.ModelExtends | src/opensmt/api/MainSolver.cc:386-409 | a model of the live frames extends to one of all clauses ever emitted, with exactly the live frames switched on |
| SolverStates.ModelReads | src/opensmt/api/MainSolver.cc:386-409 | a model of all clauses under the frame assumptions is a model of every live frame |
| SolverStates.AssumptionsDecide | src/opensmt/api/MainSolver.cc:386-409 | the clauses under the frame assumptions are satisfiable exactly if the live frames are |
| MainSolvers.RefusalRefutes | src/opensmt/api/MainSolver.cc:366-409 | a refusal that involved the first j frames refutes the frames up to that position, so marking from there is right |
| MainSolverRuns.MainSolver.Push | src/opensmt/api/MainSolver.cc:75-82 | a new frame with a new id, unsatisfiable if the last one was known to be; keeps the invariant |
| MainSolverRuns.MainSolver.Pop | src/opensmt/api/MainSolver.cc:84-102 | takes the last frame off unless it is the only one, and keeps the invariant although the frame's clauses stay |
| MainSolverRuns.MainSolver.InsertFormula | src/opensmt/api/MainSolver.cc:109-130 | adds the formula to the last frame alone; keeps the invariant |
| MainSolverRuns.MainSolver.GiveToSolver | src/opensmt/api/MainSolver.cc:312-340 | a frame's simplified formula becomes clauses tagged with the frame's literal; a conflict marks the frames it refutes |
| MainSolverRuns.MainSolver.SimplifyFormulas | src/opensmt/api/MainSolver.cc:144-201 | every frame not yet handed over is, once, or the stack is known unsatisfiable |
| MainSolverRuns.MainSolver.Check | src/opensmt/api/MainSolver.cc:342-409 | in any state the operations can reach, the answer is "sat" exactly if the formulas of the live frames have a common model, and the formulas stay as they are |
| TarjanRuns.TarjanAlgorithm.GetLoops | src/opensmt/logics/SubstLoopBreaker.cc:105-138 | one call from a start node finds exactly the strongly connected components of more than one node that no call had completed, none twice |
| LoopBreakers.FindLoops | src/opensmt/logics/SubstLoopBreaker.cc:200-210 | over all start nodes: the loops are the components of more than one node, and every node on a cycle they reach is in exactly one |
| LoopBreakers.BreakLoops | src/opensmt/logics/SubstLoopBreaker.cc:258-270 | one node of every loop loses its children, all of them on cycles; everything stays reachable from the new start nodes, and fewer nodes have children |
| SubstLoopBreakers.GetVars | src/opensmt/logics/SubstLoopBreaker.cc:20-45 | exactly the variables of a term, none twice |
| SubstLoopBreakers.SubstLoopBreaker.ConstructSubstitutionGraph | src/opensmt/logics/SubstLoopBreaker.cc:140-198 | the graph has an edge exactly where a key's target mentions a variable, and the roots cover it |
| SubstLoopBreakers.SubstLoopBreaker.Run | src/opensmt/logics/SubstLoopBreaker.cc:232-256 | the loop ends; the result is part of the enabled substitutions, acyclic, and gives up only keys that were on a cycle of the original graph |
| SubstFacts.GetNewFacts | src/opensmt/logics/Logic.cc:974-1028 | collected is, with its sign, every top literal that is a Boolean variable, every asserted equality and predicate, for every asserted xor the equation with one side negated, or the xor where no equation arises, and nothing else; a conflict means two of them contradict each other |
| SubstFacts.FoundTopFacts | src/opensmt/logics/Logic.cc:974-1028 | the facts a search may find are exactly those of the top literals, said about the formula alone |
| SubstRetrieval.RetrieveSubstitutions | src/opensmt/logics/Logic.cc:886-944 | every substitution is implied by its fact, and they are ranked; every variable equated with a term it does not occur in, every compound term equated with a constant that is no part of it, and every Boolean variable among the facts is a key, unless it lies on a cycle; a conflict means no model satisfies the facts |
| SubstRetrieval.CandidateExactly | src/opensmt/logics/Logic.cc:886-944 | which key and target a fact suggests, exactly, in terms of equality, variables, constants and occurrence |
| SubstRetrieval.Contains | src/opensmt/logics/Logic.cc:1042-1066 | the walk finds a subterm exactly if it occurs |
| Rewriters.Rewrite | src/opensmt/rewriters/Rewriter.h:29-88 | the stack walk with its table returns what recursive rewriting returns, each shared subterm rewritten once |
| Rewriters.RwMeans | src/opensmt/rewriters/Rewriter.h:29-88 | rewriting keeps a term's value in every model of the substitutions it can reach |
| Rewriters.ChangedHasKey | src/opensmt/rewriters/Substitutor.h:14-25 | a term counts as changed exactly if a key occurs in it |
| SubstClosures.SubstitutionsTransitiveClosure | src/opensmt/logics/Logic.cc:946-967 | the rounds end, no key is left in any value, and the closed substitutions have the models of the first ones |
| SubstRuns.RedefinedRefutes | src/opensmt/api/MainSolver.cc:528-536 | a formula on which the pass meets a recorded key with another element has no model |
| SubstRuns.KeepsModelsExactly | src/opensmt/api/MainSolver.cc:502-546 | what the pass returns has the models of its input exactly if no recorded key is met again with another target, or what is returned has no model either |
| SubstRuns.ComputeSubstitutions | src/opensmt/api/MainSolver.cc:502-546 | the rounds end with the outcome of a run; its models are those of the input under the condition above, and always if the formula has at most one distinct constant |
| SubstRuns.OutcomeSolves | src/opensmt/api/MainSolver.cc:502-546 | whatever the rounds did: a top equation between a variable and a term without it, and every top Boolean variable, has been used or lies on a cycle of such equations, unless the formula has become false |
| SubstRuns.OutcomeIsDone | src/opensmt/api/MainSolver.cc:502-546 | the rounds do not end before the formula is false or nothing is left to solve for a variable, cycles apart |
| SubstRuns.SubstitutionPass | src/opensmt/api/MainSolver.cc:486-500 | the outcome of a run with the equations of its substitutions put back, one for each; no variable that was substituted is left in the rest, and nothing in it is left to solve for a variable, cycles apart; every model of the input is one of the output, and they are equivalent exactly under the condition above |
| SubstExamples.BuildSimplifies | src/opensmt/logics/Logic.cc:343-604 | constructors that simplify negations, conjunctions, disjunctions, equalities and if-then-elses (duplicates, opposite literals, units, single arguments, truth values, constants) keep value, sort and leaves, and no term grows |
| LostFacts.FactIsLost | src/opensmt/api/MainSolver.cc:528-536 | a formula with two constants, without if-then-elses, that has no model: every run of the pass turns it into true and substitutions that have a model |
| ArithLogics.MkPlus | src/opensmt/logics/ArithLogic.cc:574-648 | the sum of any nested sums: like terms collected, none zero, the same value at every point |
| ArithLogics.SumToNormalizedIntPair | src/opensmt/logics/ArithLogic.cc:1197-1266 | the factors come back divided by their greatest common divisor, sorted and coprime, and the constant, moved to the other side, over that divisor |
| ArithLogics.MkBinaryLeq | src/opensmt/logics/ArithLogic.cc:694-721 | the normal form of an inequality has exactly its integer solutions |
| ArithLogics.MkBinaryEq | src/opensmt/logics/ArithLogic.cc:767-794 | the normal form of an equality has exactly its integer solutions |
| ArithLogics.LeqIsCanonical | src/opensmt/logics/ArithLogic.cc:1304-1309 | inequalities with the same integer solutions, scaled ones among them, have the same normal form |
| ArithLogics.EqualIsCanonical | src/opensmt/logics/ArithLogic.cc:1311-1321 | equalities with the same integer solutions have the same normal form |
| ArithLogics.FalseMeansUnsolvable | src/opensmt/logics/ArithLogic.cc:1311-1321 | an equality becomes false exactly if it has no integer solution |
| DivMods.FoldConstants | src/opensmt/logics/ArithLogic.cc:796-837 | rounding the fraction down for positive and up for negative divisors gives the quotient and remainder of SMT-LIB's integers, the remainder never negative |
| DivMods.AuxIdsDiffer | src/opensmt/rewriters/DivModRewriter.h:89-96 | different dividends or divisors never get the same name |
| DivMods.GetDividendAndDivisor | src/opensmt/rewriters/DivModRewriter.h:98-115 | the numbers in an auxiliary name come back exactly; any name is read as the digits on both sides of its one underscore, and is an error exactly if there is no such underscore or a side has no digit |
| DivModRewriters.DefinitionFixes | src/opensmt/rewriters/DivModRewriter.h:38-49 | a definition holds exactly if its two variables are the dividend's quotient and remainder |
| DivModRewriters.RdMeans | src/opensmt/rewriters/DivModRewriter.h:24-54 | where the variables are right, the rewritten term has the original's value, for nested divisions as well |
| DivModRewriters.NoneLeft | src/opensmt/rewriters/DivModRewriter.h:24-54 | no division or modulo is left in the rewritten term, nor in the dividends of the definitions |
| DivModRewriters.EliminationIsConservative | src/opensmt/rewriters/DivModRewriter.h:122-131 | the result holds in a standard model exactly if every auxiliary variable, also of earlier formulas, is its quotient or remainder and the original formula holds |
| DivModRewriters.ExtensionExists | src/opensmt/rewriters/DivModRewriter.h:24-54 | every standard model extends to the auxiliary variables, because definitions mention only variables of earlier ones |
| DivModRewriters.ExtensionUnique | src/opensmt/rewriters/DivModRewriter.h:24-54 | two models that agree on the original variables and satisfy the definitions agree on the auxiliary ones |
| DivModRuns.DivModConfig.Rewrite | src/opensmt/rewriters/DivModRewriter.h:24-54 | a division or modulo becomes its variable; cache, definitions and their order stay consistent, one definition for each pair |
| DivModRuns.DivModRewriter.Rewrite | src/opensmt/rewriters/DivModRewriter.h:122-131 | the pass with its stack and table returns the rewritten formula and the definitions of exactly the pairs that occur in it or in earlier formulas, in an order in which they can be satisfied; nowhere in the result is there a division or modulo |
| StringConvs.FirstScan | src/opensmt/common/StringConv.h:113-160 | the state machine accepts exactly digits with at most one point, or digits, a slash and digits, and counts the numerator's digits |
| StringConvs.DenominatorLength | src/opensmt/common/StringConv.h:172-191 | the second scan finds how many digits after the point are followed by one that is not zero |
| StringConvs.Render | src/opensmt/common/StringConv.h:194-214 | the copy loops write numerator, slash, power of ten and end marker, and fill the allocated bytes exactly |
| StringConvs.NumeratorExact | src/opensmt/common/StringConv.h:110-216 | numerator over power of ten is exactly the value of the literal |
| StringConvs.StringToRational | src/opensmt/common/StringConv.h:110-216 | what is refused, what is handed on as it is, and for every decimal literal the numerator, the scale and the sign handed on; zero loses its sign |
| SplayTrees.SplayTree.Splay | src/opensmt/common/SplayTree.h:230-274 | the nodes keep their order and elements, and the root has the element or one next to it |
| SplayTrees.SplayTree.Insert | src/opensmt/common/SplayTree.h:127-178 | adds exactly the element, which ends up at the root of a search tree again; nothing changes in the order if it was there |
| SplayTrees.SplayTree.Remove | src/opensmt/common/SplayTree.h:184-207 | takes exactly the element out of a tree that is not empty |
| SplaySteps.FoundClosest | src/opensmt/common/SplayTree.h:230-274 | when the loop stops, no element lies between the one looked for and the root's |
| ValuationTrees.GrownWalk | src/opensmt/models/ModelBuilder.cc:59-89 | a new branch changes only the walk that ends with it |
| ValuationTrees.BodyMeans | src/opensmt/models/ModelBuilder.cc:92-133 | a body evaluates to what the walk along the arguments leads to, and to the default if it leads nowhere |
| ModelBuilders.ModelBuilder.AddToValuationTree | src/opensmt/models/ModelBuilder.cc:59-89 | walks of all other argument tuples stay as they are; the given tuple now leads to a leaf, with the new value unless there was one |
| ModelBuilders.ModelBuilder.AddToTheoryFunction | src/opensmt/models/ModelBuilder.cc:22-57 | after any sequence of entries every function's tree holds its table; wrong numbers of arguments are refused and change nothing |
| ModelBuilders.ModelBuilder.ValuationTreeToFunctionBody | src/opensmt/models/ModelBuilder.cc:92-133 | the stack walk builds the recursively defined body, the first child outermost |
| ModelBuilders.ModelBuilder.Build | src/opensmt/models/ModelBuilder.cc:10-20 | each function's body evaluates, at every tuple, to the first value recorded for it, and to the default elsewhere |

## Findings

Two promises of the code fail. The model keeps the code as it is.

1. **Rule B3 looks at a node it may have deleted.** `applyRuleB3` deletes w and, if v1 then serves nothing, v1 and
   everything that only served it (src/opensmt/proof/PGRules.cc:454-463). Then it reads v3's resolvents (line 465).
   `StrandedNodes.V3CanBeLost` gives a refutation in which B3 is enabled and that clean-up has deleted v3: all that
   derives from v3, apart from v, serves v1 alone. `Cuts.V3SurvivesExactly` gives the exact condition on the graph
   before the call, for all refutations; by `Cuts.UnusedSurvives` it holds wherever v1 is not derived from v3.
   `ProofGraph.RuleApply` asks for exactly this condition.
2. **The substitution pass can lose a fact.** `computeSubstitutions` drops a substitution whose key it has recorded
   in an earlier round (src/opensmt/api/MainSolver.cc:528-536) and yet rewrites the formula with it, so nothing of
   it is left. For a variable that cannot happen, since a recorded variable no longer occurs. A compound key such
   as `f(b)`, equated with a constant of an uninterpreted sort, can come up again when a later round turns another
   term into it. Two distinct constants of such a sort do not come from a parsed formula, where a name must exist
   already (src/opensmt/api/Interpret.cc:436): `Logic::mkConst` makes them for a sort's default value
   (src/opensmt/logics/Logic.cc:301), for the values of a model
   (src/opensmt/tsolvers/egraph/EgraphModelBuilder.cc:138) and for a caller of the library. `LostFacts.FactIsLost`
   gives an unsatisfiable formula with two of them, built by simplifying constructors and without the if-then-elses
   that `insertFormula` removes beforehand (src/opensmt/api/MainSolver.cc:114), of which every run returns one that
   has a model. The exact condition, for all formulas, is `SubstRuns.KeepsModelsExactly`: the models are kept if
   and only if no round meets a recorded key again with another target (the guard at line 531), or what is returned
   has no model either. The second case has to be there: a formula on which the guard fires has no model
   (`SubstRuns.RedefinedRefutes`), so the pass still does it justice if the rest is unsatisfiable for another
   reason, which no guard of the pass can tell. A condition that can be read off the formula, and is sufficient, is
   that it has at most one distinct constant; the failing formula has two, so that bound is the best of its kind.

## Left out

- ProofGraphs.ProofGraph.RuleApply: asks that v3 survives the clean-up in rule B3, exactly where the code works; see Findings. It also asks that v has a resolvent for B3 and that w serves v alone for A1, A2 and B2, as the code asserts; `Traversals.TransformAndRestructure` sees to both.
- ProofGraphs.ProofGraph.ApplyRuleB3: asks that v3 survives, for the same reason.
- Traversals.TransformAndRestructure: asks that v3 survives for B3, and that only the root has no resolvents, which the code asserts when it moves the root.
- Traversals.TransformAndRestructureOnce: asks the same; it applies at most one rule in a traversal, where the code may apply one at every node it visits. Limits on time and on the number of traversals are not part of it.
- Restructuring.FinishTraversal: treats a root whose antecedents have become one node like any other node, as a build without assertions does; the code asserts that the two differ (src/opensmt/proof/PGTransformationAlgorithms.cc:688), on which nothing here relies.
- SubstRuns.SubstitutionPass: is not an equivalence on all formulas, because the code is not; see Findings.
- SplayTrees.SplayTree.Remove: asks for a tree that is not empty; on an empty one the code deletes its sentinel. SplayTree::find is not modelled, since it hands back a node where an element is declared. Elements are integers, which stand for any total order.
- DivModRuns.DivModRewriter.Rewrite: asks that no variable of the formula has an auxiliary name; numbers of terms are unbounded. The exceptions for formulas that are not Boolean and for divisors that are zero or no constant are preconditions on the terms.
- DivMods.GetDividendAndDivisor: counts a name that is just the prefix as an error, where the code's iterator starts past the end; numbers too long for the code's integers are not part of this model.
- ModelBuilders.ModelBuilder.AddToTheoryFunction: asks for a function with arguments, as the code asserts; sorts are not checked. Bodies are built without the simplifications of mkIte.
- StringConvs.StringToRational: reducing the fraction, and texts too long for the counters, are not part of this model.
- ArithLogics.SumToNormalizedIntPair: does not scale by the least common multiple of denominators; coefficients are integers here, as those of terms of integer sort are. Non-linear terms are not there either.
- ArithLogics.MkBinaryEq: leaves out the fall-back for logics with uninterpreted functions or arrays.
- CnfizerRuns.Cnfizer.Cnfize: leaves out nested Boolean roots, theory terms inside CNF, resource limits and interrupts.
- MainSolverRuns.MainSolver.InsertFormula: leaves out the elimination of if-then-elses on insertion, which `IteHandlers.Rewrite` models by itself, and the assignment of partitions.
- MainSolverRuns.MainSolver.SimplifyFormulas: leaves out the partition-tracking mode; preprocessing is a parameter.
- MainSolverRuns.MainSolver.Check: takes preprocessing as given, under `MainSolvers.PreprocessingRight`. That is a statement about valuations of atoms; what the substitution pass keeps (`SubstRuns.KeepsModelsExactly`) is stated about models of the terms, and valuations that come from such models are not singled out here. Resource limits and interrupts are left out.
- InterpolationContexts.SingleInterpolationContext.ProduceSingleInterpolant: leaves out split clauses.
- Rewriters.Simplifies: the constructors' effect is a hypothesis, with the bound on size said above; sharing in the rewriter's memo is modelled by the table of one call.
- The reduction algorithms other than the traversal with rules (recycling pivots and units, structural hashing), the heuristics other than the swap for strength, fillProofGraph and topolSortingBotUp.
- Theory solvers and the interpolants of theory lemmas: the latter enter as an assumption that they satisfy the two conditions for their clause. Proof-sensitive labellings (PS, PSW, PSS) are covered as far as they are total.
- Sorting and sharing of arguments by the formula constructors; for interpolants and CNF the formulas are propositional, with the simplifications mkAnd, mkOr and mkNot make.
- SAT search and preprocessing: parameters with a contract.
- The frame-wise store of substitutions that Preprocessor keeps for models.
- The loop breaker's sorting of start nodes and of children: any order is allowed.
- Parsing, printing, options, bit-vectors, sorts and symbols, and the interface to R.
