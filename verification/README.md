# Verified model of the task transformation pipeline

The planner rewrites a planning task several times before it searches: it encodes grounded actions by
finite-domain variables, drops unreachable values and irrelevant variables, orders derived variables in
layers, and strengthens operators by mutexes found with the h^2 heuristic. Each step must leave the set of plans
alone. This project models these steps in Dafny and proves that they do, together with the algorithms they
rest on. All tasks share one small semantics (`Sas.dfy`): states, operators with prevail conditions and
conditional effects, runs, plans and their costs. `dafny verify dfyconfig.toml` checks everything.

| part | modules | main result |
|---|---|---|
| h^2 mutexes | `H2Theory`, `H2Progression`, `H2Instantiate`, `H2Tight`, `H2Knowledge`, `H2Survivors`, `H2Scan`, `H2Rounds`, `H2Elimination`, `H2`, `H2Plans`, `H2Fixpoint`, `H2Compute`, `H2Output` | whatever the alternating passes record about the shared matrix is true of every plan, each pass finds exactly what progression over pairs finds, and the written task has the same plans |
| grounded actions to operators | `Strips`, `Conditions`, `Translation`, `BuildOperator`, `TranslateAction`, `TranslateTask` | translation commutes with the encoding, plans correspond |
| derived variables | `AxiomRules`, `NecessaryLiterals`, `AxiomLayers`, `Axioms`, `AxiomEvaluation` | layers are valid and least or one per component, evaluation computes the layered least model, simplification and pruning keep it |
| components | `Graphs`, `Sccs` | the iterative algorithm of Tarjan orders the strongly connected components |
| unreachable values | `Dtg`, `Renaming`, `Simplify`, `SimplifyTask`, `Ambiguity` | the simplified task has the same plans |
| relevance and order | `Relevance`, `MaxDag` | each plan without the steps of pruned operators is one of the restricted task, and conversely; greedy order despite outdated queue entries |
| program evaluation | `Datalog`, `Unifier`, `Firing`, `RuleIndexes`, `BindingPicks`, `BuildRules`, `JoinExactness`, `BuildModel` | semi-naive evaluation computes the least model |
| kernels | `Constraints`, `FactGroups`, `SearchSpace` | solvability exactly decided; greedy disjoint cover; plans from parent pointers |

`Collections` and `Simulation` hold shared helpers: products of lists, and the replay of runs of one task in another.

Methods follow the loops and the updated fields of the source. Values that the source never changes, such as
operators of a finished task, are datatypes. Ghost parameters carry the facts a caller knows, such as the
knowledge recorded so far.

Some properties one might expect hold only under a condition, which is proved:

- A join of the rule evaluation compares only variables that occur in the effect. A shared variable that does not,
  as in `r() :- p(?x), q(?x)`, passes the validation at build_model.py:80-92 and makes the rule yield `r()` from
  `p(a)` and `q(b)` (`JoinExactness.ForgetfulJoinFails`). A validated join is evaluated correctly on all sets of
  atoms exactly if every shared variable is in the effect or both conditions are the same (`JoinExactness.JoinExactIff`).
- Negating rules (axiom_rules.py:277-301) negates the bodies without the head. It is exact everywhere exactly if the
  head is not needed, in particular if no body contains it, which the simplification before it ensures;
  `AxiomRules.HeadNeededOrNot` has an input of each kind. If the simplification leaves no rule, the assertion at
  line 278 fails: `AxiomRules.SimplifiedEmpty` and `AxiomRules.NegativeAxioms` say exactly when.
- The candidate list at operator.cc:201 is copied, so candidates eliminated in one round of disambiguation return in
  the next, and a value can be missed (`H2Elimination.EliminationForgotten`). Nothing is ever missed exactly if there
  are at most two variables or none has more than two values (`H2Elimination.FindsAllIff`); a call that adds no value
  misses nothing either (`H2Rounds.NothingAddedFoundAll`).
- A pass does not look at mutexes among the preconditions of an operator, so it can trigger one that no possible set of
  facts allows (`H2Progression.TriggersDespiteMutex`). Otherwise its result is exactly what progression over sets
  reaches, when a set counts as possible as soon as all its pairs are (`H2Progression.LeastIffProgress`).
- The e-deletes of an operator take recorded inconsistencies one at a time (`H2Tight.KeptThoughImpossible`); up to that
  they are exactly the facts no step of the operator ends with (`H2Tight.ForwardTight`). For the listed values of an open
  precondition h2_mutexes.cc:857-859 inserts the value itself instead of the others of its variable
  (`H2Tight.KeptIffNotOpen`).
- Negating the rules of a cycle one variable at a time derives too little (`AxiomRules.CycleNegatedOneByOne`); the empty
  bodies of axiom_rules.py:267-270 derive every negation that is true (`AxiomRules.FalseIsDerived`).
- Recorded costs of paths are exact as long as no node with children gets a new parent (`SearchSpace.ReparentExact`).
- Simplification commutes with a step if effects that fire together on one variable agree. Without this it can turn
  a task without plan into one with a plan (`Ambiguity.SimplificationNeedsClear`). `Ambiguity.Exclusive` is a check on
  operators that ensures it, and exact for one operator over all states. The assertion at simplify.py:450 is not
  reached if no effect condition mentions a variable twice, which the structural check of operators
  (sas_tasks.py:322-341) demands.
- Parent pointers stay free of cycles if a node is given a new parent only for a strictly smaller g;
  `SearchSpace.RootedIffNoCycle` gives the exact condition for any costs.

## Model

| member | source | states |
|---|---|---|
| `H2Compute.ComputeH2Mutexes` | src/preprocess_h2/h2_mutexes.cc:42-105 | Alternating passes and pruning rounds end. A negative answer means the task has no plan; otherwise everything recorded holds on every state of every plan (no impossible pair, no unreachable fact), no operator a plan changes the state with is marked spurious, and all augmented preconditions hold where their operators are applied. The groups hold on every plan; they are the given ones and, one by one, the pairs recorded as inconsistent since. Without a timeout nothing was recorded after the last pass in either direction, and the last turn of all found nothing |
| `H2Compute.Turn` | src/preprocess_h2/h2_mutexes.cc:66-101 | A flag is raised only if something was found, and a direction whose flag stays down has nothing left to find |
| `H2Compute.Iterate` | src/preprocess_h2/h2_mutexes.cc:66-100 | One turn of the loop keeps the knowledge sound, loses no mutex and revives no operator; if it reports news, then the pairs not known to be impossible, the live operators or the facts not known to be unreachable strictly decrease; without news nothing recorded has changed |
| `H2Compute.Compute` | src/preprocess_h2/h2_mutexes.cc:459-615 | One pass with its final scan: unsolvable only if there is no plan; a pair stays possible exactly if it is in the least closed set of the start, an operator becomes spurious exactly if some pair of its preconditions is neither a mutex nor in that set, and the groups, the inconsistent pairs and the unreachable facts are exactly the new ones; all are sound for all plans |
| `H2Compute.RunPass` | src/preprocess_h2/h2_mutexes.cc:466-538 | After a completed fixpoint every pair true in some plan state is reached, and every operator used by a plan step was triggered; reached are exactly the pairs of the least closed set, triggered exactly the operators with their preconditions in it; an early exit leaves the recorded knowledge sound |
| `H2Compute.RecordUnreached` | src/preprocess_h2/h2_mutexes.cc:563-614 | Turning exactly the unreached pairs into mutexes and the unreached facts into unreachable ones keeps all plans; exactly the pairs of facts that are still possible are reported and recorded as inconsistent, and it goes on only if no unreached fact is initial or a goal |
| `H2Compute.PruneUntriggered` | src/preprocess_h2/h2_mutexes.cc:553-560 | Exactly the operators never triggered in the pass become spurious |
| `H2Compute.Prune` | src/preprocess_h2/h2_mutexes.cc:91-98 | Detection of unreachable facts, then disambiguation: the knowledge stays sound for plans, mutexes and inconsistent facts stay, every operator kept is disambiguated, and pruning is reported exactly if a fact became unreachable or an operator redundant |
| `H2Compute.RemoveSpuriousOperators` | src/preprocess_h2/h2_mutexes.cc:190-204 | All live operators are disambiguated without losing a plan step; a report means exactly that there are fewer live operators |
| `H2Compute.DisambiguateOne` | src/preprocess_h2/operator.cc:128-273 | What one call concludes about an operator (spurious, augmented values, candidates for open preconditions) is true of every plan step by it; an operator that is kept is disambiguated |
| `H2Compute.InitOperators` | src/preprocess_h2/h2_mutexes.cc:444-457 | The operators of the pass are the instances of the task operators for the chosen direction, in order, with the recorded preconditions and candidates |
| `H2Compute.InitPass` | src/preprocess_h2/h2_mutexes.cc:466-471 | Fails exactly if two facts of the initial state (of the goal) are mutex, and then there is no plan; otherwise the matrix marks the initial state (the goal) as reached and keeps every mutex |
| `H2Compute.StartFaithful` | src/preprocess_h2/h2_mutexes.cc:42-64 | Before the first pass correct input groups make the initial knowledge true of all plans |
| `H2Plans.PassCoversPlans` | src/preprocess_h2/h2_mutexes.cc:478-538 | In a closed pass all pairs of facts true together in a state of a plan are reached, by induction along the plan from its start (forward) or its end (backward) |
| `H2Plans.StepIsExplained` | src/preprocess_h2/h2_mutexes.cc:660-878 | Each plan step is a transition of its instantiated operator in the direction of the pass, or leaves the state unchanged if the operator counts as redundant |
| `H2Plans.UntriggeredIsSpurious` | src/preprocess_h2/h2_mutexes.cc:553-560 | An operator whose preconditions were not all reached pairwise is used by no step of a plan |
| `H2Plans.PassConcludes` | src/preprocess_h2/h2_mutexes.cc:466-560 | A settled pass covers the states of all plans and triggers all their operators |
| `H2Plans.StartRefuted` | src/preprocess_h2/h2_mutexes.cc:346-380 | A mutex inside the initial state or inside the goal rules out every plan |
| `H2Plans.DisambiguationKeepsPlans` | src/preprocess_h2/operator.cc:128-273 | If disambiguation keeps the steps the recorded knowledge allows, it keeps all plan steps |
| `H2Plans.SizeShrinks` | src/preprocess_h2/h2_mutexes.cc:65-101 | Progress of a turn makes the measure of possible pairs, live operators and reachable facts smaller, so the outer loop ends |
| `H2Fixpoint.AlternationNext` | src/preprocess_h2/h2_mutexes.cc:66-101 | With the flags as the loop sets them, each direction that is not due has ended with what is recorded now; if none is due, the last turn found nothing |
| `H2Fixpoint.ReportedNext` | src/preprocess_h2/h2_mutexes.cc:584-596 | The groups reported over all passes, with the given ones, are exactly the pairs recorded as inconsistent |
| `H2.H2Mutexes.constructor` | src/preprocess_h2/h2_mutexes.cc:207-306 | The matrix is symmetric; impossible are exactly the pairs of different values of one variable and the pairs inside an input group; the lists of inconsistent facts say the same |
| `H2.H2Mutexes.Saturate` | src/preprocess_h2/h2_mutexes.cc:478-538 | The sweeps end, and without an early exit the reached pairs are exactly the least symmetric set that contains the starting pairs and is closed under adding pairs and persisting facts, whatever the order of operators |
| `H2.H2Mutexes.ApplyOperator` | src/preprocess_h2/h2_mutexes.cc:483-537 | One operator only reaches pairs of the least set, reports a change exactly if there is one, and without a change the matrix is closed under the operator |
| `H2.H2Mutexes.AddAdd` | src/preprocess_h2/h2_mutexes.cc:497-505 | Reaches only pairs of two added facts that are not impossible; silent only if none is left |
| `H2.H2Mutexes.AddPersist` | src/preprocess_h2/h2_mutexes.cc:508-535 | Reaches an added fact with a fact that is not deleted and reached with all preconditions; silent only if none is left |
| `H2.H2Mutexes.EvalPropositions` | src/preprocess_h2/h2_mutexes.cc:617-625 | True exactly if no pair of the propositions is unreached |
| `H2.H2Mutexes.InitProgression` | src/preprocess_h2/h2_mutexes.cc:309-343 | Fails exactly if two facts of the initial state are mutex; otherwise reached are exactly the possible pairs of initial facts, and mutexes stay |
| `H2.H2Mutexes.InitRegression` | src/preprocess_h2/h2_mutexes.cc:383-426 | Fails exactly if two goal facts are mutex; otherwise unreached are exactly the possible pairs with a fact that conflicts with the goal |
| `H2Survivors.AgainstGoalIff` | src/preprocess_h2/h2_mutexes.cc:394-409 | A fact conflicts with the goal exactly if no goal state has it or it is recorded as inconsistent with a goal fact |
| `H2.H2Mutexes.SetPropositionNotReached` | src/preprocess_h2/h2_mutexes.cc:428-442 | Exactly the reached cells of the row and column become unreached |
| `H2.H2Mutexes.SetUnreachable` | src/preprocess_h2/h2_mutexes.cc:165-187 | Refused exactly for initial and goal facts; otherwise the fact is recorded and exactly its reached cells are reset |
| `H2.H2Mutexes.MarkUnreached` | src/preprocess_h2/h2_mutexes.cc:563-598 | The final scan turns unreached pairs that cover no plan state into mutexes, facts and groups that hold on all plans; if reached pairs have reached facts it changes exactly the unreached cells; it reports the unreached pairs of reached facts, in order of the rows, and counts nothing only if it records nothing; it stops only if there is no plan, and goes on only if no unreached fact is initial or a goal |
| `H2.H2Mutexes.MarkCell` | src/preprocess_h2/h2_mutexes.cc:567-597 | Scanning one cell keeps the mutexes and unreachable facts found so far sound while the matrix changes under the scan, and reports and records the pair exactly if the pass reached both facts and not the pair |
| `H2Scan.ScanReports` | src/preprocess_h2/h2_mutexes.cc:563-598 | So the groups reported and the pairs recorded as inconsistent are exactly those that became a mutex while both facts stay possible |
| `H2Scan.NewGroupsSound` | src/preprocess_h2/h2_mutexes.cc:586-591 | The groups reported hold in all states the pass covers |
| `H2.H2Mutexes.DetectUnreachable` | src/preprocess_h2/h2_mutexes.cc:108-161 | Facts inconsistent with the only reachable value of a variable become unreachable; the rounds end with every such value processed, no plan lost and no mutex changed |
| `H2.H2Mutexes.RemoveInconsistent` | src/preprocess_h2/h2_mutexes.cc:130-140 | All facts inconsistent with a static fact become unreachable; stops only if one is in the initial state or the goal, and then there is no plan |
| `H2.H2Mutexes.AreMutex` | src/preprocess_h2/h2_mutexes.h:80-89 | Two facts count as mutex exactly if they are different values of one variable, or their pair is recorded as impossible |
| `H2.Operator.RemoveAmbiguity` | src/preprocess_h2/operator.cc:128-273 | Every pair of states allowed by the recorded knowledge with a step of the operator between them is kept: spurious only if there is none, all augmented values hold in each, and for each effect without precondition the value is among the candidates; redundant operators are left alone |
| `H2.Disambiguate` | src/preprocess_h2/operator.cc:139-272 | For a kept operator: its conditions are compatible, a variable left undetermined has two values that conflict with no original condition and no effect, and the candidates are exactly the values compatible with all conditions |
| `H2.DisambiguateRounds` | src/preprocess_h2/operator.cc:196-239 | The rounds end because each fixes a variable, and find exactly what the rounds as a function of the recorded knowledge find; fixed values are those of every step, and a variable without value has two candidates against the first known facts |
| `H2.Round` | src/preprocess_h2/operator.cc:197-238 | One round fixes exactly the variables with a single value left and stops exactly if a variable has none; none left means no step, and a single value is the value in every step |
| `H2Elimination.FindsAllIff` | src/preprocess_h2/operator.cc:181-239 | For given numbers of values per variable: whatever is recorded, the rounds leave every operator only variables that keep two values compatible with everything found, exactly if there are at most two variables or none has more than two values |
| `H2Elimination.EliminationForgotten` | src/preprocess_h2/operator.cc:196-239 | For three variables, one of them with three values or more, among any others: an operator and mutexes where the rounds leave a variable without value although only one of its values is compatible with what they found, because each round starts from all values again |
| `H2Rounds.TwoValuedFoundAll` | src/preprocess_h2/operator.cc:196-239 | This cannot happen to a variable with at most two values: left without value, both are compatible with everything found |
| `H2Rounds.NothingAddedFoundAll` | src/preprocess_h2/operator.cc:196-245 | If a call adds no value, every variable without value has two candidates against all conditions, so repeated calls find everything |
| `H2Elimination.SkewedExists` | src/preprocess_h2/operator.cc:196-239 | Knowledge as in the example exists for any numbers of values of the variables |
| `H2.PotentialPreconditions` | src/preprocess_h2/operator.cc:247-272 | The candidates are exactly the values of effect variables without precondition that conflict with no known value |
| `H2Theory.FixpointIsLeast` | src/preprocess_h2/h2_mutexes.cc:478-538 | A matrix within the least set and closed under the triggered operators is the least set |
| `H2Theory.SettledIsLeast` | src/preprocess_h2/h2_mutexes.cc:478-538 | When no operator changes anything, the reached pairs are the least closed set |
| `H2Progression.LeastIffProgress` | src/preprocess_h2/h2_mutexes.cc:477-538 | The least closed set is what progression reaches when every set of facts counts as possible as soon as all its pairs are: exactly so if no operator in use has a mutex among its preconditions, and never less |
| `H2Progression.TriggersDespiteMutex` | src/preprocess_h2/h2_mutexes.cc:617-625 | An operator whose two preconditions exclude each other is triggered all the same, although progression never applies it |
| `H2Theory.StepKeepsCover` | src/preprocess_h2/h2_mutexes.cc:483-537 | If all pairs of a state are reached and the matrix is closed under an operator, all pairs of the successor are reached unless known to be impossible |
| `H2Theory.GrowthShrinksUnreached` | src/preprocess_h2/h2_mutexes.cc:478-538 | Every changing sweep leaves strictly fewer unreached pairs |
| `H2Theory.ScanComplete` | src/preprocess_h2/h2_mutexes.cc:563-598 | After the final scan the matrix is symmetric again |
| `H2Theory.PassKeepsDiagonal` | src/preprocess_h2/h2_mutexes.cc:478-538 | After a finished pass no reached pair has an unreached fact, if that held at its start |
| `H2Theory.ScanExact` | src/preprocess_h2/h2_mutexes.cc:563-598 | So resetting a fact found unreachable during the scan undoes nothing: exactly the unreached pairs have become mutexes |
| `H2Instantiate.ForwardExplainsStep` | src/preprocess_h2/h2_mutexes.cc:660-748 | In a step of the operator the forward instance has true preconditions, adds every newly true fact and deletes nothing that stays true, including facts inconsistent with what the operator guarantees |
| `H2Instantiate.BackwardExplainsStep` | src/preprocess_h2/h2_mutexes.cc:750-878 | The same from the successor to the predecessor for the backward instance with its candidate preconditions |
| `H2Instantiate.InstantiateForward` | src/preprocess_h2/h2_mutexes.cc:660-748 | The lists are the preconditions with the augmented values, the effects, and the facts excluded by what the operator leaves true, without those added; what this comes to is said by H2Tight.ForwardTight |
| `H2Instantiate.InstantiateBackward` | src/preprocess_h2/h2_mutexes.cc:750-878 | Likewise backward, with the candidates of open preconditions; a fact is e-deleted for an open precondition only if all its candidates exclude it |
| `H2Tight.ForwardTight` | src/preprocess_h2/h2_mutexes.cc:660-748 | A fact is a precondition exactly if it holds before every step of the operator with the augmented values, added exactly if a step makes it true, and deleted exactly if it is not added and no such step ends with it next to values of the touched variables that are not recorded as inconsistent with it |
| `H2Tight.KeptThoughImpossible` | src/preprocess_h2/h2_mutexes.cc:697-727 | Only single inconsistencies count: a fact inconsistent with both values of an untouched variable is true in no state that respects what is recorded, and is kept |
| `H2Tight.BackwardTight` | src/preprocess_h2/h2_mutexes.cc:750-878 | The same for the backward instance: the conditions are what holds after every step, added is what an affected variable can start with, and deleted is what no step starts with or what all values a touched variable can start with exclude |
| `H2Tight.KeptIffNotOpen` | src/preprocess_h2/h2_mutexes.cc:855-864 | For an open precondition the insertion at lines 857-859 names the listed value and not the others of the variable, so these are kept; elsewhere a fact that is neither added nor deleted starts some step |
| `H2Instantiate.BuildIndex` | src/preprocess_h2/h2_mutexes.cc:217-226 | Propositions number all facts in order of variable and value, one-to-one |
| `H2Knowledge.SurvivorsDecide` | src/preprocess_h2/operator.cc:204-235 | The value in each allowed step is among the candidates that survive, so none means no step |
| `H2Survivors.SurvivesIff` | src/preprocess_h2/operator.cc:204-235 | A value of a variable without condition survives exactly if some step starts with it, it is reachable, and it is recorded as a mutex with no condition before the step and, where the operator leaves it, with no effect after the step |
| `H2Knowledge.ConflictMeansNoStep` | src/preprocess_h2/operator.cc:165-179 | Two mutex conditions mean that no step is possible |
| `H2Survivors.ConflictIff` | src/preprocess_h2/operator.cc:165-179 | Conditions conflict exactly if in no step of the operator they are reachable and no two of them are recorded as a mutex |
| `H2Knowledge.PotentialsCoverSteps` | src/preprocess_h2/operator.cc:247-272 | In each allowed step the value of an effect variable without precondition is a candidate |
| `H2Survivors.PotentialIff` | src/preprocess_h2/operator.cc:247-272 | A value is a candidate exactly if the variable has an effect without precondition and some step starts with it, next to conditions it is not recorded as a mutex with |
| `H2Knowledge.TwoSurviveFewer` | src/preprocess_h2/operator.cc:196-239 | Two values that survive more known facts survive fewer, which relates the last round to the original conditions |
| `H2Knowledge.InitialKnowledgeSound` | src/preprocess_h2/h2_mutexes.cc:207-306 | Pairs from the variables and from correct groups exclude no plan state |
| `H2Knowledge.MarkingDone` | src/preprocess_h2/h2_mutexes.cc:563-598 | When all cells are scanned the recorded knowledge is sound for the plan states |
| `H2Output.IncludeAugmented` | src/preprocess_h2/operator.cc:306-341 | The rewritten operator is applicable exactly where the old one is and all augmented values hold, with the same successor there |
| `H2Output.IncludeValue` | src/preprocess_h2/operator.cc:313-338 | One value: a missing precondition is set, an effect that changes nothing is dropped, otherwise it becomes a prevail condition, with the same meaning each time |
| `H2Output.WriteOperators` | src/preprocess_h2/operator.cc:83-97 | The operators kept are the live ones, strengthened by their augmented preconditions |
| `H2Output.WrittenPlansAreReal` | src/preprocess_h2/operator.cc:306-341 | Each plan of the written task is a plan of the task of the same cost |
| `H2Output.PlansSurvive` | src/preprocess_h2/operator.cc:87-97 | Each plan of the task, with exactly the steps of redundant operators deleted, is a plan of the written task through the states in which the other steps are taken, each by the operator written for it; the deleted steps change nothing, and the cost does not grow |
| `H2Output.SameSolvability` | src/preprocess_h2/h2_mutexes.cc:42-105 | The task and the written task are both solvable or both not |
| `Sccs.StronglyConnectedComponents.GetResult` | src/translate/sccs.py:73-85 | The blocks partition the nodes; two nodes share a block exactly if they reach each other, and edges between blocks lead to later blocks; the machine ends |
| `Sccs.StronglyConnectedComponents.Step` | src/translate/sccs.py:87-123 | Each entry popped from the explicit stack keeps the invariant of the suspended calls and makes the remaining work smaller |
| `Sccs.BeginKeeps` | src/translate/sccs.py:92-99 | Numbering and pushing a node keeps: segments of the stack are strongly connected to their heads, low-links are reached indices, finished blocks are closed |
| `Sccs.AdvanceKeeps` | src/translate/sccs.py:115-120 | Looking at an edge to a visited node keeps it |
| `Sccs.MergeKeeps` | src/translate/sccs.py:121-123 | Taking over the low-link of a finished child merges its segment into the parent |
| `Sccs.PopKeeps` | src/translate/sccs.py:102-109 | A node whose low-link is its index closes a maximal component: its segment becomes a block |
| `Sccs.RootStep` | src/translate/sccs.py:102-109 | Popping a component lets the machine go on with the calls below |
| `Sccs.ReturnStep` | src/translate/sccs.py:121-123 | A return entry resumes the parent after its child |
| `Sccs.FinishedIsOrder` | src/translate/sccs.py:73-85 | Finished blocks in reverse are a topologically ordered partition |
| `Conditions.Demand` | src/translate/translate.py:67-88 | The choice of values allows exactly the states that also have all demanded facts; failure means none does |
| `Conditions.Forbid` | src/translate/translate.py:94-138 | The choice excludes a false atom from all its places, on all states where the places agree; failure means the atom cannot be false |
| `Conditions.MultiplyOut` | src/translate/translate.py:140-157 | Exactly one of the resulting conditions holds in an allowed state, and none elsewhere; there is a single condition exactly if each variable has a single value |
| `Conditions.TranslateAux` | src/translate/translate.py:66-157 | The conditions exclude each other, and one holds in an encoded state exactly if the conjunction holds; none at all exactly if the conjunction contradicts the groups: it negates an atom it demands, or demands two atoms of a group; with at most one place per negated atom there is one condition exactly if no variable that only negated literals mention keeps two values |
| `Conditions.ContradictsIff` | src/translate/translate.py:66-138 | The conjunction contradicts the groups exactly if no choice of one value per variable meets all its literals |
| `Translation.TranslateConditions` | src/translate/translate.py:160-170 | The same after the check against the mutex groups: refused exactly if the conjunction contradicts the groups or the mutex groups in this sense |
| `Translation.OnlyMutexRefutes` | src/translate/translate.py:160-170 | With groups [[p], [q]] and the mutex group [p, q] the conjunction of p and q is refused, although the groups alone allow it |
| `Translation.NegateAndTranslate` | src/translate/translate.py:189-204 | Some condition holds exactly where all given conjunctions are false; none at all only if that is nowhere |
| `Translation.ProductRefutes` | src/translate/translate.py:196-204 | A disjunction of conjunctions is false exactly if one literal of each can be chosen that is false |
| `Translation.CollectEffects` | src/translate/translate.py:210-233 | The table says that a variable gets a value exactly if an effect on the fact of that place fires |
| `Translation.Guarded` | src/translate/translate.py:245-271 | A guarded delete happens exactly if its condition holds, the variable has the deleted value and nothing is added |
| `Translation.DeleteOn` | src/translate/translate.py:237-271 | On one variable the deletes add "none of those" entries exactly for deleted current values without an add, and change nothing else |
| `Translation.AddDeletes` | src/translate/translate.py:235-271 | The same for all variables |
| `BuildOperator.Prune` | src/translate/translate.py:334-368 | For a two-valued variable exactly the conditions on the other value are dropped, unless an effect sets that value too or the effect is unconditional; this only makes effects fire where the variable has the value already; other tables are left alone |
| `BuildOperator.Build` | src/translate/translate.py:277-331 | The operator is applicable exactly under its condition, and its successor is the state the table prescribes; its effects have no condition that the operator condition implies; no operator at all only if the table changes nothing there |
| `BuildOperator.CoveredUpdates` | src/translate/translate.py:285-327 | Effects that cover the table update every variable as the table says, whatever their order |
| `BuildOperator.Filter` | src/translate/translate.py:307-322 | Exactly the entries that the operator condition implies are dropped, without changing the meaning; contradicted ones mean the effect cannot fire |
| `TranslateAction.TableMeans` | src/translate/translate.py:210-271 | The table gives a variable the value of an added atom, or "none of those" if the current atom is deleted and nothing is added |
| `TranslateAction.TableUpdates` | src/translate/translate.py:207-274 | Applying the table to an encoded state gives the encoding of the successor, deletes before adds |
| `TranslateAction.TranslateForCondition` | src/translate/translate.py:207-274 | The operator for one condition commutes with the encoding |
| `TranslateAction.TranslateOperator` | src/translate/translate.py:173-186 | An action is applicable in a state exactly if one of its operators is applicable in the encoded state, or was dropped because it changes nothing; firing gives the encoding of the successor; a precondition that is refused gives no operator |
| `TranslateTask.BuildDictionary` | src/translate/translate.py:55-63 | The dictionary lists exactly the places of every atom |
| `TranslateTask.InitialValues` | src/translate/translate.py:447-456 | The values are the encoding of the initial atoms, with "none of those" elsewhere |
| `TranslateTask.TranslateOperators` | src/translate/translate.py:387-395 | Each action contributes operators that commute with the encoding, in order; of those of one action at most one is applicable in a state |
| `TranslateTask.Translate` | src/translate/translate.py:434-491 | The goal violates a mutex exactly if it is refused by the groups or the mutex groups, and then there is no plan; it is empty exactly if it demands nothing, and then the initial state is a plan; it is not one condition only if it negates an encoded atom and, with at most one place per negated atom, exactly if a variable that only negated literals mention keeps two values; otherwise initial state, goal and operators represent the grounded task |
| `TranslateTask.GroundPlanSurvives` | src/translate/translate.py:434-491 | Each plan of the grounded task, with exactly the steps deleted that have no applicable operator, is a plan of the translated task through the encoded states, each step by an operator made from its action; the deleted steps change no encoded value, and the cost does not grow |
| `TranslateTask.TranslatedPlanIsReal` | src/translate/translate.py:434-491 | Each plan of the translated task runs in the grounded task through exactly the encoded states, at the same cost |
| `AxiomEvaluation.AxiomEvaluator.Evaluate` | src/search/axioms.cc:88-160 | The state becomes the layered least model of its base values, whatever the order of the queue; base variables stay, and the queue is empty afterwards |
| `AxiomEvaluation.AxiomEvaluator.constructor` | src/search/axioms.cc:14-85 | Each literal refers to the rules that read it, once per occurrence, and each layer lists its default literals |
| `AxiomEvaluation.LayerDone` | src/search/axioms.cc:127-143 | When the queue is empty the layer has exactly the values of the model |
| `AxiomEvaluation.AxiomEvaluator.ApplyNegation` | src/search/axioms.cc:149-158 | Default literals that stayed true may enter the queue: the counters and values remain right for the next layer |
| `AxiomEvaluation.SetKeeps` | src/search/axioms.cc:134-141 | A head whose body holds gets its non-default value, and nothing else changes |
| `Axioms.RuleHolds` | src/search/axioms.cc:88-160 | In the model every rule whose body holds has its head |
| `Axioms.LeastInLayer` | src/search/axioms.cc:88-160 | In each layer the model is the least set closed under the rules, given the layers below |
| `Axioms.Supported` | src/search/axioms.cc:88-160 | Each derived fact has a rule whose body holds in the model |
| `Axioms.SameBase` | src/search/axioms.cc:88-160 | The model depends on the base values only |
| `Axioms.ModelIdempotent` | src/search/axioms.cc:88-160 | Evaluating again changes nothing |
| `AxiomLayers.ComputeLayers` | src/translate/axiom_rules.py:166-247 | None only if no layering is valid; otherwise bodies are not above heads and negated body atoms strictly below; for "min" no valid layering is smaller anywhere, for "max" two variables share a layer exactly if each depends on the other, and no layer number is left out |
| `AxiomLayers.NotStratifiable` | src/translate/axiom_rules.py:207-214 | A negative dependency inside a component excludes every layering |
| `AxiomLayers.ClusterLayers` | src/translate/axiom_rules.py:220-242 | In reverse topological order all constraints of the children are met, for "min" tightly; for "max" the layer is the position in that order |
| `AxiomLayers.LinkClusters` | src/translate/axiom_rules.py:199-214 | Children are exactly the other components the rules of a component read; failure means a negative dependency inside one |
| `AxiomLayers.LayeringStratifies` | src/translate/axiom_rules.py:233-247 | A valid layering is what the evaluator demands of its layers |
| `NecessaryLiterals.ComputeNecessary` | src/translate/axiom_rules.py:74-107 | The least set of literals with those read by goals and operators that is closed under the dependencies of the rules, with signs |
| `NecessaryLiterals.NecessaryIffChain` | src/translate/axiom_rules.py:74-107 | A literal is in that set exactly if its variable is read, over a chain of rules, from one that a goal or an operator reads, with the sign changed by an odd number of negations on the way |
| `NecessaryLiterals.PruningKeepsBodies` | src/translate/axiom_rules.py:33-38 | A kept variable depends on kept variables only, so pruning leaves no dangling dependency |
| `NecessaryLiterals.PruningKeepsNeeded` | src/translate/axiom_rules.py:33-38 | Dropping the rules of other variables changes the value of no kept variable in any state |
| `NecessaryLiterals.SeedsEvaluateAsBefore` | src/translate/axiom_rules.py:74-89 | What goals and operators read has the same value with and without the dropped rules |
| `AxiomRules.ComputeSimplified` | src/translate/axiom_rules.py:131-163 | The result consists of given axioms without duplicate literals, none self-recursive, none with a body that contains another; every other axiom that is not self-recursive contains a body of the result |
| `AxiomRules.SimplifiedSameModels` | src/translate/axiom_rules.py:131-163 | A valuation satisfies the given axioms exactly if it satisfies the simplified ones; a derivation is lost only for a head that is true anyway |
| `AxiomRules.SimplifiedEmpty` | src/translate/axiom_rules.py:143-150 | Nothing remains exactly if all axioms are self-recursive, the case in which negating the result fails |
| `AxiomRules.Negate` | src/translate/axiom_rules.py:277-301 | A result body holds exactly where no given body holds when the head does not count in it. So the negation is sound, exact wherever the head is true, and exact everywhere exactly if, with the head false, a body that holds up to the head always comes with a body that holds; no result body contains another |
| `AxiomRules.ExactIffHeadNotNeeded` | src/translate/axiom_rules.py:277-301 | A list of that kind is the exact negation exactly if the head is not needed in this sense |
| `AxiomRules.HeadNeededOrNot` | src/translate/axiom_rules.py:277-301 | For h :- h exactness is lost; for h :- h, q with h :- q it holds although a body contains the head |
| `AxiomRules.NoHeadNotNeeded` | src/translate/axiom_rules.py:277-301 | If no body contains the head it is not needed |
| `AxiomRules.SimplifiedClean` | src/translate/axiom_rules.py:131-163 | Simplifying keeps exactly the disjunction of the bodies that do not contain their own head |
| `AxiomRules.MultipliedClean` | src/translate/axiom_rules.py:291-299 | Multiplying out and keeping the bodies without the negated head adds exactly the negation of one more body without its head |
| `AxiomRules.NegativeAxioms` | src/translate/axiom_rules.py:250-274 | Fails exactly if a variable has no rule left; for a single variable the negated rules are exact exactly if the head is not needed, for a cycle some rule has an empty body; given the values of all other atoms, every variable of the cluster that is false in the least model has its negation derived |
| `AxiomRules.FalseIsDerived` | src/translate/axiom_rules.py:250-274 | Added rules of that kind derive the negation of every variable that is false in the least model, for single variables without recursion and for cycles |
| `AxiomRules.CycleNegatedOneByOne` | src/translate/axiom_rules.py:254-270 | For 0 :- 1 and 1 :- 0 the rules not 0 :- not 1 and not 1 :- not 0 derive neither negation, although both variables are false: a cycle cannot be negated variable by variable |
| `Dtg.DomainTransitionGraph.Reachable` | src/translate/simplify.py:68-78 | Exactly the values reachable from the initial one |
| `Dtg.BuildDtgs` | src/translate/simplify.py:90-153 | The arcs of each graph are exactly those of effects whose condition on the variable can be met |
| `Dtg.ApplicabilityHolds` | src/translate/simplify.py:143-148 | An operator is applicable exactly if its gathered conditions hold |
| `Dtg.ScanMeets` | src/translate/simplify.py:118-141 | In a state where the effect fires the effective precondition computed for it is met |
| `Dtg.ScanAdmits` | src/translate/simplify.py:118-141 | A value the effective precondition admits contradicts none of the conditions it was computed from |
| `Renaming.VarValueRenaming.RegisterVariable` | src/translate/simplify.py:199-224 | Kept values are renumbered in order, dropped ones are always false, constant variables disappear; earlier entries stay |
| `Renaming.RenameInjective` | src/translate/simplify.py:168-224 | States with reachable values only are not identified |
| `Renaming.RenamedValid` | src/translate/simplify.py:168-224 | A renamed state is a valid state of the new variables |
| `Renaming.FactRenamed` | src/translate/simplify.py:461-465 | A fact is always false, always true or has the same truth under its new name, in all states with reachable values |
| `Simplify.RunStays` | src/translate/simplify.py:68-153 | Along each run all values are reachable in their graphs |
| `Simplify.ConvertPairs` | src/translate/simplify.py:467-477 | The converted facts hold in the renamed state exactly if the given ones hold; failure means they hold in no state with reachable values |
| `Simplify.PostKept` | src/translate/simplify.py:443-453 | If an operator and an effect condition survive, the new value is reachable: this assertion never fails |
| `Simplify.TranslatePrePost` | src/translate/simplify.py:395-459 | The effect has the same meaning on renamed states; it is dropped exactly if its variable has one value left, it repeats its precondition, or it fires in no state with reachable values in which the operator applies |
| `Simplify.VanishesIff` | src/translate/simplify.py:403-418 | A dropped effect never changes a state with reachable values, and every other one does in some such state unless its own condition demands the value it sets |
| `Simplify.EffectsCommute` | src/translate/simplify.py:328-381 | Applying the translated effects to the renamed state gives the renamed successor |
| `Simplify.TranslateOperator` | src/translate/simplify.py:328-381 | The translated operator has the same applicability and commutes with renaming; its effects are exactly those not dropped; it is dropped exactly if it applies in no state with reachable values or no effect is left, and then changes no such state |
| `SimplifyTask.BuildRenaming` | src/translate/simplify.py:479-484 | The domains registered are the reachable values of the graphs, and closed under all effects |
| `SimplifyTask.ConvertInit` | src/translate/simplify.py:276-286 | The new initial state is the renamed one |
| `SimplifyTask.FilterUnreachable` | src/translate/simplify.py:486-520 | The values kept are exactly those taken when each variable is looked at alone; impossible exactly if the goal demands another value, and then there is no plan; trivially solvable exactly if the goal demands only values left alone, and then the initial state is a goal state; otherwise the simplified task represents the task |
| `SimplifyTask.ArcIffStep` | src/translate/simplify.py:90-153 | The graph of a variable changes one value to another exactly if in some state with the first an operator is applicable and an effect that sets the second fires |
| `SimplifyTask.PlanSurvives` | src/translate/simplify.py:486-520 | If effects firing together never disagree, each plan, with exactly the steps of dropped operators deleted, is a plan of the simplified task through the renamed states, each step by the renamed operator; the deleted steps change no renamed state, and the cost does not grow |
| `SimplifyTask.SimplifiedPlanIsReal` | src/translate/simplify.py:486-520 | Each plan of the simplified task is a plan of the task at the same cost through the states it names |
| `Ambiguity.ExclusiveIffUnambiguous` | src/translate/simplify.py:395-459 | A check of conditions that contradict each other succeeds exactly if effects of the operator that fire together always agree |
| `Ambiguity.ExclusiveIsClear` | src/translate/simplify.py:395-459 | If all operators pass the check, simplification keeps the plans |
| `Ambiguity.SimplificationNeedsClear` | src/translate/simplify.py:433-434 | A task without plan, with two effects that fire together, whose simplification has a plan: the effect equal to the precondition is dropped |
| `Constraints.ConstraintSystem.IsSolvable` | src/translate/constraints.py:150-160 | True exactly if some assignment of the variables, with constants standing for themselves, satisfies one alternative of each disjunction and all negative clauses |
| `Constraints.ConstraintSystem.IsChoiceSolvable` | src/translate/constraints.py:153-159 | One choice of alternatives: success gives a solution, failure excludes all solutions with these equalities |
| `Constraints.Assignment.ComputeEquivalenceClasses` | src/translate/constraints.py:40-51 | The shared sets are exactly the classes of the equivalence closure, one set per class |
| `Constraints.Assignment.ComputeMapping` | src/translate/constraints.py:53-75 | The mapping sends all members of a class to one representative, the constant if there is one; otherwise two constants are forced to be equal |
| `Constraints.Assignment.IsConsistent` | src/translate/constraints.py:77-80 | True exactly if some valuation makes all equalities true |
| `Constraints.IsSatisfiable` | src/translate/constraints.py:14-23 | A clause is satisfiable under a mapping exactly if some pair differs in the valuation it stands for |
| `Constraints.MappingDiffers` | src/translate/constraints.py:105-117 | If any valuation with the equalities meets the clauses, the one of the mapping does |
| `Constraints.ContradictoryUnsolvable` | src/translate/constraints.py:60-66 | Two constants in a class leave no valuation |
| `Constraints.ConstraintSystem.Combine` | src/translate/constraints.py:128-134 | Solutions of the combination are exactly the common solutions |
| `Relevance.FilterVariables` | src/translate/variable_order.py:182-284 | The necessary variables are the goal variables closed under causal predecessors, in the given order, and the restricted task is over exactly these |
| `Relevance.CalculateImportantVars` | src/translate/variable_order.py:98-114 | Exactly the least set with the goal variables that is closed under predecessors |
| `Relevance.BuildPredecessors` | src/translate/variable_order.py:44-60 | An arc to each affected variable exactly from the variables of the prevail conditions and preconditions of the operator and of the condition of the effect |
| `Relevance.InfluencesIff` | src/translate/variable_order.py:44-60 | Such a variable influences an effect that can fire exactly if the effect fires in some state and no longer when only this variable has another value |
| `Relevance.OperatorRestricted` | src/translate/variable_order.py:235-254 | On projected states the restricted operator has the same applicability and successor; an operator without effects left never changes the projection |
| `Relevance.ConditionsKept` | src/translate/variable_order.py:98-114 | An operator that affects a necessary variable has all its conditions on necessary variables |
| `Relevance.PlanProjects` | src/translate/variable_order.py:182-284 | Each plan, with exactly the steps of pruned operators deleted, is a plan of the restricted task through the projected states, each step by the restricted operator; pruned are the operators that affect no necessary variable, and the cost does not grow |
| `Relevance.RestrictedPlanIsReal` | src/translate/variable_order.py:182-284 | Each plan of the restricted task is a plan of the task at the same cost through the states it projects |
| `FactGroups.ChooseGroups` | src/translate/fact_groups.py:69-79 | Under partial encoding each chosen group is what is left of some group and of greatest remaining size, the groups are disjoint and cover the reachable facts, and no given group has two facts left uncovered |
| `FactGroups.GroupCoverQueue.Pop` | src/translate/fact_groups.py:50-57 | The popped group is a largest remainder, and its facts leave all shared sets |
| `FactGroups.GroupCoverQueue.UpdateTop` | src/translate/fact_groups.py:58-67 | Re-filing shrunken sets lazily ends with a top of greatest remaining size, or with none above one |
| `FactGroups.GreedyDisjoint` | src/translate/fact_groups.py:69-79 | Greedily chosen groups are pairwise disjoint |
| `FactGroups.OnePlace` | src/translate/fact_groups.py:69-79 | With disjoint groups every encoded atom has exactly one place |
| `MaxDag.GetResult` | src/translate/variable_order.py:134-179 | The order is a permutation of the component; each node is of least weight among those not taken, where its weight is the sum over its incoming arcs minus the parts modulo 100000 of those from the nodes taken before |
| `MaxDag.Subgraph` | src/translate/variable_order.py:90-102 | The arcs of a node are those of the causal graph to nodes of the component, each with its count as weight, and an additional marked one for each goal variable |
| `MaxDag.WeightMeans` | src/translate/variable_order.py:90-177 | With counts below 100000 the weight left of a node is the number of times the edges from nodes not taken were counted, twice for a goal variable, and 100000 for every edge into a goal variable, taken or not |
| `MaxDag.OrderComponent` | src/translate/variable_order.py:85-105 | The nodes of a component in such an order: each is, when taken, of least weight by the counted edges from the nodes not taken |
| `MaxDag.TakeNode` | src/translate/variable_order.py:147-165 | Outdated entries are skipped; a node taken is undone and of least current weight |
| `MaxDag.Release` | src/translate/variable_order.py:166-177 | The weights of undone targets drop by the arcs of the node taken, and each is queued under its new weight |
| `BuildModel.ComputeModel` | src/translate/build_model.py:300-327 | The evaluation ends; the queue has the facts first and no added atom twice, and is the least set with the facts that is closed under what the rules yield, which is the least model of the program if joins compare all that their conditions share; it fails exactly if a rule fails its validation |
| `BuildModel.ProcessAtom` | src/translate/build_model.py:318-321 | Handling the matches of one atom, one after the other, keeps the queue complete for all combinations of atoms handed to the rules |
| `BuildModel.FiredComplete` | src/translate/build_model.py:319-321 | Updating the index before firing covers every combination, also when one atom matches several conditions of a rule |
| `BuildModel.FiredSound` | src/translate/build_model.py:319-321 | Everything a rule adds is in every closed set with the facts |
| `BuildModel.ProcessedIsLeast` | src/translate/build_model.py:300-327 | With all atoms processed the queue is the least closed set |
| `BuildModel.LeastIsModel` | src/translate/build_model.py:300-327 | If joins compare all that their conditions share, that is the least model of the rules as written |
| `BuildModel.QueueGrows` | src/translate/build_model.py:279-298 | Each new atom is one of finitely many, so the loop ends |
| `BuildModel.ConvertRules` | src/translate/build_model.py:12-26 | All rules numbered, validated and with empty indexes; fails exactly if some rule is invalid |
| `BuildRules.BuildRule.Fire` | src/translate/build_model.py:99-111 | The queue gets the effects of exactly the combinations of given atoms that use the new atom and agree on shared numbered variables, each once and none that is queued already |
| `BuildRules.BuildRule.FireJoin` | src/translate/build_model.py:99-111 | For a join these are the atoms under the same key |
| `BuildRules.BuildRule.FireProduct` | src/translate/build_model.py:139-162 | For a product all choices of atoms for the other conditions, with the effect list reused between them; none while a condition has no atom |
| `BuildRules.BuildRule.UpdateIndex` | src/translate/build_model.py:93-98 | Exactly the new atom is added for its condition (lines 129-133 for products) |
| `BuildRules.ProductStep` | src/translate/build_model.py:155-162 | One choice of bindings completes the effect, whatever the previous choice left in the list |
| `BuildRules.ProjectFires` | src/translate/build_model.py:173-175 | A projection adds the one effect of the atom |
| `RuleIndexes.KeysAgree` | src/translate/build_model.py:70-79 | Two atoms have equal keys exactly if they agree on all numbered variables both conditions share |
| `RuleIndexes.ProductDisjoint` | src/translate/build_model.py:119-128 | The counts checked for a product imply that its conditions share no variable |
| `RuleIndexes.SharesNumberedUnlessJoin` | src/translate/build_model.py:80-92 | Validation ensures for products and projections, but not for joins, that no variable missing from the effect is shared |
| `BindingPicks.ChoiceIsPick` | src/translate/build_model.py:145-158 | Every choice from the binding lists comes from given atoms |
| `BindingPicks.PickEnters` | src/translate/build_model.py:158-162 | Assigning the chained bindings enters all atoms of the choice into the effect |
| `Firing.FilledIn` | src/translate/build_model.py:54-61 | Once all conditions are entered, the argument list is the effect of the combination |
| `Firing.Queue.Push` | src/translate/build_model.py:289-294 | An atom is appended exactly if it was never queued |
| `JoinExactness.JoinExactIff` | src/translate/build_model.py:67-111 | A validated join yields only what it derives, for all sets of atoms, exactly if each variable its conditions share is in the effect or both conditions are the same |
| `JoinExactness.ForgetfulJoinFails` | src/translate/build_model.py:80-111 | The rule r() :- p(?x), q(?x) passes its validation and yields r() from p(a) and q(b), which it does not derive |
| `JoinExactness.ComparingYields` | src/translate/build_model.py:54-175 | Under that condition on joins, rules of all kinds yield exactly what they derive |
| `Datalog.YieldsIsDerives` | src/translate/build_model.py:54-111 | If conditions share numbered variables only, the combinations yield exactly what substitutions derive |
| `Datalog.VariablesToNumbers` | src/translate/build_model.py:28-52 | Effect variables become their positions, in all conditions too |
| `Datalog.NumberedDerivesSame` | src/translate/build_model.py:28-52 | Numbering changes nothing a rule derives from any set of atoms |
| `Datalog.NumberedIsValid` | src/translate/build_model.py:28-52 | A numbered normalized rule has each number at its place in the effect and once per condition |
| `Unifier.Unifier.Unify` | src/translate/build_model.py:183-188 | Exactly the conditions the atom matches, each once |
| `Unifier.Unifier.constructor` | src/translate/build_model.py:178-182 | After inserting all conditions the tree finds, for every atom, each matching condition once |
| `Unifier.InsertFinds` | src/translate/build_model.py:208-267 | Inserting a match adds it to what is found for exactly the atoms with the constants, and changes nothing for other atoms, for any tree |
| `SearchSpace.StateRegistry.InsertIdOrPopState` | src/search/state_registry.cc:23-38 | A state registered before is popped and its id returned, otherwise the last position; no state is in the pool twice and ids are stable |
| `SearchSpace.StateRegistry.GetSuccessorState` | src/search/state_registry.cc:66-97 | The id is that of the successor state, the old one if it was registered |
| `SearchSpace.StateRegistry.GetInitialState` | src/search/state_registry.cc:45-61 | The id is that of the initial state, and registered states stay |
| `SearchSpace.SearchSpace.TracePath` | src/search/search_space.cc:128-143 | Ends with operators that lead from the initial state to the state of the node, with adjusted cost at most its g; the adjusted cost is g and the real cost the recorded one as long as no node with children was given a new parent |
| `SearchSpace.SearchSpace.Open` | src/search/search_space.cc:56-65 | The new node has g and the real cost of its parent plus those of the operator, the parent, the operator and the status; all other nodes stay; every chain of parents still ends in the initial state |
| `SearchSpace.SearchSpace.Reopen` | src/search/search_space.cc:67-81 | The same for a new parent with strictly smaller g |
| `SearchSpace.SearchSpace.UpdateParent` | src/search/search_space.cc:84-94 | The same without a change of status |
| `SearchSpace.SearchSpace.Close` | src/search/search_space.cc:96-99 | Only the status changes, and paths stay |
| `SearchSpace.SearchSpace.MarkAsDeadEnd` | src/search/search_space.cc:101-103 | Only the status changes, and paths stay |
| `SearchSpace.ReparentKeeps` | src/search/search_space.cc:56-94 | A parent of smaller g keeps every chain of parents finite and every g an upper bound |
| `SearchSpace.ReparentExact` | src/search/search_space.cc:56-94 | A new parent keeps the recorded sums of all nodes exact if its node was not reached, and otherwise exactly if that node has no children |
| `SearchSpace.RootedIffNoCycle` | src/search/search_space.cc:67-94 | Whatever the costs, a changed node still leads to a root exactly if it is not on the chain of its new parent |
| `SearchSpace.ChainRun` | src/search/search_space.cc:128-143 | Read from its end, a chain of parents is a run whose adjusted cost is at most the g of its first node |
| `SearchSpace.PoolGrowthKeeps` | src/search/search_space.cc:124-126 | Registering further states keeps all nodes valid |

## Left out

- Conditional effects and axioms inside the h^2 analysis: the backward pass is off for the former and the analysis off for the latter (planner.cc:79-94); disambiguation there treats every effect as firing.
- The time limit of h^2 is an arbitrary early exit of a pass; the flag `reachable` of variables, which repeats the set of unreachable facts, and the renaming of values after the analysis are not modelled.
- Implied preconditions, axioms and statistics in translate.py; with full encoding the dictionaries of conditions shared between variables, which line 249 extends in place, are copies here, and the order of dictionary entries is arbitrary.
- TranslateTask.Translate: models no axioms.  A goal that does not become one condition is the case NegativeGoal, where the source stops with an assertion; the exact condition for it is given for goals with at most one place per negated atom, and only a necessary one for full encoding, where it depends on which of several places is the smallest.
- SimplifyTask.FilterUnreachable: models no axioms and mutex groups.
- Relevance.FilterVariables: models no axioms, which the source treats like operators with one effect when it builds and restricts the graph (variable_order.py:62-68, 256-268), nor mutex groups.
- Relevance.BuildPredecessors: has no arcs from axioms, for the same reason.
- FactGroups.GroupCoverQueue.Pop: models the branch for partial encoding, in which the shared sets shrink.
- Value names in simplify.py, and the sorting and removal of duplicates of effects, which do not change a successor when firing effects agree. The table of old values per new value is a field added for the model.
- The structural rules for operators in sas_tasks.py are assumed of the input of simplify.py (`WellBuilt`).
- AxiomLayers.ComputeLayers: numbers the derived variables from 0 and layers all of them, not only the necessary ones.
- AxiomRules.ComputeSimplified: lists the literals of a body in some order, not sorted, and identifies axioms by position.
- Symbols of the constraint solver are numbers of variables and of constants instead of strings with a question mark.
- MaxDag.GetResult: models the heap as a map from weights to queues with a least key, not its array layout.
- FactGroups.ChooseGroups: models partial encoding only; with full encoding popped sets are not shrunk.
- SearchSpace.StateRegistry.GetSuccessorState: models tasks without axioms and states as sequences, without bit packing; the set of ids with a hash on contents is a map from states to ids.
- SearchSpace.SearchSpace.TracePath: makes no claim about real costs once a node with children was given a new parent; its descendants keep their old sums, as in the source.
- BuildModel.ComputeModel: expects normalized rules with one arity per predicate, as the program is after normalization and splitting (pddl_to_prolog.py:38-56), which are not part of this model.
- The three classes of rules in build_model.py are one class with a kind, because they share everything but their index; nodes of the discrimination tree are values, so sharing of list objects between nodes is not captured.
- scc.cc and causal_graph.cc in the preprocessor have the specifications of sccs.py and variable_order.py and are not modelled again.
- Invariant synthesis (invariants.py), the external grounders, parsing and printing, the search engines and the heuristics.
