# Verified model of the GraphQL tool and query-plan compilers

This project models the two compilers of `crates/graphql-orm-ai-tool-profiles` and the disclosure
checker they target, and proves what the compilers promise about the documents they emit.

* A **query plan** names fields, relationships, arguments and list bounds, either as a nested tree
  or as a compact list of dotted paths. The plan compiler turns it into a GraphQL selection, a set
  of variables lifted out of the arguments, and a recursive disclosure shape.
* A **tool profile** is a reviewed projection with argument adapters. The profile compiler infers
  the type of every variable from the positions it stands in, and insists that the projection and
  the disclosure are the same tree.
* A **disclosure shape** decides at run time which results may be shown and counts their records;
  its static record count is the ceiling a plan is admitted under.
* A **capability index** ranks what can be called; a federated set of indexes behaves as one.

The central result is compiler correctness. For every accepted plan and every conforming data graph,
possibly cyclic, executing the emitted document after sections 6.3 and 6.4 of the GraphQL
specification (October 2021) yields a response that the emitted disclosure accepts and whose records
stay within the compiled ceiling (`Disclosing.CompiledQueryDiscloses`). Beside it stand: the document
read back with its variables is the plan (`Restoring`); the two front ends undo each other, in both
directions (`Flattening`); and the same correctness for plans of fixed shape (`FixedPlans`) and for
profiles (`ProfileCompiler`).

What is advertised and what is accepted are **not** the same, and the project says exactly how they
differ. A plan compiles to a query if and only if (`PlanAcceptance`)

* the root field exists and gets the arguments and bound it asks for;
* flags are true, no node is empty and every path it selects is advertised;
* the arguments, bound and route of every relationship it names are in order;
* no name it takes up, on a route or in a selection, is reserved, no list has a fixed bound of zero,
  and the nesting fits a disclosure;
* its selected fields, variables and worst-case records, all three read off plan, catalogue bounds
  and routes (`Costs`), are within the limits.

For a single path: some plan selects it and compiles if and only if it is advertised, the root and
every relationship on it are callable, nothing on it is reserved or nested too deep, and it stays
within the limits with the fewest arguments and the least bounds that the schema admits
(`Callability`); then a plan can select it alone. Several of these conditions exclude paths that a
validated catalogue does advertise. Routes are validated within eight steps but compiled within the
depth limit (`Unselectable`). A fixed bound may equal the record limit while the object around the
list makes one record more; a catalogue may hold names that begin with two underscores, which a
disclosure refuses; and a path may have more nodes than a plan may select (`Refused`).

## Layout

| files | contents |
|---|---|
| `Common`, `Ordering` | results, bounded integers, JSON values, the order of strings |
| `Disclosure`, `Records`, `Classes` | shapes, evaluation, record counts, classifications |
| `TypeText`, `Schema`, `Execution` | type references and their text, schema and catalogue, documents and their execution |
| `Routes`, `Outputs` | the searches from a result type to an entity |
| `Plans`, `Arguments`, `Compiler`, `Context` | plans, argument lifting, the plan compiler as functions and as the mutable context that refines them |
| `Lifting`, `Restoring`, `Disclosing`, `Example` | what compiled documents satisfy; a small instance that meets the hypotheses |
| `Pruning`, `Advertised`, `Collector`, `TreeSchema` | the pruning search and the two published selection schemas |
| `Heads`, `Acceptance` | which selections compile |
| `LeastOptions`, `Costs`, `PlanAcceptance` | what a plan costs, and which plans compile |
| `PathCosts`, `Callability`, `Unselectable`, `Refused` | which paths can be selected, and advertised paths that cannot |
| `CompactPlans`, `Flattening`, `FrontEnds` | dotted paths, their expansion and flattening, and the compact front end against acceptance |
| `Aggregate`, `AggregateRows`, `FixedPlans` | aggregate disclosures and their response names; scalar and aggregate plans within the record budget |
| `InputReach`, `JsonScalar` | input-type worklist, opaque JSON inputs |
| `ProfileArguments`, `ProfileProjection`, `ProfileCompiler` | the profile compiler |
| `CapabilityIndex`, `Canonical`, `ScopeKey` | ranked search and federation, canonical JSON, the scope key |

Programs that update state are methods with loops, proved equal to specification functions or to a
declarative predicate; the compile context, the plan expansion and the byte counter are classes. What
is promised is then proved about those functions. Documents are trees. A `World` is a data graph: the
type of every object and what it resolves every field to under every argument map.

Hypotheses are what the source establishes before a plan arrives: a parsed schema has distinct field
and argument names (`WellFormedTypes`); a validated catalogue has unique, well-formed names, no field
below its entity's default class, and no exportable secret field
(`crates/graphql-orm-operation-catalog/src/semantic.rs`, lines 1496-1527, as `ValidCatalog`); entities
and relationships agree with the schema (`ValidatedEntities`). Because no field is classified below
its entity, an entity that is secret by default offers nothing, so the advertised paths need no
separate exception for it.

## Model

| member | source | states |
|---|---|---|
| Disclosing.CompiledQueryDiscloses | crates/graphql-orm-ai-tool-profiles/src/query_plans.rs:562-611 | every response of a conforming, bound-honouring data graph to an accepted plan for an entity result is a well-formed value that the compiled disclosure accepts, and the run-time check under the compiled record limit never fails on it |
| Disclosing.EntityDiscloses | crates/graphql-orm-ai-tool-profiles/src/query_plans.rs:4337-4481 | at every depth, the selection compiled for an entity discloses every object of that entity through the compiled object shape |
| Disclosing.WrapDiscloses | crates/graphql-orm-ai-tool-profiles/src/query_plans.rs:4712-4735 | list and object wrappers of projection and disclosure line up with the data met along a route, node for node |
| Disclosing.HeadIsHonoured | crates/graphql-orm-ai-tool-profiles/src/query_plans.rs:4398-4456 | the list bound written into the disclosure is the bound under which the resolver answered |
| Example.AdaIsDisclosed | crates/graphql-orm-ai-tool-profiles/src/query_plans.rs:562-611 | the hypotheses of the correctness theorem hold together for a concrete catalogue with a paged root list and a paged connection, a plan that bounds both, and a data graph whose resolvers go by the bounds they are given |
| Restoring.DocumentMirrorsPlan | crates/graphql-orm-ai-tool-profiles/src/query_plans.rs:562-839 | substituting the compiled values back into the document gives the plan: the same fields and relationships and nothing else, and at the root the plan's arguments plus the injected bound, which is also the bound of the disclosed list |
| Restoring.EntityMirrors | crates/graphql-orm-ai-tool-profiles/src/query_plans.rs:4337-4481 | the same at every level of the plan, whatever was compiled before |
| Restoring.HeadRestores | crates/graphql-orm-ai-tool-profiles/src/query_plans.rs:4249-4335 | a resolver receives exactly the planned arguments, plus the page bound where one is injected; fixed and absent collection bounds inject nothing |
| Lifting.DocumentUsesEachVariableOnce | crates/graphql-orm-ai-tool-profiles/src/query_plans.rs:4249-4335 | a whole document uses the variables v0, v1, ... each exactly once and in order; values, schemas, definitions and the counter all have that size, within the argument limit |
| Arguments.ArgumentsAreLifted | crates/graphql-orm-ai-tool-profiles/src/query_plans.rs:4249-4335 | one argument list extends the variables without touching earlier ones, and delivers the supplied values plus the injected bound |
| Arguments.BindingIsTyped | crates/graphql-orm-ai-tool-profiles/src/query_plans.rs:4249-4335 | every written argument is a variable declared with the type of the input it is written for |
| Arguments.InjectionCarriesLimit | crates/graphql-orm-ai-tool-profiles/src/query_plans.rs:4852-4897 | injection adds the bound to the one page argument, keeps every other value and every other entry, and never overwrites a size the plan set |
| Arguments.BindingSuccessIsStateless | crates/graphql-orm-ai-tool-profiles/src/query_plans.rs:4249-4335 | whether arguments compile does not depend on what was compiled before |
| Context.CompileContext.Lift | crates/graphql-orm-ai-tool-profiles/src/query_plans.rs:4324-4331 | one argument moves into the next variable: value, definition, schema and counter together |
| Context.CompileContext.CompileArguments | crates/graphql-orm-ai-tool-profiles/src/query_plans.rs:4249-4335 | the mutable context answers and ends as the specification says, error for error |
| Context.CompileContext.CompileEntitySelection | crates/graphql-orm-ai-tool-profiles/src/query_plans.rs:4337-4481 | the recursive selection compiler over mutable state equals its specification, error for error |
| Context.CompilePlan | crates/graphql-orm-ai-tool-profiles/src/query_plans.rs:562-839 | the whole imperative compilation of an entity result equals the function the theorems are about |
| Compiler.WrapProjectionRoute | crates/graphql-orm-ai-tool-profiles/src/query_plans.rs:4712-4735 | the backwards loop over a route equals the recursive wrapping |
| Classes.MaximumIsGreatest | crates/graphql-orm-ai-tool-profiles/src/query_plans.rs:5443-5456 | the recursive maximum over rule and children occurs in the shape, and no rule at any depth exceeds it |
| Classes.EvaluatedClassIsAnnounced | crates/graphql-orm-ai-tool-profiles/src/disclosure.rs:444-508 | no evaluation reports a class above the one announced for the shape |
| Acceptance.AcceptedIffAdvertised | crates/graphql-orm-ai-tool-profiles/src/query_plans.rs:4337-4481 | a plan's selection compiles if and only if its flags are true, no node is empty, every path it selects is advertised, and at every depth the arguments, the bound and the route of each relationship it names are in order |
| Heads.HeadOkIff | crates/graphql-orm-ai-tool-profiles/src/query_plans.rs:4385-4434 | what "in order" means, as guards on schema, catalogue, limits and supplied values, is exactly when the compiler's own treatment of a relationship and its route succeeds outside the ancestry |
| PlanAcceptance.PlanCompilesIff | crates/graphql-orm-ai-tool-profiles/src/query_plans.rs:562-745 | a plan for an entity result compiles if and only if the root has its options, flags are true, no node is empty, every selected path is advertised, every relationship has its arguments, bound and route, no reserved name or zero bound is taken up, the nesting fits a disclosure, and nodes, variables and worst-case records are within the limits |
| PlanAcceptance.RootOkIff | crates/graphql-orm-ai-tool-profiles/src/query_plans.rs:577-590 | when the root field gets the arguments and bound it asks for, as guards on schema and supplied values |
| Costs.EntityIsCharged | crates/graphql-orm-ai-tool-profiles/src/query_plans.rs:4337-4481 | whatever was compiled before, a compiled selection moves the counters by, and has the worst-case records of, a formula over plan, catalogue bounds and routes, and its shape is valid at a level exactly when no name or zero bound forbids it and the nesting fits |
| Costs.WrapIsCounted | crates/graphql-orm-ai-tool-profiles/src/query_plans.rs:4712-4735 | along a route a list multiplies the worst case by its bound and a named segment adds one record |
| LeastOptions.ArgumentsAreCounted | crates/graphql-orm-ai-tool-profiles/src/query_plans.rs:4249-4335 | one argument list takes exactly as many variables as it delivers values, the injected page argument included |
| LeastOptions.OptionsCostAtLeast | crates/graphql-orm-ai-tool-profiles/src/query_plans.rs:4249-4335 | no options in order deliver fewer arguments than the required and injected ones, or a smaller bound than the least the page argument admits |
| LeastOptions.LeastOptionsExist | crates/graphql-orm-ai-tool-profiles/src/query_plans.rs:4249-4335 | where any options are in order, some attain both minima at once |
| PathCosts.PlanCostsAtLeast | crates/graphql-orm-ai-tool-profiles/src/query_plans.rs:4337-4481 | whatever else a plan selects, it costs no less than any one of its paths |
| Callability.PathIsAcceptedIff | crates/graphql-orm-ai-tool-profiles/src/query_plans.rs:562-745 | some plan that selects a given path compiles if and only if the path is advertised, root and relationships are callable, nothing on it is reserved or too deep, and its least cost is within the limits; and then some compiled plan selects it alone |
| Callability.CompiledPathsAreSelectable | crates/graphql-orm-ai-tool-profiles/src/query_plans.rs:562-745 | whatever a compiled plan selects could be selected by itself |
| Refused.OneRecordTooMany | crates/graphql-orm-ai-tool-profiles/src/query_plans.rs:738-745 | a fixed bound that the collector takes, on an advertised and callable path, puts every plan that selects the path over the record budget |
| Refused.OneRecordMoreSuffices | crates/graphql-orm-ai-tool-profiles/src/query_plans.rs:738-745 | with a limit of one record more, some plan selects that path and compiles |
| Refused.ReservedNameIsRefused | crates/graphql-orm-ai-tool-profiles/src/disclosure.rs:196-242 | an advertised scalar with a reserved name is refused in every plan, because no disclosure can hold it |
| Refused.TooManyNodes | crates/graphql-orm-ai-tool-profiles/src/query_plans.rs:4483-4492 | an advertised and callable path with more nodes than the limit is refused in every plan |
| Callability.AcceptedPathsAreCallable | crates/graphql-orm-ai-tool-profiles/src/query_plans.rs:4337-4481 | as soon as a selection compiles, whatever it selects is advertised and callable |
| Unselectable.AdvertisedButNeverAccepted | crates/graphql-orm-ai-tool-profiles/src/query_plans.rs:4429-4434 | a catalogue that passes validation advertises a path that every plan is refused for, from any state of the selection compiler on, because its route is longer than the compile depth |
| Acceptance.EntityIsStateless | crates/graphql-orm-ai-tool-profiles/src/query_plans.rs:4337-4481 | acceptance of a selection does not depend on the variables already lifted |
| Advertised.PathsAreExact | crates/graphql-orm-ai-tool-profiles/src/query_plans.rs:3036-3141 | the enumerated paths are exactly the simple paths of exportable, selectable, non-secret relationships that end in a selectable scalar |
| Advertised.PathsAreShort | crates/graphql-orm-ai-tool-profiles/src/query_plans.rs:3036-3141 | no such path has more segments than the remaining depth |
| Advertised.KeptContributes | crates/graphql-orm-ai-tool-profiles/src/query_plans.rs:3058-3082 | a relationship that survives pruning always contributes a path |
| Collector.CollectCompactSelectionPaths | crates/graphql-orm-ai-tool-profiles/src/query_plans.rs:3036-3141 | the recursive collector succeeds only when every cardinality, page-argument and bound check holds, and then appends exactly the dotted advertised paths in order; on a catalogue without dangling relationships those checks are the only reason to fail |
| Collector.CollectedHasOnePage | crates/graphql-orm-ai-tool-profiles/src/query_plans.rs:4786-4822 | what the collector has checked of a relationship: its bound agrees with its cardinality and a pageable one has exactly one page argument |
| TreeSchema.TreeAndCompactAgree | crates/graphql-orm-ai-tool-profiles/src/query_plans.rs:3418-3563 | the nested selection schema exists exactly when some path is enumerated, and then offers exactly the enumerated paths; below a kept relationship it never fails |
| TreeSchema.SelectionSchemaOf | crates/graphql-orm-ai-tool-profiles/src/query_plans.rs:3418-3563 | the recursive builder with the pruning search in its loop gives that schema, error for error, unless a relationship leads out of the catalogue |
| Pruning.EntityHasProviderSelections | crates/graphql-orm-ai-tool-profiles/src/query_plans.rs:3382-3416 | the queue search with one shared visited set answers true if and only if a simple path avoiding the ancestry reaches a selectable scalar within the depth; it cannot fail on a closed catalogue |
| CompactPlans.ExpandCompactPlan | crates/graphql-orm-ai-tool-profiles/src/query_plans.rs:526-560 | expansion succeeds if and only if the compact plan is expandable, and the tree then selects exactly the listed paths with exactly their options |
| CompactPlans.Expansion.Expand | crates/graphql-orm-ai-tool-profiles/src/query_plans.rs:4513-4579 | two walks over the tree under edit insert one path; on a tree whose options match they fail exactly on an invalid path, and otherwise leave exactly that insertion and record exactly the relationship keys passed |
| CompactPlans.Expansion.EnsureWalk | crates/graphql-orm-ai-tool-profiles/src/query_plans.rs:4532-4558 | the first walk creates or checks every relationship of the path and writes the edited nodes back |
| CompactPlans.Expansion.LeafWalk | crates/graphql-orm-ai-tool-profiles/src/query_plans.rs:4559-4579 | the second walk finds the parent again and adds the leaf |
| CompactPlans.WalksNeverFail | crates/graphql-orm-ai-tool-profiles/src/query_plans.rs:4534-4571 | neither the ambiguous-options nor the invalid-path error can be reached |
| CompactPlans.TreeIsDetermined | crates/graphql-orm-ai-tool-profiles/src/query_plans.rs:4513-4579 | a tree is determined by the paths it selects and their options |
| CompactPlans.ExpansionIsCanonical | crates/graphql-orm-ai-tool-profiles/src/query_plans.rs:526-560 | the order and repetition of the listed selections do not matter |
| Flattening.ExpandingUndoesFlattening | crates/graphql-orm-ai-tool-profiles/src/query_plans.rs:526-560 | expanding a flattened tree gives the tree back |
| Flattening.EveryTreeHasACompactForm | crates/graphql-orm-ai-tool-profiles/src/query_plans.rs:526-560 | every tree with true flags, no empty node and plain names has a compact plan that expands to it, within limits |
| CompactPlans.SplitJoin | crates/graphql-orm-ai-tool-profiles/src/query_plans.rs:3143-3149 | splitting a joined path at its dots gives back its segments |
| Flattening.JoinSplit | crates/graphql-orm-ai-tool-profiles/src/query_plans.rs:3143-3149 | joining the segments of a string gives back the string, as long as none is empty |
| Flattening.FlatteningUndoesExpanding | crates/graphql-orm-ai-tool-profiles/src/query_plans.rs:526-560 | flattening an expanded plan gives back the same set of selections and the same options under every key |
| Flattening.EveryExpansionFlattens | crates/graphql-orm-ai-tool-profiles/src/query_plans.rs:526-560 | every expansion can be flattened, and what results expands to the same tree |
| FrontEnds.CompactPlanCompilesIff | crates/graphql-orm-ai-tool-profiles/src/query_plans.rs:461-481 | the tree of an expandable compact plan compiles to a query if and only if something is listed, every listed string is advertised, root and relationships have their options and routes, the disclosure can hold it, and nodes, variables and worst-case records are within the limits |
| FrontEnds.AdvertisedStringsAreDistinct | crates/graphql-orm-ai-tool-profiles/src/query_plans.rs:3036-3141 | no string is advertised twice |
| FrontEnds.AdvertisedIsExpandableIff | crates/graphql-orm-ai-tool-profiles/src/query_plans.rs:4598-4604 | the compact front end takes an advertised string as a path if and only if no segment begins with two underscores |
| Routes.SearchRoutes | crates/graphql-orm-ai-tool-profiles/src/query_plans.rs:4606-4659 | the queue search without a visited set terminates on cyclic type graphs and collects its hits level by level |
| Routes.SearchIsExact | crates/graphql-orm-ai-tool-profiles/src/query_plans.rs:4606-4659 | the hits are exactly the entity-free-interior walks within the depth |
| Routes.UniqueEntityRoute | crates/graphql-orm-ai-tool-profiles/src/query_plans.rs:4606-4659 | sorting and tie detection read the outcome off the hits |
| Routes.UniqueRouteDecides | crates/graphql-orm-ai-tool-profiles/src/query_plans.rs:4606-4659 | the outcome is a shortest entity route, unreachable if and only if there is none, ambiguous if and only if there are two shortest ones |
| Routes.ResolveSpecificEntityRoute | crates/graphql-orm-ai-tool-profiles/src/query_plans.rs:4661-4710 | the search for one target, with the list segment put in front |
| Routes.SpecificRouteIsShortest | crates/graphql-orm-ai-tool-profiles/src/query_plans.rs:4661-4710 | the route leads to the target and no admissible route is shorter |
| Routes.SpecificRouteFailsIffUnreachable | crates/graphql-orm-ai-tool-profiles/src/query_plans.rs:4661-4710 | there is no route exactly when the target is unreachable |
| Outputs.ResolveEntityOutput | crates/graphql-orm-ai-tool-profiles/src/query_plans.rs:2643-2720 | an object result resolves to its entity or to the end of the one shortest route; it is ambiguous if and only if two shortest routes exist and unreachable if and only if there is none |
| Outputs.ResolvedRootIsSound | crates/graphql-orm-ai-tool-profiles/src/query_plans.rs:2643-2720 | a resolved output is what the correctness theorem asks of a capability's root |
| Disclosure.EvaluateNode | crates/graphql-orm-ai-tool-profiles/src/disclosure.rs:444-508 | the evaluator reports the first failure in document order, or the saturated node count and the highest class met |
| Disclosure.AcceptsIffConforms | crates/graphql-orm-ai-tool-profiles/src/disclosure.rs:444-508 | on a validated shape it accepts exactly the conforming values; the depth guard never decides |
| Records.StaticCountIsExact | crates/graphql-orm-ai-tool-profiles/src/disclosure.rs:375-398 | a reported static count is the worst case over the naturals, and with positive list bounds it is unreported only on overflow, in any order of fields |
| Records.CountRecords | crates/graphql-orm-ai-tool-profiles/src/disclosure.rs:375-398 | the checked u64 fold over the fields computes that count |
| Records.DynamicCountIsBounded | crates/graphql-orm-ai-tool-profiles/src/disclosure.rs:539-590 | no value counts more than the worst case, so no checked addition overflows below it |
| Records.CeilingIsAttained | crates/graphql-orm-ai-tool-profiles/src/disclosure.rs:539-590 | for every valid shape some value attains the worst case |
| Records.FullestConforms | crates/graphql-orm-ai-tool-profiles/src/disclosure.rs:539-590 | when nothing is withheld and no labels are demanded, that value is an accepted one |
| Records.EvaluateGraphqlWithRecordLimit | crates/graphql-orm-ai-tool-profiles/src/disclosure.rs:317-345 | the record-limited evaluation, failure for failure |
| Records.CompiledCeilingIsNeverExceeded | crates/graphql-orm-ai-tool-profiles/src/query_plans.rs:738-745 | a shape admitted under a ceiling never fails the run-time record limit at that ceiling on a conforming envelope |
| TypeText.ParsersInvertPrint | crates/graphql-orm-ai-tool-profiles/src/query_plans.rs:5299-5340 | the three text parsers recover item text, base name and nullability of every printed type |
| TypeText.NamedType | crates/graphql-orm-ai-tool-profiles/src/query_plans.rs:5312-5328 | the unwrapping loop equals the recursive parse |
| TypeText.RenderedTextDecidesTypes | crates/graphql-orm-ai-tool-profiles/src/query_plans.rs:5299-5310 | equal rendered text means equal types up to kind and item bound, and conversely |
| InputReach.InputTypeReaches | crates/graphql-orm-ai-tool-profiles/src/query_plans.rs:3883-3939 | the worklist terminates on cyclic input types and answers true if and only if the target is reachable along admitted members |
| JsonScalar.ValidateJsonScalar | crates/graphql-orm-ai-tool-profiles/src/query_plans.rs:5034-5106 | the walker accepts if and only if height, widths, string and key bytes, node total and serialized size all hold |
| JsonScalar.ByteCounter.Write | crates/graphql-orm-ai-tool-profiles/src/query_plans.rs:5085-5101 | one chunk is taken exactly while the running total fits the budget |
| JsonScalar.ByteCounter.Serialize | crates/graphql-orm-ai-tool-profiles/src/query_plans.rs:5081-5106 | writing chunk by chunk succeeds exactly when the whole serialization fits |
| JsonScalar.BoundedJsonSchema | crates/graphql-orm-ai-tool-profiles/src/query_plans.rs:4959-4991 | the builder produces exactly the levels up to the remaining depth |
| JsonScalar.LevelAdmits | crates/graphql-orm-ai-tool-profiles/src/query_plans.rs:4959-4991 | a level admits exactly the values of that height whose widths and character lengths fit |
| JsonScalar.WalkerRefinesSchema | crates/graphql-orm-ai-tool-profiles/src/query_plans.rs:5034-5106 | whatever the walker accepts at a depth, the schema published for that depth accepts |
| JsonScalar.FinishJsonSchema | crates/graphql-orm-ai-tool-profiles/src/query_plans.rs:4993-5032 | hoisting succeeds if and only if no name has two definitions, and then holds exactly the definitions of the document |
| JsonScalar.HoistingNeverConflicts | crates/graphql-orm-ai-tool-profiles/src/query_plans.rs:4993-5032 | definitions built from one limits value never conflict |
| JsonScalar.HoistingKeepsMeaning | crates/graphql-orm-ai-tool-profiles/src/query_plans.rs:4993-5032 | after hoisting every reference resolves and admits exactly the values it admitted locally |
| Aggregate.ExactAggregateDisclosure | crates/graphql-orm-ai-tool-profiles/src/query_plans.rs:842-960 | an aggregate selection is disclosed if and only if every grouping and metric is available and both identity fields are found, and the shape carries the canonical labels in order |
| Aggregate.AggregateCountIsExact | crates/graphql-orm-ai-tool-profiles/src/query_plans.rs:842-960 | the static count is rows times (1 + max(1, groups) + max(1, metrics)), unreported exactly on u64 overflow, and the shape is valid if and only if its labels are |
| AggregateRows.FoundIsOnlySpelling | crates/graphql-orm-ai-tool-profiles/src/query_plans.rs:5416-5430 | a field is found if and only if it alone has the expected name up to case |
| AggregateRows.AggregateRowIsUsable | crates/graphql-orm-ai-tool-profiles/src/query_plans.rs:2722-2773 | a row that the schema offers has two different lists, and both identity fields of its values are always found |
| FixedPlans.AcceptedAggregateFitsBudget | crates/graphql-orm-ai-tool-profiles/src/query_plans.rs:637-745 | an accepted aggregate plan, over the row that the schema offers and any listing of its arguments, asks for exactly that many records, and they are within the record budget |
| FixedPlans.ListingIsIrrelevant | crates/graphql-orm-ai-tool-profiles/src/query_plans.rs:970-979 | the order of the arguments does not matter as long as no two names are the same to the aggregate lookups |
| FixedPlans.AcceptedFixedPlanDiscloses | crates/graphql-orm-ai-tool-profiles/src/query_plans.rs:738-745 | whatever conforms to the disclosure of an accepted scalar or aggregate plan passes the run-time check at the compiled ceiling |
| FixedPlans.AcceptedScalarDiscloses | crates/graphql-orm-ai-tool-profiles/src/query_plans.rs:612-636 | every conforming response to an accepted scalar plan, single or a flat bounded list, is disclosed within the ceiling |
| FixedPlans.CompileFixed | crates/graphql-orm-ai-tool-profiles/src/query_plans.rs:562-745 | the imperative compilation of scalar and aggregate outputs through the same context and the same closing checks equals its specification |
| Aggregate.ListPassesIffItAnswers | crates/graphql-orm-ai-tool-profiles/src/disclosure.rs:510-528 | a non-null list of aggregate values passes if and only if its labels equal the request, one for one and in order, over leaf values |
| Aggregate.DisclosedRowsAreLabelled | crates/graphql-orm-ai-tool-profiles/src/query_plans.rs:1029-1056 | in every disclosed answer each row's non-null lists are labelled as requested |
| ProfileArguments.RenderArguments | crates/graphql-orm-ai-tool-profiles/src/profiles.rs:1268-1300 | rendering succeeds if and only if the adapters fit the schema and no variable stands in positions of two types; the type map grows by exactly the variables used |
| ProfileArguments.RenderValue | crates/graphql-orm-ai-tool-profiles/src/profiles.rs:1302-1366 | the same for one adapter value |
| ProfileArguments.RenderFixed | crates/graphql-orm-ai-tool-profiles/src/profiles.rs:1368-1428 | a server-owned constant renders exactly when it fits its type |
| ProfileArguments.FixedArrives | crates/graphql-orm-ai-tool-profiles/src/profiles.rs:1368-1428 | a rendered constant reaches the resolver as it was configured |
| ProfileArguments.FittingArgumentsAreSupplied | crates/graphql-orm-ai-tool-profiles/src/profiles.rs:1268-1300 | every required argument is supplied, at every depth, and never by a null literal |
| ProfileProjection.RenderProjection | crates/graphql-orm-ai-tool-profiles/src/profiles.rs:1431-1528 | a projection renders if and only if it fits the schema and its variables are consistent; it yields the selection and its response tree |
| ProfileProjection.ValidateDisclosureShape | crates/graphql-orm-ai-tool-profiles/src/profiles.rs:1828-1871 | it succeeds if and only if the disclosure with rules erased is the projected tree and withholds nothing |
| ProfileCompiler.ValidateInferredInputs | crates/graphql-orm-ai-tool-profiles/src/profiles.rs:1737-1776 | every input fits the type of every position it is used in |
| ProfileCompiler.CompileProfile | crates/graphql-orm-ai-tool-profiles/src/profiles.rs:971-1119 | a profile compiles if and only if it is acceptable, said without any order of checks, and which document it then compiles to |
| ProfileCompiler.CompiledDocumentIsValid | crates/graphql-orm-ai-tool-profiles/src/profiles.rs:1000-1050 | every compiled document meets sections 5.8.1, 5.8.3, 5.8.4 and 5.8.5 and section 5.4.2.1 of the GraphQL specification |
| ProfileCompiler.CompiledProfileDiscloses | crates/graphql-orm-ai-tool-profiles/src/profiles.rs:1545-1568 | with no list identities, every conforming response within its list bounds passes the profile's disclosure and its record limit |
| CapabilityIndex.CompileWithLimits | crates/graphql-orm-ai-tool-profiles/src/capability_index.rs:564-651 | a set is built if and only if its members are admissible, and then holds every member under its target; an identifier is owned by a target exactly when that member holds it |
| CapabilityIndex.OrderIsIrrelevant | crates/graphql-orm-ai-tool-profiles/src/capability_index.rs:538-543 | any permutation of the members is accepted alike and builds the same, single set |
| CapabilityIndex.RankEntries | crates/graphql-orm-ai-tool-profiles/src/capability_index.rs:846-868 | the ranked list is ordered by rank and then identifier and holds exactly the admitted entries |
| CapabilityIndex.Search | crates/graphql-orm-ai-tool-profiles/src/capability_index.rs:499-519 | one index answers with exactly its best entries, in order |
| CapabilityIndex.SearchSet | crates/graphql-orm-ai-tool-profiles/src/capability_index.rs:695-717 | the set answers with exactly the best entries of the flat union, in order |
| CapabilityIndex.FederatedSearchIsMerge | crates/graphql-orm-ai-tool-profiles/src/capability_index.rs:695-717 | searching the set and searching every member, merging and cutting give the same answer, entry for entry and error for error |
| Canonical.CanonicalJsonValue | crates/graphql-orm-ai-tool-profiles/src/canonical_json.rs:12-28 | the result is the same value up to object order, with every object in ascending key order at every depth |
| Canonical.CanonicalFormsDecideSameness | crates/graphql-orm-ai-tool-profiles/src/canonical_json.rs:12-28 | canonical forms are equal if and only if the values differ only in the order of object entries |
| Canonical.CanonicalFormIsFixed | crates/graphql-orm-ai-tool-profiles/src/canonical_json.rs:12-28 | canonicalising a canonical form gives it back |
| Canonical.CanonicalFormKeepsLookups | crates/graphql-orm-ai-tool-profiles/src/canonical_json.rs:12-28 | every lookup finds the canonical form of what it found before |
| ScopeKey.AiScopeKey | crates/graphql-orm-ai/src/domain.rs:40-58 | the bytes fed to the hash, field by field |
| ScopeKey.FieldCodeIsPrefixFree | crates/graphql-orm-ai/src/domain.rs:48-55 | what follows a field cannot be taken for part of it |
| ScopeKey.StreamIsInjective | crates/graphql-orm-ai/src/domain.rs:40-58 | distinct scopes with lengths below 2^64 give distinct streams, and no stream begins another |

## Left out

- Parsers of GraphQL and SDL text, the JSON Schema engine and serde: schemas, plans and documents start as trees. The JSON Schema checks of plan arguments are two arbitrary predicates in `Arguments.Validators`.
- PlanAcceptance.PlanCompilesIff: leaves out what follows the record budget and is foreign or constant for a capability: the rendered document and the variable schema are handed to the GraphQL parser and the JSON Schema engine once more, and the operation binding is looked up again.
- Hashes and fingerprints, tool identifiers and drift bindings: nothing is claimed about collisions.
- Scalar-classed fields of list or object type, and lists of lists of objects: the compiler gives them a single shape, so the plan theorem excludes them by hypothesis (`LeafScalars`, `FlatObjectLists`).
- Disclosing.CompiledQueryDiscloses: assumes that resolvers honour the page size they are given and their fixed ceilings (`HonoursBounds`, `HonoursRoot`); a resolver that does not is refused at run time, as `Disclosure.EvaluateNode` states.
- Nullability of result fields: any position of a data graph may be absent, so the theorems do not use non-null result types or their error propagation.
- The comparison of relationship arguments and scalar types with the finished SDL: only what results depend on is taken into `ValidatedEntity`.
- `validate_filter_roles`: `InputReach` takes the validated operator helpers as a set that may be missing.
- CompactPlans.Expansion.Expand: the nodes under edit are kept as a spine of values that is written back; aliasing of mutable references into the tree is not modelled.
- TreeSchema.TreeAndCompactAgree: speaks of the selectable part of the nested schema; its argument and bound parts are not built.
- Collector.CollectCompactSelectionPaths: leaves out the argument schemas it collects beside the paths, their configuration errors, and the semantic bound of a pageable list.
- Building the argument part of the published plan schemas, and the byte limits of those schemas.
- JsonScalar.ValidateJsonScalar: numbers are reals, so finiteness always holds, and the length of a printed number is a parameter.
- ProfileArguments.RenderFixed: an integer written with a fraction of zero counts as an integer, because numbers are reals.
- ProfileCompiler.CompileProfile: description texts, media and preview policies and the pairing of execution mode, risk and approval are one flag of the profile; the printed document and its descriptor are not modelled.
- CapabilityIndex.RankEntries: the query filter and the token scores are arbitrary functions of target and entry; how text is split into tokens is not modelled.
- Compilation of a single capability index from catalogues, mutation and subscription catalogues, provider envelopes, transports, persistence and everything outside the two compilers.
- Machine word sizes of collection lengths: lengths are unbounded except where the source counts in u32 or u64.
