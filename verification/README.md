# Plenora: a verified model of its hard core

Plenora moves tables between formats under explicit contracts. This project models the parts
of it whose correctness no finite set of examples settles, and proves what they promise:

- **Cost model** (`Vectors`, `GaussJordan`, `Vertices`, `MinimalPlan`, `CostModel`). Exact
  elimination, a linear program solved by enumerating vertices, coefficients rounded up, two
  branches that extrapolate by row width. Python's `Fraction` is `real`; the matrix is an array
  of rows that are swapped and replaced in place, for every size.
- **Expansion limit** (`ExpansionLimit`). A binary64 factor decoded as in section 3.4 of
  IEEE 754-2019 and compared with counts in 128-bit integers, with the checked product, the
  guarded shift and the leading zeros written out; the reported metrics are exact rationals.
- **Column identity** (`FieldAllocator`, `DataContract`, `GeometryTypes`). The allocator is a
  class with the fields of the source; each method is one step of a value-level machine, and the
  laws are about all runs of that machine. Contracts are built, rebuilt and validated on values
  through the same allocator.
- **Publication** (`PlenoraErrors`, `Publication`, `SourceImprint`). A run of sources, execution,
  output-by-output publication and cleanup against a world that answers arbitrarily and may
  interrupt at every check; the destinations keep every state they went through.
- **Command line** (`CommandLine`). The whole grammar, with a printer.
- **Guards of the repository** (`Brackets`, `UseTrees`, `TestPropagation`, `RequirementWalk`).
  Delimiter matching, `use` trees, two least-fixpoint loops, a depth-first walk with cycles.

Operations keep their source names; lemmas say in English what holds. `dafny verify
dfyconfig.toml` checks the whole project.

Three assumptions a reader should know. The resolver's claims `Riuscita`, `NienteScritto` and
`Parziale` are the truth about the destination (that is what "proved" means in its interface);
`Ignoto` may leave anything, and while it writes a destination may pass through any states.
Measured units of the cost model are counts, hence not negative. Function bodies and test marks
are given with the brace that `closing` finds for them, as the guard computes them before it
starts to propagate.

What an operation computes is stated apart from how: the sum of ratios point by point, the plans
of each mode coefficient by coefficient, the value of a binary64 from its fields, the end of a
publication run from the world alone, the accepted command lines from the invocations they carry.
The functions the code uses are proved equal to these.

Where documentation and code differ, the model follows the code. `piano_minimo` documents its
tie-breaking as an order over plans; over the real plans it only holds when the per-byte term is
limited, which `PianoMinimo` states as an equivalence, and `TieRuleFails` shows a program of the
cells mode where it does not. Renaming back does not always restore a name map;
`RenameBackExactly` states exactly when it does, and `RenameBackFails` gives a map it loses.

## Model

| member | source | states |
|---|---|---|
| `GaussJordan.Perno` | scripts/modello_costi.py:262-262 | the first row from the column down with a non-zero entry there, and that none above it has one |
| `GaussJordan.Elimina` | scripts/modello_costi.py:266-269 | the in-place row replacement is the elimination step on values, every row at once |
| `GaussJordan.EliminateKeepsKernel` | scripts/modello_costi.py:266-269 | subtracting the pivot row keeps the set of vectors the rows annihilate |
| `GaussJordan.NoPivot` | scripts/modello_costi.py:262-264 | a column without a pivot yields a non-zero kernel vector, so the matrix is singular |
| `GaussJordan.DiagonalSolves` | scripts/modello_costi.py:270-270 | the final quotients are a solution of the original system and its only one |
| `GaussJordan.Risolvi` | scripts/modello_costi.py:257-270 | for every n: a returned vector is the only solution of the original system; none is returned exactly when the matrix is singular |
| `Vertices.Extract` | scripts/modello_costi.py:291-292 | among active constraints that pin a point down, n suffice, so a choice of n constraints finds it |
| `Vertices.StepDown` | scripts/modello_costi.py:291-296 | along a direction that runs against a constraint there is a feasible step that activates one more constraint and loses none |
| `Vertices.Descend` | scripts/modello_costi.py:291-301 | below every feasible point lies a feasible vertex with a key not larger, if every direction that lowers the key is blocked |
| `MinimalPlan.AdmissibleIsFeasible` | scripts/modello_costi.py:284-288 | the constraint list means covering every peak within the bounds, for every real point |
| `MinimalPlan.ObjectiveIsRatioSum` | scripts/modello_costi.py:282-283 | the cost row evaluates to the sum, point by point, of predicted over measured, a measure counting at least 1048576 bytes |
| `MinimalPlan.CombinationOf` | scripts/modello_costi.py:291-291 | every set of n constraint positions is among the enumerated combinations |
| `MinimalPlan.ChoiceDetermines` | scripts/modello_costi.py:291-294 | n active constraints with a trivial common kernel form a regular system whose solution is the point |
| `MinimalPlan.VertexIsEnumerated` | scripts/modello_costi.py:291-294 | every feasible vertex is the solution of an enumerated choice |
| `MinimalPlan.Candidate` | scripts/modello_costi.py:292-296 | the candidate of a choice is the feasible point it determines, present exactly when there is one |
| `MinimalPlan.BestVertex` | scripts/modello_costi.py:290-303 | the search returns a vertex with the least key of all vertices, and one whenever a vertex exists |
| `MinimalPlan.PlanBlocked` | scripts/modello_costi.py:281-300 | with non-negative units no direction lowers the key for ever, when the per-byte term is limited |
| `MinimalPlan.ByteTermLimitedMeans` | scripts/modello_costi.py:289-299 | the condition of the tie rule read on the data: an upper bound on `c`, or a point with bytes |
| `MinimalPlan.UnlimitedByteTerm` | scripts/modello_costi.py:278-299 | otherwise every plan is beaten at equal cost by one with a larger per-byte term |
| `MinimalPlan.UnlimitedIsBeaten` | scripts/modello_costi.py:278-299 | when the per-byte term is free, every admissible plan has an equally cheap one to be preferred to it |
| `MinimalPlan.KeyOrder` | scripts/modello_costi.py:297-300 | comparing the keys of the code is comparing sums of ratios, then per-byte terms downwards, then the first coefficient that differs |
| `MinimalPlan.PianoMinimo` | scripts/modello_costi.py:273-304 | the error means no admissible real point exists; otherwise the plan is admissible, no admissible point has a smaller sum of ratios, and by the documented order (sum, then the larger `c`, then the smaller coefficients) no vertex is better, and no admissible point exactly when the per-byte term is limited |
| `CostModel.CeilDiv` | scripts/modello_costi.py:106-107 | the least integer whose product with the divisor is not below the numerator |
| `CostModel.CeilFrazione` | scripts/modello_costi.py:110-112 | the least integer not below the fraction |
| `CostModel.PerUnita` | scripts/modello_costi.py:394-395 | the least integer not below the product in thousandths |
| `CostModel.BaseRounding` | scripts/modello_costi.py:394-407 | the prediction is the constant plus the largest of plan and branches plus cells and pairs, rounded up by less than four bytes in all |
| `CostModel.BaseMonotone` | scripts/modello_costi.py:398-407 | a larger input never lowers the prediction |
| `CostModel.RoundedCovers` | scripts/modello_costi.py:341-357 | in all four modes the integer model with ceilings per term predicts at least what the plan, written out for the mode, does |
| `CostModel.FitProgramMeans` | scripts/modello_costi.py:341-354 | in every mode the program built admits exactly the coefficients that cover every peak with `0 <= a <= min y`, `c >= c_minimo` and the others not negative, and minimises the sum of their ratios |
| `CostModel.RoundedIs` | scripts/modello_costi.py:355-357 | the loop over the variables rounds each coefficient of the mode up to the least integer, the constant in bytes and the others in thousandths, and leaves the rest zero |
| `CostModel.TieRuleFails` | scripts/modello_costi.py:278-299 | a program the cells mode builds, a point without bytes, on which every admissible plan is beaten at equal cost |
| `CostModel.FittedCovers` | scripts/modello_costi.py:307-371 | every fitted point is covered, whatever the mode |
| `CostModel.FittedPeaks` | scripts/modello_costi.py:351-353 | a fit exists only for non-negative peaks, since its constant lies between zero and the least of them |
| `CostModel.FittedNonNegative` | scripts/modello_costi.py:351-370 | with a non-negative lower bound on `c` no coefficient of a fit is negative |
| `CostModel.Classi` | scripts/modello_costi.py:359-361 | the classes and their points, no point lost or moved |
| `CostModel.MinClasse` | scripts/modello_costi.py:367-367 | the class with the least width, ties by name |
| `CostModel.MaxClasse` | scripts/modello_costi.py:368-368 | the class with the greatest width, ties by name |
| `CostModel.Larghezze` | scripts/modello_costi.py:363-365 | the width of every class, undefined exactly when the biggest point of one has no rows |
| `CostModel.Inviluppo` | scripts/modello_costi.py:369-370 | the envelope is the least number of thousandths per unit that covers every peak; undefined exactly on a zero unit |
| `CostModel.Rami` | scripts/modello_costi.py:358-370 | the branches are the envelopes of the narrowest and of the widest class; a division by zero is characterised |
| `CostModel.ExtremesMean` | scripts/modello_costi.py:363-368 | the narrowest and the widest class are decided by comparing bytes times rows of the biggest points in integers, ties by name |
| `CostModel.UndefinedMeans` | scripts/modello_costi.py:363-370 | a division by zero means a biggest point without rows, or a point without rows in the narrowest class or without bytes in the widest |
| `CostModel.Adatta` | scripts/modello_costi.py:307-371 | when each error is raised, as equivalences on the data; a returned model is a cheapest plan rounded up with the branches of its mode, and keeps `c >= c_minimo` |
| `CostModel.AdattaEVerifica` | scripts/modello_costi.py:307-415 | the generator's coverage check on its own fit never fails: a fit is returned exactly when the points are not empty, the two branches are defined where they are computed and the program is feasible, and every point of it is covered |
| `CostModel.VerificaCopertura` | scripts/modello_costi.py:410-415 | the check passes exactly when every point is covered |
| `CostModel.PlanExists` | scripts/modello_costi.py:351-353 | a plan exists exactly when the least peak is not negative and every higher peak has a unit that can raise it |
| `CostModel.DefaultFitSucceeds` | scripts/modello_costi.py:347-370 | on points with rows and bytes the default mode never fails |
| `CostModel.BranchCovers` | scripts/modello_costi.py:329-336 | one branch covers the linear cost on every input no further than one of its points |
| `CostModel.Extrapolation` | scripts/modello_costi.py:329-337 | if the true cost is `r1*R + c1*B` and the points are exact, the model covers every input no wider than a point of the narrowest class or no narrower than a point of the widest |
| `CostModel.ExtrapolationOneClass` | scripts/modello_costi.py:337-338 | with a single class the guarantee holds at every width |
| `CostModel.ControllaRami` | scripts/modello_costi.py:387-391 | the counterexample check passes for any exact pair of classes and any inputs outside the measures |
| `CostModel.VerificaControesempioRami` | scripts/modello_costi.py:374-391 | the check with its own figures never fails |
| `StringOrder.BeforeMeans` | scripts/modello_costi.py:367-368 | names are ordered by their first difference, a prefix first |
| `ExpansionLimit.DecodedValue` | crates/plenora-core/src/limits.rs:307-314 | the extracted mantissa and exponent denote the value of the fields: `(1 + fraction / 2^52) * 2^(raw - 1023)`, or `fraction / 2^52 * 2^-1022` for a subnormal |
| `ExpansionLimit.FinitePositiveMeans` | crates/plenora-core/src/limits.rs:301-301 | the guard lets through exactly the factors that are finite with a value above zero |
| `ExpansionLimit.ShiftFits` | crates/plenora-core/src/limits.rs:333-344 | the guard on shift and leading zeros is exactly the absence of overflow |
| `ExpansionLimit.GuardedShlExact` | crates/plenora-core/src/limits.rs:333-343 | the guarded shift is the exact product, or absent exactly when that leaves 128 bits |
| `ExpansionLimit.ScaledComparison` | crates/plenora-core/src/limits.rs:331-345 | the rational comparison with a power of two cleared of its denominator |
| `ExpansionLimit.DecisionExact` | crates/plenora-core/src/limits.rs:300-346 | for every output, every 128-bit base and every positive finite factor, subnormals included, the decision is the rational comparison or the product overflows |
| `ExpansionLimit.DecisionExactOnDomain` | crates/plenora-core/src/limits.rs:297-320 | below 2^66 the product never overflows and the decision is the rational comparison |
| `ExpansionLimit.PublicDecisionExact` | crates/plenora-core/src/limits.rs:283-306 | the public decision is the rational comparison for every 64-bit base, and refuses every non-empty output on a factor that is not finite and positive |
| `ExpansionLimit.SingleBase` | crates/plenora-core/src/catalog.rs:314-335 | a single base: deciding is comparing the exact metric, infinite on an empty base |
| `ExpansionLimit.ExceededIsMetric` | crates/plenora-core/src/catalog.rs:294-335 | every constraint decides as its exact binding metric against its binding threshold, for all counts, zero included; a threshold that is not finite and positive refuses every non-empty output |
| `ExpansionLimit.ConstraintMeans` | crates/plenora-core/src/catalog.rs:294-335 | each constraint as a rational comparison of the counts, or the refusal of every non-empty output on a factor that is not finite and positive; a factor of its own replaces the limit |
| `ExpansionLimit.MaxIsSmallerSide` | crates/plenora-core/src/catalog.rs:314-335 | deciding on the maximum of the two ratios is deciding on the smaller side |
| `ExpansionLimit.LargerBase` | crates/plenora-core/src/catalog.rs:314-335 | exceeding on a larger base implies exceeding on a smaller one |
| `ExpansionLimit.SumIsWeakest` | crates/plenora-core/src/catalog.rs:314-335 | exceeding on the sum implies exceeding on each side and on the maximum |
| `ExpansionLimit.SumAcceptsUniqueKeys` | crates/plenora-core/src/catalog.rs:227-231 | an output of at most both sides together is never refused by the default constraint with a factor of one or more |
| `FieldIdentity.MovesSimultaneously` | crates/plenora-core/src/contract.rs:813-839 | every bound source takes its original identity to its new name, through chains and cycles |
| `FieldIdentity.OthersKept` | crates/plenora-core/src/contract.rs:813-839 | names that no pair touches keep their binding |
| `FieldIdentity.OrderIrrelevant` | crates/plenora-core/src/contract.rs:813-839 | two listings of the same pairs rename alike |
| `FieldIdentity.AbsentSource` | crates/plenora-core/src/contract.rs:813-839 | a pair with an unbound source changes nothing |
| `FieldIdentity.InjectivityKept` | crates/plenora-core/src/contract.rs:813-839 | distinct names keep distinct identities |
| `FieldIdentity.SourceLeft` | crates/plenora-core/src/contract.rs:813-839 | a source that receives nothing loses its name: identities move and are not copied |
| `FieldIdentity.SinglePair` | crates/plenora-core/src/contract.rs:802-839 | renaming one pair is `rename` |
| `FieldIdentity.RenameBackExactly` | crates/plenora-core/src/contract.rs:813-839 | renaming back by the swapped pairs restores the map exactly when no bound target was overwritten |
| `FieldIdentity.RenameBackFails` | crates/plenora-core/src/contract.rs:813-839 | a map that renaming one pair there and back does not restore |
| `FieldIdentity.StepKeepsInv` | crates/plenora-core/src/contract.rs:741-851 | every operation keeps used identities below the cursor and the cursor within 2^32 |
| `FieldIdentity.RunInv` | crates/plenora-core/src/contract.rs:741-851 | the same after every run from a new allocator |
| `FieldIdentity.FreshnessOverRuns` | crates/plenora-core/src/contract.rs:741-851 | in every run a fresh identity was never handed out, observed or bound; asking fails exactly when `u32::MAX` has been used |
| `FieldIdentity.FreshTwice` | crates/plenora-core/src/contract.rs:741-851 | two fresh identities of one run differ |
| `FieldIdentity.InternIsStable` | crates/plenora-core/src/contract.rs:776-785 | over runs, interning a name again answers the same identity unless a rename, derive or bind touched the name |
| `FieldIdentity.DeriveIsRemembered` | crates/plenora-core/src/contract.rs:776-851 | over runs, interning a derived name answers the derived identity |
| `FieldIdentity.BindReplacesAll` | crates/plenora-core/src/contract.rs:776-799 | over runs, after `bind_fields` a bound name answers the identity it was bound with and every other name one never used, or fails at exhaustion |
| `FieldIdentity.RenameMoves` | crates/plenora-core/src/contract.rs:776-807 | over runs, after `rename` the new name answers the identity of the old one, which is forgotten |
| `FieldIdentity.RenameManyMoves` | crates/plenora-core/src/contract.rs:776-839 | over runs, the same for every pair of `rename_many`, through chains and cycles |
| `FieldIdentity.FieldAllocator.AllocId` | crates/plenora-core/src/contract.rs:741-753 | `alloc` is the step of the machine, answer and state |
| `FieldIdentity.FieldAllocator.Peek` | crates/plenora-core/src/contract.rs:758-762 | the identity the next `alloc` gives, or the last one at exhaustion |
| `FieldIdentity.FieldAllocator.ObserveId` | crates/plenora-core/src/contract.rs:764-768 | `observe` is the step of the machine |
| `FieldIdentity.FieldAllocator.InternName` | crates/plenora-core/src/contract.rs:776-785 | `intern` is the step of the machine: a bound name answers its identity, another gets a fresh one |
| `FieldIdentity.FieldAllocator.Bind` | crates/plenora-core/src/contract.rs:793-799 | `bind_fields` drops earlier bindings and moves the cursor past every given identity |
| `FieldIdentity.FieldAllocator.RenameOne` | crates/plenora-core/src/contract.rs:802-807 | `rename` is the step of the machine; an absent name does not consume the target's binding |
| `FieldIdentity.FieldAllocator.RenameAll` | crates/plenora-core/src/contract.rs:813-839 | removal then insertion in place is the simultaneous substitution; ambiguous pairs are refused and change nothing |
| `FieldIdentity.FieldAllocator.DeriveName` | crates/plenora-core/src/contract.rs:847-851 | `derive` is the step of the machine: always a fresh identity |
| `FieldIdentity.FieldAllocator.RecordPublicIdentity` | crates/plenora-core/src/contract.rs:717-719 | the recorded provenance is what is looked up, and every other identity keeps its own |
| `FieldIdentity.FieldAllocator.InheritPublicIdentity` | crates/plenora-core/src/contract.rs:728-733 | a copy takes the provenance of its source; without one nothing changes |
| `GeometryTypes.PrintThenParse` | crates/plenora-core/src/contract.rs:373-474 | every property printed canonically is read back as itself |
| `GeometryTypes.ParseThenPrint` | crates/plenora-core/src/contract.rs:398-474 | an accepted text prints back to exactly itself, so it is strictly ascending and without repeats |
| `GeometryTypes.AcceptedExactlyCanonical` | crates/plenora-core/src/contract.rs:398-431 | the accepted texts are exactly the canonical ones |
| `GeometryTypes.AscendingUnique` | crates/plenora-core/src/contract.rs:373-396 | a set of types has one canonical list |
| `GeometryTypes.NewIsCanonical` | crates/plenora-core/src/contract.rs:373-396 | `new` depends only on which types are given and is idempotent |
| `GeometryTypes.FromCanonicalList` | crates/plenora-core/src/contract.rs:398-431 | the loop stops at the first token that is not canonical, with its error |
| `GeometryTypes.RefusedAtFirstBad` | crates/plenora-core/src/contract.rs:398-431 | a refused list is refused for its first token that no type is written as, repeats the last type or names an earlier one |
| `GeometryTypes.EveryNameIsRead` | crates/plenora-core/src/contract.rs:222-239 | the list of all names in their declared order is canonical and read as all the types |
| `GeometryTypes.ToCanonicalList` | crates/plenora-core/src/contract.rs:465-474 | the loop prints the names joined by commas |
| `DataContracts.CanonicalTypesMean` | crates/plenora-core/src/contract/arrow_metadata.rs:1232-1263 | the two keys are read as a property exactly when they are those it is emitted with, as nothing exactly when both are absent |
| `DataContracts.EmittedTexts` | crates/plenora-core/src/contract/arrow_metadata.rs:868-891 | the keys and texts of an emitted property, spelled out |
| `DataContracts.DeclaredTypesMean` | crates/plenora-core/src/contract.rs:1421-1521 | metadata is accepted exactly when each key it has says of the geometry what the geometry says, or something canonical where it says nothing |
| `DataContracts.EmittedAgrees` | crates/plenora-core/src/contract.rs:1421-1521 | the two canonical keys emitted for a property validate against it |
| `DataContracts.AgreementIsEquality` | crates/plenora-core/src/contract.rs:1507-1520 | comparing declaration and text is comparing properties |
| `DataContracts.ValidateGeometryIdentities` | crates/plenora-core/src/contract.rs:1287-1324 | accepts exactly geometries in schema order, without repeats or omissions |
| `DataContracts.Validate` | crates/plenora-core/src/contract.rs:1199-1285 | accepts exactly the valid contracts |
| `DataContracts.NewContract` | crates/plenora-core/src/contract.rs:1086-1162 | the loops over origins, geometries and fields compute the construction on values and leave the allocator where it says |
| `DataContracts.ConstructKeepsIdentities` | crates/plenora-core/src/contract.rs:1086-1162 | a built contract is valid, names exactly its fields, keeps every preserved identity and numbers the new ones after everything observed |
| `DataContracts.ConstructSucceeds` | crates/plenora-core/src/contract.rs:1086-1162 | `new` succeeds exactly when schema, origins, geometries, active reference, declared order and cursor meet conditions readable before the call |
| `DataContracts.ConstructRunsOut` | crates/plenora-core/src/contract.rs:1086-1162 | `new` runs out of identities exactly when the first two checks pass and the cursor is at its end at a new field before which every field is coherent |
| `DataContracts.NewIdentitiesAreFresh` | crates/plenora-core/src/contract.rs:1086-1162 | all identities are distinct; a new one exceeds every preserved or previously observed one |
| `DataContracts.ActiveFollowsItsColumn` | crates/plenora-core/src/contract.rs:1129-1162 | geometries change only identity and the active reference still names the same column |
| `DataContracts.Rebuild` | crates/plenora-core/src/contract.rs:1059-1081 | observes the whole registry, then constructs |
| `DataContracts.RebuildIsIdentity` | crates/plenora-core/src/contract.rs:1059-1180 | rebuilding a fully identified contract from `field_origins` gives it back and allocates nothing |
| `DataContracts.RebuildKeepsKnownIds` | crates/plenora-core/src/contract.rs:1059-1180 | a partly identified contract keeps the identities it has and the others are fresh |
| `DataContracts.RebuildAvoidsRegistry` | crates/plenora-core/src/contract.rs:1059-1081 | a rebuild needs a valid contract, and whatever the origins a new identity is none of its registry |
| `DataContracts.FromSource` | crates/plenora-core/src/contract.rs:1033-1051 | the source registry is exactly the geometries' names; refused exactly when the result would be invalid |
| `DataContracts.SourceRebuildKeepsGeometries` | crates/plenora-core/src/contract.rs:1033-1180 | a source contract rebuilt keeps its geometries as they are |
| `PlenoraErrors.PhaseKeepsEffect` | crates/plenora-core/src/error.rs:860-892 | a phase tag changes no effect |
| `PlenoraErrors.FirstEffectWins` | crates/plenora-core/src/error.rs:894-958 | the first declared effect wins under any chain of wrappers |
| `PlenoraErrors.OverrideIsFinal` | crates/plenora-core/src/error.rs:912-942 | overriding replaces whatever the chain declared |
| `PlenoraErrors.SafeLeavesNothing` | crates/plenora-core/src/error.rs:735-800 | an error that may be retried blindly reports nothing left behind |
| `PlenoraErrors.SafeExactly` | crates/plenora-core/src/error.rs:735-772 | an error may be retried blindly exactly when its cause is transient and nothing in the chain left an effect; a cause that is not transient is never retried |
| `PlenoraErrors.FirstTagWins` | crates/plenora-core/src/error.rs:801-892 | a phase tag keeps the cause, and an earlier tag under any wrappers wins |
| `PlenoraErrors.UntaggedPhase` | crates/plenora-core/src/error.rs:801-837 | without a tag the cause decides the phase |
| `PlenoraErrors.OverriddenError` | crates/plenora-core/src/error.rs:912-942 | an error stripped of its effects keeps cause and phase and is retried by its cause alone |
| `Publication.Pubblica` | crates/plenora-cli/src/artefatti.rs:557-603 | the loop over the outputs computes the run on values, destinations' history included |
| `Publication.EseguiArtefattiIn` | crates/plenora-cli/src/artefatti.rs:632-747 | the whole call computes the run on values |
| `Publication.PreparationLeavesNothing` | crates/plenora-cli/src/artefatti.rs:632-720 | every failure before the first publication reports no effect |
| `Publication.SucceedsExactly` | crates/plenora-cli/src/artefatti.rs:557-747 | the run succeeds exactly when nothing refuses, interrupts or fails, condition by condition |
| `Publication.RefusedAtOnce` | crates/plenora-cli/src/artefatti.rs:115-142 | which refusal of the request, the destinations or the directory is reported, and how |
| `Publication.StopsAtSource` | crates/plenora-cli/src/artefatti.rs:519-541 | the first source interrupted, unreadable or unlike its declaration ends the run in phase `read`, with nothing touched |
| `Publication.StopsAtExecution` | crates/plenora-cli/src/artefatti.rs:675-678 | a failed plan keeps its cause and phase and loses its effect |
| `Publication.StopsAtReport` | crates/plenora-cli/src/artefatti.rs:682-708 | the first output without a report ends the run with nothing touched |
| `Publication.StopsAtOutput` | crates/plenora-cli/src/artefatti.rs:557-592 | the first output interrupted, not opened or not received whole ends the run: each earlier one is written once and complete, no later one is ever touched, and it is itself touched only if handed over |
| `Publication.ErrorAtOutput` | crates/plenora-cli/src/artefatti.rs:567-591 | the cause, phase, effect and retry of that error |
| `Publication.StopsAfterLast` | crates/plenora-cli/src/artefatti.rs:593-714 | after the last output an interruption is `finalize` and a failed cleanup `cleanup`, both committed |
| `Publication.EffectIsSound` | crates/plenora-cli/src/artefatti.rs:557-747 | for all answers and interruptions: success means every destination complete, and the effect of an error is true of the destinations |
| `Publication.AlwaysInOrder` | crates/plenora-cli/src/artefatti.rs:557-603 | at every moment, also while the resolver writes, the complete destinations are a prefix in plan order with at most one touched beyond |
| `Publication.RetryIsSafe` | crates/plenora-cli/src/artefatti.rs:557-747 | an error that may be retried blindly has touched no destination |
| `Publication.PublishingPhase` | crates/plenora-cli/src/artefatti.rs:557-603 | publication errors are in phase `write`, except after the last output: `finalize`, committed, not retried automatically |
| `Publication.CommittedAfterAll` | crates/plenora-cli/src/artefatti.rs:557-747 | a committed effect means failing after the last output, with every destination complete and no automatic retry |
| `Publication.EffectDetermined` | crates/plenora-cli/src/artefatti.rs:557-747 | with an output, the destinations determine the reported effect when it is not unknown |
| `Publication.VerificaNomi` | crates/plenora-cli/src/api.rs:360-389 | accepts exactly the declared names each once; otherwise the first offending occurrence or, if no given name is at fault, the first declared name left out |
| `SourceImprint.ChunkingIndependence` | crates/plenora-cli/src/artefatti.rs:351-366 | however the content is cut and wherever writes stop short, count, hash state and kept bytes are those of the whole |
| `SourceImprint.SignatureOnPrefix` | crates/plenora-cli/src/artefatti.rs:332-341 | judging the kept bytes is judging the whole content |
| `SourceImprint.OneFormat` | crates/plenora-cli/src/artefatti.rs:332-341 | a content is coherent with exactly the format its first bytes spell |
| `SourceImprint.Impronta.Write` | crates/plenora-cli/src/artefatti.rs:351-361 | a write adds exactly the bytes the inner writer took |
| `SourceImprint.LeggiSorgente` | crates/plenora-cli/src/artefatti.rs:396-441 | a copied source is judged on its whole content: which error is raised, and acceptance, as equivalences in the order of the checks |
| `CommandLine.LeggiFlag` | crates/plenora-cli/src/argomenti.rs:216-289 | one group read, applied and counted, or an error exactly when there is none or it is refused |
| `CommandLine.LeggiComando` | crates/plenora-cli/src/argomenti.rs:180-203 | the first loop finds the command after the formats |
| `CommandLine.NomeComando` | crates/plenora-cli/src/argomenti.rs:95-108 | the loop finds the first token that is neither `--format` nor its value |
| `CommandLine.NomeComandoMeans` | crates/plenora-cli/src/argomenti.rs:95-108 | the command named is the first token at an even distance that is not `--format`, whatever stands as value |
| `CommandLine.Leggi` | crates/plenora-cli/src/argomenti.rs:180-213 | the two loops and the composition are the reading on values |
| `CommandLine.EveryTokenConsumed` | crates/plenora-cli/src/argomenti.rs:204-206 | every token after the command of an accepted line belongs to exactly one group |
| `CommandLine.AcceptedIsLine` | crates/plenora-cli/src/argomenti.rs:95-213 | an accepted line is formats, the command and groups, and `nome_comando` names that command |
| `CommandLine.LineIsRead` | crates/plenora-cli/src/argomenti.rs:180-213 | reading such a line is folding its groups, wherever the command stands among the formats |
| `CommandLine.FoldMeans` | crates/plenora-cli/src/argomenti.rs:127-148 | the groups are accepted exactly when their values meet the grammar's conditions, which mention no order |
| `CommandLine.ReadsExactly` | crates/plenora-cli/src/argomenti.rs:180-364 | a line is read as an invocation exactly when the grammar can express the invocation and the line is formats, its command and groups carrying its values |
| `CommandLine.OrderDoesNotMatter` | crates/plenora-cli/src/argomenti.rs:180-289 | reordering groups, repeated inputs and outputs keeping theirs, or moving the format, changes nothing read |
| `CommandLine.PrintThenRead` | crates/plenora-cli/src/argomenti.rs:180-364 | a printed well-formed invocation is read back as itself |
| `CommandLine.ReadIsWellFormed` | crates/plenora-cli/src/argomenti.rs:180-364 | reading yields well-formed invocations only, under the name `nome_comando` reports |
| `CommandLine.ReadThenPrint` | crates/plenora-cli/src/argomenti.rs:180-364 | printing what was read gives a line read the same |
| `CommandLine.PrintedRun` | crates/plenora-cli/src/argomenti.rs:15-24 | the tokens of a printed `run` line, spelled out |
| `CommandLine.PrintedValidate` | crates/plenora-cli/src/argomenti.rs:15-24 | those of a `validate` line |
| `CommandLine.PrintedDescribe` | crates/plenora-cli/src/argomenti.rs:15-24 | those of a `describe` line |
| `CommandLine.PrintedAlone` | crates/plenora-cli/src/argomenti.rs:15-24 | those of the commands without flags |
| `CommandLine.DecimalReads` | crates/plenora-cli/src/argomenti.rs:256-275 | milliseconds written in decimal are read back |
| `CommandLine.LeadingZero` | crates/plenora-cli/src/argomenti.rs:256-275 | leading zeros change nothing |
| `CommandLine.SplitMeans` | crates/plenora-cli/src/argomenti.rs:292-299 | the split is at the first `=`, or there is none |
| `Brackets.WindowAgrees` | scripts/rust_esito_tokens.py:94-107 | inside a window that nests by itself every matching of the whole agrees with it |
| `Brackets.MatchingIsUnique` | scripts/rust_esito_tokens.py:94-107 | a sequence has at most one properly nested matching |
| `Brackets.Pairs` | scripts/rust_esito_tokens.py:94-107 | succeeds exactly when a properly nested matching exists, and returns it; refuses as unbalanced exactly what no further tokens can make nest, and so as unterminated what some can |
| `Brackets.MismatchRefutes` | scripts/rust_esito_tokens.py:100-102 | a closing token that does not answer the innermost open one leaves no continuation that nests |
| `Brackets.OpenIsCompletable` | scripts/rust_esito_tokens.py:105-106 | a sequence scanned to its end nests after some further tokens |
| `Brackets.ProperIffGenerated` | scripts/rust_esito_tokens.py:94-107 | such matchings exist exactly for the sequences of the bracket grammar |
| `UseTrees.WalkTree` | scripts/rust_esito_tokens.py:117-138 | the loop with its recursion is the walk on values, past the last token included |
| `UseTrees.Aliases` | scripts/rust_esito_tokens.py:110-145 | fails exactly on unbalanced delimiters or past the last token, and otherwise returns the names of all walks |
| `UseTrees.WithoutSelfDenotes` | scripts/rust_esito_tokens.py:130-131 | dropping a final `self` decides whether a path leads to a target |
| `UseTrees.GroupMatched` | scripts/rust_esito_tokens.py:122-125 | the group of a printed tree ends where it was printed to end, in any surrounding source |
| `UseTrees.WalkPrintedTree` | scripts/rust_esito_tokens.py:117-138 | walking over a printed tree adds exactly the aliases whose expanded path is a target |
| `UseTrees.WalkPrintedSiblings` | scripts/rust_esito_tokens.py:117-138 | the same for the trees of a group, each from the group's own path |
| `UseTrees.AliasesAreExact` | scripts/rust_esito_tokens.py:110-145 | over a whole source the result is the symbol and exactly the names its `use` declarations give it |
| `TestPropagation.ScanMeans` | scripts/check_esito_unico.py:86-92 | the scan ends at the first position where as many braces have closed as opened, or nowhere |
| `TestPropagation.Closing` | scripts/check_esito_unico.py:86-92 | the loop returns that position, and nothing exactly when there is none |
| `TestPropagation.BodiesNest` | scripts/check_esito_unico.py:86-92 | a body that begins inside another ends inside it |
| `TestPropagation.SaturatedIsLeast` | scripts/check_esito_unico.py:144-158 | ranges with nothing to add cover exactly what the least closed set covers |
| `TestPropagation.Round` | scripts/check_esito_unico.py:145-155 | one round finds exactly the uncovered eligible functions called, and called from inside only |
| `TestPropagation.Propagate` | scripts/check_esito_unico.py:144-158 | the loop ends, keeps the initial ranges and covers exactly what the least set closed under helpers covers |
| `TestPropagation.ModulesOf` | scripts/check_esito_unico.py:304-317 | the existing files a file's modules name, all of them in a test file and the marked ones otherwise |
| `TestPropagation.TestFiles` | scripts/check_esito_unico.py:298-320 | the loop ends with the least set of test files, which join the known ones |
| `RequirementWalk.RequirementsInOrder` | scripts/genera_sbom_rilascio.py:133-146 | the requirements of a file are its lines that are no includes, in order |
| `RequirementWalk.RevisitIsCycle` | scripts/genera_sbom_rilascio.py:129-130 | a file met again while being visited closes a reachable cycle |
| `RequirementWalk.FinishedIsClean` | scripts/genera_sbom_rilascio.py:147-148 | finished files that hold the roots hold all that is reachable, without cycles or bad includes |
| `RequirementWalk.Inventory.Visit` | scripts/genera_sbom_rilascio.py:125-148 | the recursion ends, collects the file, leaves the visiting set as it was, or names something wrong that is reachable |
| `RequirementWalk.Collect` | scripts/genera_sbom_rilascio.py:118-151 | fails exactly when a missing file, a malformed include or a cycle is reachable, with an error that is true; among well-formed files exactly on a cycle; otherwise exactly the reachable files |

## Left out

- Files, processes, archives and the network: their outcomes are parameters, as is SHA-256.
- The JSON request of `data.run` 3 and `riferimento_valido`: request parsing is not part of the run modelled here.
- Wording of errors, exit codes, help text, the operation catalog and alias tables.
- `tokenize`: the guards start from token sequences.
- Regular expressions of the guards: a function comes with its call positions and whether its declaration is eligible, a requirement line with its kind; `category_proven`, `mask` and `body_start` are not modelled.
- The pins read from requirement lines, and the components and edges built from them.
- `rapporto` and the emission of the cost model, including its safety factor.
- The integration branch of `test_ranges`, which returns one range and does not propagate.
- Rounding of the reported expansion metrics: they are exact here, since no decision reads them.
- CRS resolution, and geometry metadata beyond the keys `validate` compares.
- Physical types: a field is binary or not.
- Unicode: strings are sequences of characters, paths included.
- UseTrees.Walk: on sources that are not `use` trees the walk is modelled but nothing is claimed about its names.
