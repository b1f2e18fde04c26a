# Lazy declaration resolve, instruction liveness and group commonization, modelled in Dafny

This project models three pieces of the Kotlin compiler and IDE plugin.

**Lazy resolve of FIR declarations in the IDE.** The IDE builds FIR (the compiler's front-end
tree) for a file without resolving it. It resolves a declaration only when someone asks,
and only up to the phase that was asked for. `FirLazyDeclarationResolver` is the driver:

- It guards the request: the `RAW_FIR` phase, a declaration that is not available for
  resolve, and a file are handled first.
- It finds the non-local declaration that has to be resolved in place of the one asked for.
- It runs the non-lazy phases (up to `IMPORTS`) file-wise.
- It then runs every later phase, one by one, through a designated transformer.

A designation is the path of containing classes, the target and its file. Each
declaration carries two phases:

- its own `resolvePhase`;
- a `resolvePhaseWithForAllDeclarations` marker. A designation counts as resolved to a
  phase when the largest marker along its path and target has reached that phase.

The transformers for `SUPER_TYPES` and `TYPES` are modelled in full:

- the supertype worklist, which follows supertype references across files until closed;
- the apply step, with its `ensureResolvedDeep` checks;
- the type walk over the file, with its `ensureResolved` checks.

In the model, the tree is a class, `FirTree.DeclarationTree`. Its fields are the maps the
resolver updates in place: phases, markers and type references. The shape of the tree is
immutable data. Work the model does not look inside is recorded in a ghost event log.

**Instruction liveness on JVM bytecode.** `InstructionLivenessAnalyzer` marks the
instructions that control can reach from the entry. It follows fall-through, jumps,
switches and exception handlers, using a worklist kept in arrays. It then marks the labels
that local variables and try/catch blocks refer to. The model keeps the class, its arrays
and its methods. It proves two things:

- a marking that succeeds is exactly the reachable set, plus the always-live labels;
- the only failure is a reachable last instruction that falls through past the end.

**Group commonization.** `commonize` feeds the declarations of one group, one per target
platform, to a commonizer. It gives up at the first missing declaration or the first
rejection. The model proves that the result is produced exactly when every slot is
present and accepted. It also proves which declarations were fed to the commonizer.

Where the apparent intent of the resolver and its code differ, the model follows the code:

- a designated transformer raises the marker of its target and never the markers of the
  path or the file. The `TYPES` transformer also raises the markers of everything nested
  in the target. Outside the target its walk passes through the file and the path classes
  without marking them, so a sibling designation does not become "resolved" by the
  transform;
- `lazyResolveDeclaration` of a non-file declaration to `IMPORTS` raises no marker, so it
  is never found "already resolved";
- the `SEALED_CLASS_INHERITORS` phase runs a transformer that does nothing, and it marks
  nothing;
- `SUPER_TYPES` on a target that is not class-like and has an empty path returns without
  marking.

The modules follow the source files:

| module | file | models |
|---|---|---|
| `Phases` | `phases.dfy` | the nine `FirResolvePhase` values the resolver names, ordered |
| `FirTree` | `fir_tree.dfy` | the declaration tree, its designations, failures and event log |
| `LazyTransformer` | `lazy_transformer.dfy` | the `FirLazyTransformerForIDE` companion |
| `FileResolve` | `file_resolve.dfy` | the file branch of `lazyResolveDeclaration` and the file-annotation resolve |
| `LazyResolver` | `lazy_resolver.dfy` | `FirLazyDeclarationResolver` |
| `SupertypeResolver` | `supertype_resolver.dfy` | `FirDesignatedSupertypeResolverTransformerForIDE` |
| `TypeResolver` | `type_resolver.dfy` | `FirDesignatedTypeResolverTransformerForIDE` |
| `InstructionLiveness` | `liveness.dfy` | `InstructionLivenessAnalyzer` |
| `Commonization` | `commonizer.dfy` | the two `commonize` functions of `nodeBuilders.kt` |
| `Wrappers` | `wrappers.dfy` | `Option`, `Result` and `Outcome` |

## Model

| member | source | states |
|---|---|---|
| Phases.Max | idea/idea-frontend-fir/idea-fir-low-level-api/src/org/jetbrains/kotlin/idea/fir/low/level/api/lazy/resolve/FirLazyDeclarationResolver.kt:414 | `maxOf` on phases: an upper bound of both arguments, and one of them |
| Phases.Min | idea/idea-frontend-fir/idea-fir-low-level-api/src/org/jetbrains/kotlin/idea/fir/low/level/api/lazy/resolve/FirLazyDeclarationResolver.kt:394 | `minOf` on phases: a lower bound of both arguments, and one of them |
| Phases.Next | idea/idea-frontend-fir/idea-fir-low-level-api/src/org/jetbrains/kotlin/idea/fir/low/level/api/lazy/resolve/FirLazyDeclarationResolver.kt:536 | `currentPhase.next` is the phase whose ordinal is one higher |
| FirTree.Designation.ToSequence | idea/idea-frontend-fir/idea-fir-low-level-api/src/org/jetbrains/kotlin/idea/fir/low/level/api/transformers/FirLazyTransformerForIDE.kt:41 | `toSequence(includeTarget = true)`: the path followed by the target, holding exactly the path's declarations and the target |
| FirTree.DesignationWalk | idea/idea-frontend-fir/idea-fir-low-level-api/src/org/jetbrains/kotlin/idea/fir/low/level/api/transformers/FirDesignatedSupertypeResolverTransformerForIDE.kt:154 | what a designated transformer walks in the file includes the target and everything nested in it |
| LazyTransformer.ResolvePhaseWithForAllDeclarations | idea/idea-frontend-fir/idea-fir-low-level-api/src/org/jetbrains/kotlin/idea/fir/low/level/api/transformers/FirLazyTransformerForIDE.kt:20-25 | an absent marker reads as `RAW_FIR`; a present one reads as stored |
| LazyTransformer.SetResolvePhaseWithForAllDeclarations | idea/idea-frontend-fir/idea-fir-low-level-api/src/org/jetbrains/kotlin/idea/fir/low/level/api/transformers/FirLazyTransformerForIDE.kt:26-31 | the setter stores the value for that declaration and changes no other marker |
| LazyTransformer.Updated | idea/idea-frontend-fir/idea-fir-low-level-api/src/org/jetbrains/kotlin/idea/fir/low/level/api/transformers/FirLazyTransformerForIDE.kt:33-38 | the raised marker is the maximum of the old marker and the phase; every other marker is unchanged; markers never decrease |
| LazyTransformer.UpdateResolvedForAllDeclarations | idea/idea-frontend-fir/idea-fir-low-level-api/src/org/jetbrains/kotlin/idea/fir/low/level/api/transformers/FirLazyTransformerForIDE.kt:33-38 | the declaration's marker becomes `Updated` of the old markers |
| LazyTransformer.UpdatedIdempotent | idea/idea-frontend-fir/idea-fir-low-level-api/src/org/jetbrains/kotlin/idea/fir/low/level/api/transformers/FirLazyTransformerForIDE.kt:33-38 | raising a marker twice to the same phase is the same as raising it once |
| LazyTransformer.MarkersGrowRead | idea/idea-frontend-fir/idea-fir-low-level-api/src/org/jetbrains/kotlin/idea/fir/low/level/api/transformers/FirLazyTransformerForIDE.kt:33-38 | once markers have only grown, every marker reads at least as high as before |
| LazyTransformer.MaxByMarker | idea/idea-frontend-fir/idea-fir-low-level-api/src/org/jetbrains/kotlin/idea/fir/low/level/api/transformers/FirLazyTransformerForIDE.kt:41-43 | `maxByOrNull`: none exactly for an empty sequence, otherwise a member whose marker bounds every member's marker |
| LazyTransformer.AllContainingPhase | idea/idea-frontend-fir/idea-fir-low-level-api/src/org/jetbrains/kotlin/idea/fir/low/level/api/transformers/FirLazyTransformerForIDE.kt:41-44 | `RAW_FIR` for an empty sequence; otherwise the marker of some member, bounding every member's marker |
| LazyTransformer.ResolvePhaseForAllDeclarations | idea/idea-frontend-fir/idea-fir-low-level-api/src/org/jetbrains/kotlin/idea/fir/low/level/api/transformers/FirLazyTransformerForIDE.kt:40-46 | off-air: the largest marker over path and target; on-air: the smaller of that and the target's own resolve phase |
| LazyTransformer.AllContainingReached | idea/idea-frontend-fir/idea-fir-low-level-api/src/org/jetbrains/kotlin/idea/fir/low/level/api/transformers/FirLazyTransformerForIDE.kt:41-44 | the largest marker of a non-empty sequence reaches a phase exactly when some member's marker does |
| LazyTransformer.IsResolvedForAllDeclarations | idea/idea-frontend-fir/idea-fir-low-level-api/src/org/jetbrains/kotlin/idea/fir/low/level/api/transformers/FirLazyTransformerForIDE.kt:49-50 | a designation is resolved to a phase exactly when some marker on its path or target has reached it and, with on-air resolve, the target's own phase has reached it too |
| LazyTransformer.OnAirResolvedIsResolved | idea/idea-frontend-fir/idea-fir-low-level-api/src/org/jetbrains/kotlin/idea/fir/low/level/api/transformers/FirLazyTransformerForIDE.kt:45-50 | resolved on-air implies resolved off-air |
| LazyTransformer.ResolvedDownwardClosed | idea/idea-frontend-fir/idea-fir-low-level-api/src/org/jetbrains/kotlin/idea/fir/low/level/api/transformers/FirLazyTransformerForIDE.kt:49-50 | resolved to a phase implies resolved to every earlier phase |
| LazyTransformer.MarkerBoundsDesignation | idea/idea-frontend-fir/idea-fir-low-level-api/src/org/jetbrains/kotlin/idea/fir/low/level/api/transformers/FirLazyTransformerForIDE.kt:40-46 | every marker on the path or target is bounded by the designation's phase |
| LazyTransformer.AllContainingMonotone | idea/idea-frontend-fir/idea-fir-low-level-api/src/org/jetbrains/kotlin/idea/fir/low/level/api/transformers/FirLazyTransformerForIDE.kt:41-44 | the largest marker of a sequence only grows when markers grow |
| LazyTransformer.ResolvedStable | idea/idea-frontend-fir/idea-fir-low-level-api/src/org/jetbrains/kotlin/idea/fir/low/level/api/transformers/FirLazyTransformerForIDE.kt:33-50 | a designation stays resolved while markers only grow |
| LazyTransformer.ResolvePhaseLocal | idea/idea-frontend-fir/idea-fir-low-level-api/src/org/jetbrains/kotlin/idea/fir/low/level/api/transformers/FirLazyTransformerForIDE.kt:40-46 | a designation's phase depends only on the markers of its path and target: markers that agree there give the same phase |
| LazyTransformer.UpdatedResolves | idea/idea-frontend-fir/idea-fir-low-level-api/src/org/jetbrains/kotlin/idea/fir/low/level/api/transformers/FirLazyTransformerForIDE.kt:33-50 | raising the marker of any declaration on the path or target resolves the designation to that phase |
| LazyTransformer.ContainingDeclarations | idea/idea-frontend-fir/idea-fir-low-level-api/src/org/jetbrains/kotlin/idea/fir/low/level/api/transformers/FirLazyTransformerForIDE.kt:57-61 | a regular class or anonymous object gives its member declarations; anything else gives none |
| FileResolve.IsAvailableForResolve | idea/idea-frontend-fir/idea-fir-low-level-api/src/org/jetbrains/kotlin/idea/fir/low/level/api/lazy/resolve/FirLazyDeclarationResolver.kt:289-292 | source, synthetic and substitution-override declarations are available; any other origin fails its check unless already at `BODY_RESOLVE` |
| FileResolve.ShouldResolve | idea/idea-frontend-fir/idea-fir-low-level-api/src/org/jetbrains/kotlin/idea/fir/low/level/api/lazy/resolve/FirLazyDeclarationResolver.kt:307-308 | the two guards: `RAW_FIR` returns at once; an unavailable declaration returns or fails as `isAvailableForResolve` says |
| FileResolve.RunFileWiseResolve | idea/idea-frontend-fir/idea-fir-low-level-api/src/org/jetbrains/kotlin/idea/fir/low/level/api/lazy/resolve/FirLazyDeclarationResolver.kt:395-403 | the file-wise run raises the file's phase to at least the target phase and records the run |
| FileResolve.RunNonLazyResolve | idea/idea-frontend-fir/idea-fir-low-level-api/src/org/jetbrains/kotlin/idea/fir/low/level/api/lazy/resolve/FirLazyDeclarationResolver.kt:393-405 | runs the file-wise part only when `fromPhase` is below `min(toPhase, IMPORTS)`; reports that designated phases remain exactly when `fromPhase < toPhase` and `toPhase` is beyond `IMPORTS` |
| FileResolve.ResolveFileAnnotationsWithoutLock | idea/idea-frontend-fir/idea-fir-low-level-api/src/org/jetbrains/kotlin/idea/fir/low/level/api/lazy/resolve/FirLazyDeclarationResolver.kt:224-237 | records one annotation resolve of the file |
| FileResolve.ResolveFileAnnotations | idea/idea-frontend-fir/idea-fir-low-level-api/src/org/jetbrains/kotlin/idea/fir/low/level/api/lazy/resolve/FirLazyDeclarationResolver.kt:202-218 | resolves the file to `IMPORTS` first, then its annotations; fails exactly when the file is unavailable and not yet at `BODY_RESOLVE`; no other declaration's phase changes |
| FileResolve.LazyResolveFile | idea/idea-frontend-fir/idea-fir-low-level-api/src/org/jetbrains/kotlin/idea/fir/low/level/api/lazy/resolve/FirLazyDeclarationResolver.kt:311-330 | a file request beyond `TYPES` fails its check; otherwise the file reaches `IMPORTS`, and its annotations are resolved too when more than `IMPORTS` was asked; no other declaration's phase changes |
| LazyResolver.DeclarationCanBeLazilyResolved | idea/idea-frontend-fir/idea-fir-low-level-api/src/org/jetbrains/kotlin/idea/fir/low/level/api/lazy/resolve/FirLazyDeclarationResolver.kt:684-703 | each PSI case: unnamed, destructuring entry, lambda, type parameter or primary constructor gives false; a parameter needs `val`/`var` and a class id; a callable or enum entry needs a file parent or a class body with a class id; a class-like needs a class id; anything else is an error |
| LazyResolver.FindSourceNonLocalFirDeclaration | idea/idea-frontend-fir/idea-fir-low-level-api/src/org/jetbrains/kotlin/idea/fir/low/level/api/lazy/resolve/FirLazyDeclarationResolver.kt:659-663 | finds the FIR declaration exactly when the PSI element has one, and fails otherwise |
| LazyResolver.KtDeclarationOf | idea/idea-frontend-fir/idea-fir-low-level-api/src/org/jetbrains/kotlin/idea/fir/low/level/api/lazy/resolve/FirLazyDeclarationResolver.kt:666-670 | the PSI declaration found, when any, is a known PSI element |
| LazyResolver.GetNonLocalDeclarationToResolve | idea/idea-frontend-fir/idea-fir-low-level-api/src/org/jetbrains/kotlin/idea/fir/low/level/api/lazy/resolve/FirLazyDeclarationResolver.kt:635-679 | a file or a lazily resolvable real-source declaration is its own target; an accessor, parameter or type parameter goes to its containing resolvable declaration when that can be lazily resolved, otherwise to the FIR declaration of that declaration's non-local container; any other declaration that is fake-source or not lazily resolvable goes to the FIR declaration of its non-local container; a real-source declaration whose lazy-resolve check errs fails with that error; a declaration with no PSI declaration fails |
| LazyResolver.NonLocalContainerFir | idea/idea-frontend-fir/idea-fir-low-level-api/src/org/jetbrains/kotlin/idea/fir/low/level/api/lazy/resolve/FirLazyDeclarationResolver.kt:676-678 | succeeds exactly when the PSI element has a non-local container with a FIR declaration, and then gives that declaration; otherwise fails with `ContainingDeclarationNotFound` |
| LazyResolver.NonLocalContainer | idea/idea-frontend-fir/idea-fir-low-level-api/src/org/jetbrains/kotlin/idea/fir/low/level/api/lazy/resolve/FirLazyDeclarationResolver.kt:676-677 | `getNonLocalContainingOrThisDeclaration() ?: error(...)`: the container when there is one, otherwise `ContainingDeclarationNotFound` |
| LazyResolver.ContainingResolvable | idea/idea-frontend-fir/idea-fir-low-level-api/src/org/jetbrains/kotlin/idea/fir/low/level/api/lazy/resolve/FirLazyDeclarationResolver.kt:640-653 | the declaration an accessor or parameter resolves through: the property of an accessor, a property itself, or the container of a parameter or type parameter; a default accessor built from a delegate call gives its property; no PSI or any other PSI fails |
| LazyResolver.TargetElement | idea/idea-frontend-fir/idea-fir-low-level-api/src/org/jetbrains/kotlin/idea/fir/low/level/api/lazy/resolve/FirLazyDeclarationResolver.kt:654-658 | the element itself when it can be lazily resolved, otherwise its non-local container; an element that is not a declaration, or whose lazy-resolve check errs, fails |
| LazyResolver.DesignationToResolve | idea/idea-frontend-fir/idea-fir-low-level-api/src/org/jetbrains/kotlin/idea/fir/low/level/api/lazy/resolve/FirLazyDeclarationResolver.kt:522-524 | the designation fails exactly when finding the non-local declaration fails; otherwise it is that declaration's own designation in the given file |
| LazyResolver.CreateLazyTransformer | idea/idea-frontend-fir/idea-fir-low-level-api/src/org/jetbrains/kotlin/idea/fir/low/level/api/lazy/resolve/FirLazyDeclarationResolver.kt:579-633 | a phase up to `IMPORTS` has no transformer (error); every later phase gets the transformer of that phase, built on the designation and on-air flag |
| LazyResolver.CreateLazyTransformerOfPhase | idea/idea-frontend-fir/idea-fir-low-level-api/src/org/jetbrains/kotlin/idea/fir/low/level/api/lazy/resolve/FirLazyDeclarationResolver.kt:587-633 | every transformer is the one `createLazyTransformer` builds for its own phase |
| LazyResolver.PhasesToRunSound | idea/idea-frontend-fir/idea-fir-low-level-api/src/org/jetbrains/kotlin/idea/fir/low/level/api/lazy/resolve/FirLazyDeclarationResolver.kt:535-551 | every phase the loop runs is after `fromPhase`, at most `toPhase`, and not a plugin phase |
| LazyResolver.PhasesToRunComplete | idea/idea-frontend-fir/idea-fir-low-level-api/src/org/jetbrains/kotlin/idea/fir/low/level/api/lazy/resolve/FirLazyDeclarationResolver.kt:535-551 | every non-plugin phase after `fromPhase` and up to `toPhase` is run |
| LazyResolver.PhasesToRunMembers | idea/idea-frontend-fir/idea-fir-low-level-api/src/org/jetbrains/kotlin/idea/fir/low/level/api/lazy/resolve/FirLazyDeclarationResolver.kt:535-551 | both directions together: a phase is run exactly when it lies in `(fromPhase, toPhase]` and is not a plugin phase |
| LazyResolver.PhasesToRunIncreasing | idea/idea-frontend-fir/idea-fir-low-level-api/src/org/jetbrains/kotlin/idea/fir/low/level/api/lazy/resolve/FirLazyDeclarationResolver.kt:535-551 | the loop runs the phases in strictly increasing order, each once |
| LazyResolver.PhasesToRunStep | idea/idea-frontend-fir/idea-fir-low-level-api/src/org/jetbrains/kotlin/idea/fir/low/level/api/lazy/resolve/FirLazyDeclarationResolver.kt:535-537 | one more step of the loop appends the next phase unless it is a plugin phase |
| LazyResolver.RunMarkingTransformer | idea/idea-frontend-fir/idea-fir-low-level-api/src/org/jetbrains/kotlin/idea/fir/low/level/api/lazy/resolve/FirLazyDeclarationResolver.kt:605-631 | an already resolved designation is left alone; otherwise the target's marker is raised to the phase; afterwards the designation is resolved to it |
| LazyResolver.RunSupertypeTransformer | idea/idea-frontend-fir/idea-fir-low-level-api/src/org/jetbrains/kotlin/idea/fir/low/level/api/lazy/resolve/FirLazyDeclarationResolver.kt:588-597 | runs the supertype transformer; markers and phases only grow |
| LazyResolver.RunTypeTransformer | idea/idea-frontend-fir/idea-fir-low-level-api/src/org/jetbrains/kotlin/idea/fir/low/level/api/lazy/resolve/FirLazyDeclarationResolver.kt:599-604 | runs the type transformer; afterwards the designation is resolved to `TYPES` |
| LazyResolver.TransformDeclaration | idea/idea-frontend-fir/idea-fir-low-level-api/src/org/jetbrains/kotlin/idea/fir/low/level/api/lazy/resolve/FirLazyDeclarationResolver.kt:574-575 | the dummy transformer changes nothing; a marking transformer leaves its designation resolved to its phase |
| LazyResolver.RunLazyResolvePhase | idea/idea-frontend-fir/idea-fir-low-level-api/src/org/jetbrains/kotlin/idea/fir/low/level/api/lazy/resolve/FirLazyDeclarationResolver.kt:554-577 | `SEALED_CLASS_INHERITORS` changes nothing; `TYPES` and later phases leave the designation resolved to that phase |
| LazyResolver.RunLazyResolveWithoutLock | idea/idea-frontend-fir/idea-fir-low-level-api/src/org/jetbrains/kotlin/idea/fir/low/level/api/lazy/resolve/FirLazyDeclarationResolver.kt:384-419 | nothing happens when `fromPhase >= toPhase`; the file is resolved file-wise to `min(toPhase, IMPORTS)`; beyond `IMPORTS` the designated phases in `(max(fromPhase, IMPORTS), toPhase]` run and the target ends resolved to `toPhase` |
| LazyResolver.RunLazyDesignatedResolveWithoutLock | idea/idea-frontend-fir/idea-fir-low-level-api/src/org/jetbrains/kotlin/idea/fir/low/level/api/lazy/resolve/FirLazyDeclarationResolver.kt:491-552 | a file stops after its annotations; a failed lookup fails; a local designation fails its check; otherwise exactly the non-plugin phases after `max(fromPhase, IMPORTS)` run, in order, and the designation ends resolved |
| LazyResolver.RunDesignatedPhases | idea/idea-frontend-fir/idea-fir-low-level-api/src/org/jetbrains/kotlin/idea/fir/low/level/api/lazy/resolve/FirLazyDeclarationResolver.kt:535-551 | the loop runs exactly `PhasesToRun`, and the designation ends resolved to `toPhase` |
| LazyResolver.LazyResolveDeclaration | idea/idea-frontend-fir/idea-fir-low-level-api/src/org/jetbrains/kotlin/idea/fir/low/level/api/lazy/resolve/FirLazyDeclarationResolver.kt:300-377 | the guards return or fail with nothing changed; a file takes the file branch; a failed lookup or a missing file fails with nothing changed; an already resolved designation returns; otherwise the target ends resolved to `toPhase` |
| LazyResolver.LazyResolveDeclarationForResolveType | idea/idea-frontend-fir/idea-fir-low-level-api/src/org/jetbrains/kotlin/idea/fir/low/level/api/lazy/resolve/FirLazyDeclarationResolver.kt:48-56 | any request other than a callable's return type fails its check with nothing changed; that request resolves the declaration to `IMPLICIT_TYPES_BODY_RESOLVE` |
| LazyResolver.LazyDesignatedResolveDeclaration | idea/idea-frontend-fir/idea-fir-low-level-api/src/org/jetbrains/kotlin/idea/fir/low/level/api/lazy/resolve/FirLazyDeclarationResolver.kt:428-484 | the same guards; the designation in the given file is checked for already being resolved, on-air when asked; otherwise the designated run leaves it resolved to `toPhase` |
| LazyResolver.ResolvedInAnyFile | idea/idea-frontend-fir/idea-fir-low-level-api/src/org/jetbrains/kotlin/idea/fir/low/level/api/lazy/resolve/FirLazyDeclarationResolver.kt:443-445 | whether a designation is resolved does not depend on the file it is collected in |
| SupertypeResolver.TargetDesignation | idea/idea-frontend-fir/idea-fir-low-level-api/src/org/jetbrains/kotlin/idea/fir/low/level/api/transformers/FirDesignatedSupertypeResolverTransformerForIDE.kt:98-103 | a class-like target is its own target; otherwise the last path element, which must be class-like, is the target with the rest of the path; an empty path returns |
| SupertypeResolver.TargetOnDesignation | idea/idea-frontend-fir/idea-fir-low-level-api/src/org/jetbrains/kotlin/idea/fir/low/level/api/transformers/FirDesignatedSupertypeResolverTransformerForIDE.kt:98-103 | the chosen target lies on the original designation, and its path is part of the original path |
| SupertypeResolver.CollectDesignation | idea/idea-frontend-fir/idea-fir-low-level-api/src/org/jetbrains/kotlin/idea/fir/low/level/api/transformers/FirDesignatedSupertypeResolverTransformerForIDE.kt:141-142 | the collected designation targets the declaration in its containing file |
| FirTree.ContainingFile | idea/idea-frontend-fir/idea-fir-low-level-api/src/org/jetbrains/kotlin/idea/fir/low/level/api/transformers/FirDesignatedSupertypeResolverTransformerForIDE.kt:141 | the file the module file cache finds for a declaration, if any; in a well-formed shape (`FirTree.WellFormed`) it is a file of the tree |
| SupertypeResolver.CollectToVisit | idea/idea-frontend-fir/idea-fir-low-level-api/src/org/jetbrains/kotlin/idea/fir/low/level/api/transformers/FirDesignatedSupertypeResolverTransformerForIDE.kt:135-145 | every designation queued is for a class-like declaration not yet visited, collected in its own file, and is a supertype of some computed class; every class-like supertype of a computed class is either visited or queued |
| SupertypeResolver.VisitOne | idea/idea-frontend-fir/idea-fir-low-level-api/src/org/jetbrains/kotlin/idea/fir/low/level/api/transformers/FirDesignatedSupertypeResolverTransformerForIDE.kt:113-130 | the file is resolved to `IMPORTS` first, and the visit fails exactly when that fails; otherwise the target's supertypes are computed |
| SupertypeResolver.VisitRound | idea/idea-frontend-fir/idea-fir-low-level-api/src/org/jetbrains/kotlin/idea/fir/low/level/api/transformers/FirDesignatedSupertypeResolverTransformerForIDE.kt:112-131 | a round visits each queued designation; phases only grow; the log holds only worklist steps |
| SupertypeResolver.ComputeSupertypes | idea/idea-frontend-fir/idea-fir-low-level-api/src/org/jetbrains/kotlin/idea/fir/low/level/api/transformers/FirDesignatedSupertypeResolverTransformerForIDE.kt:108-146 | the worklist ends with the target visited, every visited declaration reachable from the target through supertype references, the visited set closed under class-like supertypes, and no phase changed except files' |
| SupertypeResolver.AddVisited | idea/idea-frontend-fir/idea-fir-low-level-api/src/org/jetbrains/kotlin/idea/fir/low/level/api/transformers/FirDesignatedSupertypeResolverTransformerForIDE.kt:132-133 | `addAll` adds the round to the visited set, the visited declarations grow by exactly the round's declarations, and strictly |
| SupertypeResolver.VisitedDecls | idea/idea-frontend-fir/idea-fir-low-level-api/src/org/jetbrains/kotlin/idea/fir/low/level/api/transformers/FirDesignatedSupertypeResolverTransformerForIDE.kt:140 | the declarations checked by `visitedSet.any` are exactly those of the visited designations |
| SupertypeResolver.ReachableVisited | idea/idea-frontend-fir/idea-fir-low-level-api/src/org/jetbrains/kotlin/idea/fir/low/level/api/transformers/FirDesignatedSupertypeResolverTransformerForIDE.kt:108-146 | every class-like reachable from the target through supertype references is visited |
| SupertypeResolver.VisitedExactlyReachable | idea/idea-frontend-fir/idea-fir-low-level-api/src/org/jetbrains/kotlin/idea/fir/low/level/api/transformers/FirDesignatedSupertypeResolverTransformerForIDE.kt:108-146 | the visited declarations are exactly the declarations reachable from the target through supertype references |
| SupertypeResolver.QueuedReachable | idea/idea-frontend-fir/idea-fir-low-level-api/src/org/jetbrains/kotlin/idea/fir/low/level/api/transformers/FirDesignatedSupertypeResolverTransformerForIDE.kt:135-143 | a declaration the worklist queues is reachable from the target when every visited one is |
| SupertypeResolver.ApplySupertypeRefs | idea/idea-frontend-fir/idea-fir-low-level-api/src/org/jetbrains/kotlin/idea/fir/low/level/api/transformers/FirDesignatedSupertypeResolverTransformerForIDE.kt:61-91 | applying supertypes resolves a class-like's supertype references and leaves its other references alone |
| SupertypeResolver.NeedReplacePhase | idea/idea-frontend-fir/idea-fir-low-level-api/src/org/jetbrains/kotlin/idea/fir/low/level/api/transformers/FirDesignatedSupertypeResolverTransformerForIDE.kt:84 | a phase is replaced exactly when it is below `SUPER_TYPES`, that is `RAW_FIR` or `IMPORTS` |
| SupertypeResolver.AppliedPhasesSpec | idea/idea-frontend-fir/idea-fir-low-level-api/src/org/jetbrains/kotlin/idea/fir/low/level/api/transformers/FirDesignatedSupertypeResolverTransformerForIDE.kt:84 | the applier raises every walked declaration below `SUPER_TYPES` to `SUPER_TYPES`, and changes no other phase |
| SupertypeResolver.AppliedRefsSpec | idea/idea-frontend-fir/idea-fir-low-level-api/src/org/jetbrains/kotlin/idea/fir/low/level/api/transformers/FirDesignatedSupertypeResolverTransformerForIDE.kt:61-91 | the applier resolves the supertypes of exactly the walked class-likes that needed it, and changes no other reference |
| SupertypeResolver.EnsureResolved | idea/idea-frontend-fir/idea-fir-low-level-api/src/org/jetbrains/kotlin/idea/fir/low/level/api/transformers/FirDesignatedSupertypeResolverTransformerForIDE.kt:181-198 | functions, properties, enum entries, fields and initializers pass; a class or type alias passes exactly when it is at `SUPER_TYPES` with its supertypes resolved; anything else is an error |
| SupertypeResolver.EnsureResolvedDeep | idea/idea-frontend-fir/idea-fir-low-level-api/src/org/jetbrains/kotlin/idea/fir/low/level/api/transformers/FirDesignatedSupertypeResolverTransformerForIDE.kt:174-179 | passing the deep check implies passing the check on the declaration itself |
| SupertypeResolver.EnsureResolvedDeepAll | idea/idea-frontend-fir/idea-fir-low-level-api/src/org/jetbrains/kotlin/idea/fir/low/level/api/transformers/FirDesignatedSupertypeResolverTransformerForIDE.kt:177 | the members pass exactly when each passes its deep check |
| SupertypeResolver.AppliedDeepPasses | idea/idea-frontend-fir/idea-fir-low-level-api/src/org/jetbrains/kotlin/idea/fir/low/level/api/transformers/FirDesignatedSupertypeResolverTransformerForIDE.kt:152-156 | after the applier runs over a designation whose subtree is ready, its deep check passes |
| SupertypeResolver.AppliedDeepAllPasses | idea/idea-frontend-fir/idea-fir-low-level-api/src/org/jetbrains/kotlin/idea/fir/low/level/api/transformers/FirDesignatedSupertypeResolverTransformerForIDE.kt:176-178 | the same for the members of a class |
| SupertypeResolver.ApplyToDesignation | idea/idea-frontend-fir/idea-fir-low-level-api/src/org/jetbrains/kotlin/idea/fir/low/level/api/transformers/FirDesignatedSupertypeResolverTransformerForIDE.kt:151-157 | a designation already at `SUPER_TYPES` is skipped; otherwise its walk is applied, the deep check's result is returned, and the target reaches `SUPER_TYPES` |
| SupertypeResolver.ApplyAll | idea/idea-frontend-fir/idea-fir-low-level-api/src/org/jetbrains/kotlin/idea/fir/low/level/api/transformers/FirDesignatedSupertypeResolverTransformerForIDE.kt:150-171 | a designation already at `SUPER_TYPES` when its turn comes is skipped, as at line 152; on success every visited designation is at `SUPER_TYPES`; every applied one was below it at the start and passes `ensureResolvedDeep` at the end, so its supertype references and those of the classes nested in it are resolved; every skipped one was at `SUPER_TYPES` at the start or was walked by an applied one |
| SupertypeResolver.ApplyStepKeeps | idea/idea-frontend-fir/idea-fir-low-level-api/src/org/jetbrains/kotlin/idea/fir/low/level/api/transformers/FirDesignatedSupertypeResolverTransformerForIDE.kt:151-157 | applying one more designation keeps every earlier applied designation's deep check passing, and keeps the apply step's progress |
| SupertypeResolver.ApplySkipKeeps | idea/idea-frontend-fir/idea-fir-low-level-api/src/org/jetbrains/kotlin/idea/fir/low/level/api/transformers/FirDesignatedSupertypeResolverTransformerForIDE.kt:152 | skipping a designation at `SUPER_TYPES` keeps the apply step's progress |
| SupertypeResolver.SkippedPathClassFailsDeep | idea/idea-frontend-fir/idea-fir-low-level-api/src/org/jetbrains/kotlin/idea/fir/low/level/api/transformers/FirDesignatedSupertypeResolverTransformerForIDE.kt:152-156 | after a designation is applied, the innermost class on its path is at `SUPER_TYPES` and so is skipped when its own turn comes, although its deep check fails when a nested class the walk missed is still below `SUPER_TYPES` |
| SupertypeResolver.DeepStable | idea/idea-frontend-fir/idea-fir-low-level-api/src/org/jetbrains/kotlin/idea/fir/low/level/api/transformers/FirDesignatedSupertypeResolverTransformerForIDE.kt:174-198 | a passing `ensureResolvedDeep` still passes after the applier walks any set of declarations |
| SupertypeResolver.DeepAllStable | idea/idea-frontend-fir/idea-fir-low-level-api/src/org/jetbrains/kotlin/idea/fir/low/level/api/transformers/FirDesignatedSupertypeResolverTransformerForIDE.kt:176-178 | the same for the members of a class |
| SupertypeResolver.AppliedDeepKept | idea/idea-frontend-fir/idea-fir-low-level-api/src/org/jetbrains/kotlin/idea/fir/low/level/api/transformers/FirDesignatedSupertypeResolverTransformerForIDE.kt:150-158 | walking one more designation keeps the deep checks of all the designations applied before |
| SupertypeResolver.RaisedByStep | idea/idea-frontend-fir/idea-fir-low-level-api/src/org/jetbrains/kotlin/idea/fir/low/level/api/transformers/FirDesignatedSupertypeResolverTransformerForIDE.kt:152-154 | a declaration that left the phases below `SUPER_TYPES` was walked by an applied designation, before and after one more walk |
| SupertypeResolver.TransformDeclaration | idea/idea-frontend-fir/idea-fir-low-level-api/src/org/jetbrains/kotlin/idea/fir/low/level/api/transformers/FirDesignatedSupertypeResolverTransformerForIDE.kt:93-172 | a file below `IMPORTS` fails its check with nothing changed; an invalid target fails, an absent one returns, an already resolved one returns; otherwise the target's marker is raised and, on success, the visited declarations are exactly those reachable from the target through supertypes, all at `SUPER_TYPES`, and every designation the apply step took passes `ensureResolvedDeep` |
| SupertypeResolver.ResolveSupertypes | idea/idea-frontend-fir/idea-fir-low-level-api/src/org/jetbrains/kotlin/idea/fir/low/level/api/transformers/FirDesignatedSupertypeResolverTransformerForIDE.kt:108-171 | worklist, loop breaking and apply: on success the visited set contains the target, holds exactly the declarations reachable from it, is closed under supertypes and is all at `SUPER_TYPES`, and the designations applied pass `ensureResolvedDeep` |
| SupertypeResolver.WorklistResult | idea/idea-frontend-fir/idea-fir-low-level-api/src/org/jetbrains/kotlin/idea/fir/low/level/api/transformers/FirDesignatedSupertypeResolverTransformerForIDE.kt:108-146 | the worklist leaves class-like designations whose declarations are exactly those reachable from the target |
| SupertypeResolver.ApplyProgressRebase | idea/idea-frontend-fir/idea-fir-low-level-api/src/org/jetbrains/kotlin/idea/fir/low/level/api/transformers/FirDesignatedSupertypeResolverTransformerForIDE.kt:148-171 | the apply step's progress reads the starting phases only where the worklist leaves them alone: not at files |
| SupertypeResolver.BreakLoopsAndApply | idea/idea-frontend-fir/idea-fir-low-level-api/src/org/jetbrains/kotlin/idea/fir/low/level/api/transformers/FirDesignatedSupertypeResolverTransformerForIDE.kt:148-171 | breaks supertype loops once, then applies; on success every visited declaration is at `SUPER_TYPES` and every applied designation passes `ensureResolvedDeep` |
| TypeResolver.ResolveRef | idea/idea-frontend-fir/idea-fir-low-level-api/src/org/jetbrains/kotlin/idea/fir/low/level/api/transformers/FirDesignatedTypeResolverTransformerForIDE.kt:36 | type resolution leaves an implicit type implicit and resolves every other reference |
| TypeResolver.TypesResolvedRefs | idea/idea-frontend-fir/idea-fir-low-level-api/src/org/jetbrains/kotlin/idea/fir/low/level/api/transformers/FirDesignatedTypeResolverTransformerForIDE.kt:32-44 | the return and receiver types come out resolved or implicit, implicit exactly when they were; supertypes and expanded type are left alone |
| TypeResolver.EnsureResolved | idea/idea-frontend-fir/idea-fir-low-level-api/src/org/jetbrains/kotlin/idea/fir/low/level/api/transformers/FirDesignatedTypeResolverTransformerForIDE.kt:65-90 | on success the declaration is a known kind, at `TYPES` unless an initializer, with function and property return types resolved or implicit, a resolved receiver, parameter types resolved or implicit, and a resolved enum-entry type |
| TypeResolver.EnsureResolvedDeep | idea/idea-frontend-fir/idea-fir-low-level-api/src/org/jetbrains/kotlin/idea/fir/low/level/api/transformers/FirDesignatedTypeResolverTransformerForIDE.kt:58-63 | passing the deep check implies passing the check on the declaration itself |
| TypeResolver.EnsureResolvedDeepAll | idea/idea-frontend-fir/idea-fir-low-level-api/src/org/jetbrains/kotlin/idea/fir/low/level/api/transformers/FirDesignatedTypeResolverTransformerForIDE.kt:61 | passing means every member passes its deep check |
| TypeResolver.EnsureResolvedAll | idea/idea-frontend-fir/idea-fir-low-level-api/src/org/jetbrains/kotlin/idea/fir/low/level/api/transformers/FirDesignatedTypeResolverTransformerForIDE.kt:54 | the path passes exactly when every element passes its check |
| TypeResolver.DeepPassesOnSubtree | idea/idea-frontend-fir/idea-fir-low-level-api/src/org/jetbrains/kotlin/idea/fir/low/level/api/transformers/FirDesignatedTypeResolverTransformerForIDE.kt:58-63 | when every declaration nested in the target passes its check, the deep check passes |
| TypeResolver.DeepAllPassesOnSubtree | idea/idea-frontend-fir/idea-fir-low-level-api/src/org/jetbrains/kotlin/idea/fir/low/level/api/transformers/FirDesignatedTypeResolverTransformerForIDE.kt:60-62 | the same for the members of a class |
| TypeResolver.Walked | idea/idea-frontend-fir/idea-fir-low-level-api/src/org/jetbrains/kotlin/idea/fir/low/level/api/transformers/FirDesignatedTypeResolverTransformerForIDE.kt:51 | the file walk reaches the file, the path, the target and everything nested in it |
| TypeResolver.WalkedPasses | idea/idea-frontend-fir/idea-fir-low-level-api/src/org/jetbrains/kotlin/idea/fir/low/level/api/transformers/FirDesignatedTypeResolverTransformerForIDE.kt:51-55 | after the walk, every walked declaration whose nested declarations had checkable references passes its check |
| TypeResolver.TransformElement | idea/idea-frontend-fir/idea-fir-low-level-api/src/org/jetbrains/kotlin/idea/fir/low/level/api/transformers/FirDesignatedTypeResolverTransformerForIDE.kt:32-44 | a file or regular class gets its marker raised to `TYPES` only inside the target; any other declaration always does; its phase is raised to `TYPES` when it takes that phase, and its references are resolved |
| TypeResolver.MarkedIn | idea/idea-frontend-fir/idea-fir-low-level-api/src/org/jetbrains/kotlin/idea/fir/low/level/api/transformers/FirDesignatedTypeResolverTransformerForIDE.kt:32-44 | the walked declarations the walk marks: all of those inside the target, and outside it only declarations that are neither a file nor a regular class |
| TypeResolver.Marked | idea/idea-frontend-fir/idea-fir-low-level-api/src/org/jetbrains/kotlin/idea/fir/low/level/api/transformers/FirDesignatedTypeResolverTransformerForIDE.kt:32-51 | the declarations the file walk marks include the target and everything nested in it, but never the file or a path class outside the target |
| TypeResolver.ResolveTypesIn | idea/idea-frontend-fir/idea-fir-low-level-api/src/org/jetbrains/kotlin/idea/fir/low/level/api/transformers/FirDesignatedTypeResolverTransformerForIDE.kt:51 | the walk transforms each walked declaration once and raises to `TYPES` exactly the markers of the declarations it marks, no other |
| TypeResolver.WalkStep | idea/idea-frontend-fir/idea-fir-low-level-api/src/org/jetbrains/kotlin/idea/fir/low/level/api/transformers/FirDesignatedTypeResolverTransformerForIDE.kt:32-44 | one element of the walk, keeping the walk's invariant |
| TypeResolver.TransformFile | idea/idea-frontend-fir/idea-fir-low-level-api/src/org/jetbrains/kotlin/idea/fir/low/level/api/transformers/FirDesignatedTypeResolverTransformerForIDE.kt:51-55 | the markers of the target and of everything nested in it reach `TYPES`; no other marker changes, the file's and the path's included; the check passes exactly when the path and the deep check on the target pass |
| TypeResolver.TransformDeclaration | idea/idea-frontend-fir/idea-fir-low-level-api/src/org/jetbrains/kotlin/idea/fir/low/level/api/transformers/FirDesignatedTypeResolverTransformerForIDE.kt:46-56 | an already resolved designation returns with nothing changed; classes on the path below `SUPER_TYPES` fail with only the marker raised; otherwise the file walk runs, raising only the markers of the target and what it contains, and the result is the path and deep checks; afterwards the designation is resolved to `TYPES` |
| TypeResolver.ClassesReached | idea/idea-frontend-fir/idea-fir-low-level-api/src/org/jetbrains/kotlin/idea/fir/low/level/api/transformers/FirDesignatedTypeResolverTransformerForIDE.kt:49 | `ensurePhaseForClasses`: every regular class or anonymous object on the path or as the target has reached the phase |
| TypeResolver.SiblingResolvedUnchanged | idea/idea-frontend-fir/idea-fir-low-level-api/src/org/jetbrains/kotlin/idea/fir/low/level/api/transformers/FirDesignatedTypeResolverTransformerForIDE.kt:32-51 | a designation whose path classes lie on the transformed one's path outside its target, and whose own target is outside it, is resolved to any phase after the walk exactly when it was before |
| TypeResolver.PathPasses | idea/idea-frontend-fir/idea-fir-low-level-api/src/org/jetbrains/kotlin/idea/fir/low/level/api/transformers/FirDesignatedTypeResolverTransformerForIDE.kt:54 | after the walk, a path of classes and type aliases passes its checks |
| TypeResolver.ClassLikePasses | idea/idea-frontend-fir/idea-fir-low-level-api/src/org/jetbrains/kotlin/idea/fir/low/level/api/transformers/FirDesignatedTypeResolverTransformerForIDE.kt:66-84 | a class or type alias at `TYPES` passes its check |
| TypeResolver.WalkEstablishesChecks | idea/idea-frontend-fir/idea-fir-low-level-api/src/org/jetbrains/kotlin/idea/fir/low/level/api/transformers/FirDesignatedTypeResolverTransformerForIDE.kt:49-55 | after the walk, the path and the deep check on the target both pass |
| InstructionLiveness.SuccessorsCover | compiler/backend/src/org/jetbrains/kotlin/codegen/optimization/common/InstructionLivenessAnalyzer.kt:47-62 | the normal successors are exactly the fall-through, the jump target and the switch targets |
| InstructionLiveness.SuccessorsInRange | compiler/backend/src/org/jetbrains/kotlin/codegen/optimization/common/InstructionLivenessAnalyzer.kt:47-62 | in a well-indexed method every successor is an instruction, except a fall-through past the end |
| InstructionLiveness.HandlersCover | compiler/backend/src/org/jetbrains/kotlin/codegen/optimization/common/InstructionLivenessAnalyzer.kt:132-145 | the handlers of an instruction are exactly the try/catch blocks whose range covers it |
| InstructionLiveness.HandlerLabels | compiler/backend/src/org/jetbrains/kotlin/codegen/optimization/common/InstructionLivenessAnalyzer.kt:64-66 | the handler labels, one per handler, in order |
| InstructionLiveness.HandlerIsEdge | compiler/backend/src/org/jetbrains/kotlin/codegen/optimization/common/InstructionLivenessAnalyzer.kt:64-66 | every covering handler is an edge out of the instruction |
| InstructionLiveness.EdgesInRange | compiler/backend/src/org/jetbrains/kotlin/codegen/optimization/common/InstructionLivenessAnalyzer.kt:47-66 | every edge leads to an instruction, except a fall-through past the end |
| InstructionLiveness.FirstReachable | compiler/backend/src/org/jetbrains/kotlin/codegen/optimization/common/InstructionLivenessAnalyzer.kt:128-130 | the entry instruction is reachable |
| InstructionLiveness.ReachableStep | compiler/backend/src/org/jetbrains/kotlin/codegen/optimization/common/InstructionLivenessAnalyzer.kt:37-66 | an edge out of a reachable instruction leads to a reachable one |
| InstructionLiveness.EdgesFromReachable | compiler/backend/src/org/jetbrains/kotlin/codegen/optimization/common/InstructionLivenessAnalyzer.kt:37-66 | the edges out of a reachable instruction stay within the reachable set |
| InstructionLiveness.LeastClosedMarking | compiler/backend/src/org/jetbrains/kotlin/codegen/optimization/common/InstructionLivenessAnalyzer.kt:37-74 | a marking that contains the entry, is closed under edges and holds only reachable instructions is exactly the reachable set |
| InstructionLiveness.CheckAssertions | compiler/backend/src/org/jetbrains/kotlin/codegen/optimization/common/InstructionLivenessAnalyzer.kt:89-92 | fails exactly when some instruction is a `JSR` or `RET` |
| InstructionLiveness.LocalVariableLabels | compiler/backend/src/org/jetbrains/kotlin/codegen/optimization/common/InstructionLivenessAnalyzer.kt:77-80 | an index is a local-variable label exactly when some local variable starts or ends there |
| InstructionLiveness.TryCatchBlockLabels | compiler/backend/src/org/jetbrains/kotlin/codegen/optimization/common/InstructionLivenessAnalyzer.kt:82-86 | an index is a try/catch label exactly when some block starts, ends or has its handler there |
| InstructionLiveness.Reversed | compiler/backend/src/org/jetbrains/kotlin/codegen/optimization/common/InstructionLivenessAnalyzer.kt:101 | `labels.reversed()`: the same elements in the opposite order |
| InstructionLiveness.MergeEdge | compiler/backend/src/org/jetbrains/kotlin/codegen/optimization/common/InstructionLivenessAnalyzer.kt:147-154 | merging an edge marks its target live |
| InstructionLiveness.MergeEdgeKeepsRoom | compiler/backend/src/org/jetbrains/kotlin/codegen/optimization/common/InstructionLivenessAnalyzer.kt:150-153 | the queue never overflows: a target is pushed only when it becomes live |
| InstructionLiveness.MergeEdgeKeepsInv | compiler/backend/src/org/jetbrains/kotlin/codegen/optimization/common/InstructionLivenessAnalyzer.kt:147-154 | merging an edge to a reachable instruction keeps the worklist invariant and only adds marks |
| InstructionLiveness.MergeAllKeepsInv | compiler/backend/src/org/jetbrains/kotlin/codegen/optimization/common/InstructionLivenessAnalyzer.kt:124-126 | merging a sequence of edges keeps the invariant and marks every target |
| InstructionLiveness.PopEntryKeepsInv | compiler/backend/src/org/jetbrains/kotlin/codegen/optimization/common/InstructionLivenessAnalyzer.kt:39-40 | the popped instruction is live, and the invariant holds with it as the one instruction whose edges are pending |
| InstructionLiveness.VisitKeepsInv | compiler/backend/src/org/jetbrains/kotlin/codegen/optimization/common/InstructionLivenessAnalyzer.kt:42-66 | visiting the popped instruction marks all its edges, restoring the invariant |
| InstructionLiveness.EdgesInReach | compiler/backend/src/org/jetbrains/kotlin/codegen/optimization/common/InstructionLivenessAnalyzer.kt:47-66 | unless it falls off the end, every edge out of a reachable instruction is an in-range reachable instruction |
| InstructionLiveness.FallThroughIsEdge | compiler/backend/src/org/jetbrains/kotlin/codegen/optimization/common/InstructionLivenessAnalyzer.kt:57-58 | an instruction that falls through has an edge to the next index |
| InstructionLiveness.EmptyQueueClosed | compiler/backend/src/org/jetbrains/kotlin/codegen/optimization/common/InstructionLivenessAnalyzer.kt:38 | when the queue is empty, every edge out of every live instruction is live |
| InstructionLiveness.InstructionLivenessAnalyzer.constructor | compiler/backend/src/org/jetbrains/kotlin/codegen/optimization/common/InstructionLivenessAnalyzer.kt:14-23 | arrays sized to the method, nothing live or queued, no handlers, empty queue |
| InstructionLiveness.InstructionLivenessAnalyzer.Analyze | compiler/backend/src/org/jetbrains/kotlin/codegen/optimization/common/InstructionLivenessAnalyzer.kt:27-35 | empty method: the empty array; `JSR`/`RET` present: the subroutine error; otherwise it fails exactly when a reachable last instruction falls through, and on success an instruction is live exactly when reachable or a local-variable or try/catch label |
| InstructionLiveness.InstructionLivenessAnalyzer.ComputeExceptionHandlersForEachInsn | compiler/backend/src/org/jetbrains/kotlin/codegen/optimization/common/InstructionLivenessAnalyzer.kt:132-145 | each instruction's handlers are the try/catch blocks covering it, in block order |
| InstructionLiveness.InstructionLivenessAnalyzer.InitControlFlowAnalysis | compiler/backend/src/org/jetbrains/kotlin/codegen/optimization/common/InstructionLivenessAnalyzer.kt:128-130 | the entry is live and queued, and the worklist invariant holds |
| InstructionLiveness.InstructionLivenessAnalyzer.TraverseCfg | compiler/backend/src/org/jetbrains/kotlin/codegen/optimization/common/InstructionLivenessAnalyzer.kt:37-74 | on success an instruction is live exactly when reachable, and the live set is closed under edges; the only failure is a reachable last instruction falling through |
| InstructionLiveness.InstructionLivenessAnalyzer.Pop | compiler/backend/src/org/jetbrains/kotlin/codegen/optimization/common/InstructionLivenessAnalyzer.kt:39-40 | pops the top of the queue and unqueues it; the popped instruction is live and reachable |
| InstructionLiveness.InstructionLivenessAnalyzer.VisitInsn | compiler/backend/src/org/jetbrains/kotlin/codegen/optimization/common/InstructionLivenessAnalyzer.kt:42-66 | merges the successors and then the handlers; every edge out of the instruction becomes live, or a reachable last instruction falls off the end |
| InstructionLiveness.InstructionLivenessAnalyzer.VisitSuccessors | compiler/backend/src/org/jetbrains/kotlin/codegen/optimization/common/InstructionLivenessAnalyzer.kt:47-62 | merges exactly the normal successors, and fails exactly on a fall-through from the last instruction, changing nothing |
| InstructionLiveness.InstructionLivenessAnalyzer.MergeHandlers | compiler/backend/src/org/jetbrains/kotlin/codegen/optimization/common/InstructionLivenessAnalyzer.kt:64-66 | merges each covering handler's label, in order |
| InstructionLiveness.InstructionLivenessAnalyzer.VisitOpInsn | compiler/backend/src/org/jetbrains/kotlin/codegen/optimization/common/InstructionLivenessAnalyzer.kt:94-96 | merges the next instruction, and fails with nothing changed when there is none |
| InstructionLiveness.InstructionLivenessAnalyzer.VisitTableSwitchInsnNode | compiler/backend/src/org/jetbrains/kotlin/codegen/optimization/common/InstructionLivenessAnalyzer.kt:98-105 | merges the default, then the labels in reverse order |
| InstructionLiveness.InstructionLivenessAnalyzer.VisitLookupSwitchInsnNode | compiler/backend/src/org/jetbrains/kotlin/codegen/optimization/common/InstructionLivenessAnalyzer.kt:107-114 | merges the default, then the labels in order |
| InstructionLiveness.InstructionLivenessAnalyzer.VisitJumpInsnNode | compiler/backend/src/org/jetbrains/kotlin/codegen/optimization/common/InstructionLivenessAnalyzer.kt:116-122 | merges the next instruction unless `GOTO`/`JSR`, then the target; fails only when a conditional jump is last |
| InstructionLiveness.InstructionLivenessAnalyzer.ProcessControlFlowEdge | compiler/backend/src/org/jetbrains/kotlin/codegen/optimization/common/InstructionLivenessAnalyzer.kt:124-126 | the same as merging the edge |
| InstructionLiveness.InstructionLivenessAnalyzer.MergeControlFlowEdge | compiler/backend/src/org/jetbrains/kotlin/codegen/optimization/common/InstructionLivenessAnalyzer.kt:147-154 | marks the target live and pushes it when it was neither live nor queued; an index past the end fails with nothing changed |
| InstructionLiveness.InstructionLivenessAnalyzer.LocalVariableAndTryCatchBlockLabelsAreAlwaysLive | compiler/backend/src/org/jetbrains/kotlin/codegen/optimization/common/InstructionLivenessAnalyzer.kt:76-87 | every local-variable and try/catch label becomes live, and nothing else changes |
| Commonization.Commonizer.CommonizeWith | native/commonizer/src/org/jetbrains/kotlin/commonizer/mergedtree/nodeBuilders.kt:152 | one call of `commonizeWith`: reports acceptance, moves the state by one step, and records the declaration |
| Commonization.FoldStops | native/commonizer/src/org/jetbrains/kotlin/commonizer/mergedtree/nodeBuilders.kt:152-153 | after a missing slot or a rejection, later slots make no difference |
| Commonization.FoldFedPrefix | native/commonizer/src/org/jetbrains/kotlin/commonizer/mergedtree/nodeBuilders.kt:151-154 | the declarations fed are the present slots of a prefix of the group, in order; the state is the one they lead to; a stop is a missing slot after all accepted, or a rejection of the last one fed |
| Commonization.FoldAccepted | native/commonizer/src/org/jetbrains/kotlin/commonizer/mergedtree/nodeBuilders.kt:151-156 | the group is accepted exactly when every slot was fed and every declaration accepted |
| Commonization.MissingSlotGivesNull | native/commonizer/src/org/jetbrains/kotlin/commonizer/mergedtree/nodeBuilders.kt:152-153 | any missing slot makes the result null |
| Commonization.EmptyGroup | native/commonizer/src/org/jetbrains/kotlin/commonizer/mergedtree/nodeBuilders.kt:151-156 | an empty group gives the commonizer's initial result, with nothing fed |
| Commonization.Commonize | native/commonizer/src/org/jetbrains/kotlin/commonizer/mergedtree/nodeBuilders.kt:147-157 | the commonizer is fed exactly the fold's declarations, and the result is non-null exactly when the whole group was accepted |
| Commonization.CommonizeIfAllowed | native/commonizer/src/org/jetbrains/kotlin/commonizer/mergedtree/nodeBuilders.kt:159-170 | a disallowed group gives null with nothing fed; an allowed one is `commonize` |

## Left out

- Locks are left out: `runCustomResolveUnderLock`, `runCustomResolveWithPCECheck`, `executeWithoutPCE` and `checkCanceled`. The model is single-threaded and every run completes.
- The `by lazy` read of `fromPhase` is left out: with no concurrency, `fromPhase` is read at the call.
- PSI navigation, the symbol provider, `collectDesignation`, `getContainerFirFile` and `toSymbol` are not modelled as calls. What they answer is fixed data in `FirTree.Shape`.
- The FIR transformers and visitors the code delegates to are not modelled in detail. They are small steps on phases, markers and type references, recorded as ghost events:
  - `FirTypeResolveTransformer`, `FirApplySupertypesTransformer` and the supertype visitor;
  - `IDEDeclarationTransformer` and its `ensureDesignationPassed`;
  - `breakLoops`, `FirLazyBodiesCalculator`, the file builder's file-wise phases and the file-annotation transformer.
- `FirProviderInterceptorForIDE`, the tower data context collector and `ScopeSession` carry no state the model needs, so they are left out.
- The STATUS, CONTRACTS, IMPLICIT_TYPES_BODY_RESOLVE and BODY_RESOLVE transformers are not part of this model. `LazyResolver.RunMarkingTransformer` gives them the early-return-and-mark pattern of the TYPES transformer.
- `check`, `error` and casts that throw become `Failure` results. A failing call may leave the tree part-way through, as the code does.
- `getResolvableDeclaration` is not modelled: the resolver never calls it.
- Commented-out code is not modelled: the rest of the `ResolveType` overload and the old `resolveTo*` functions.
- The `Phases` module covers only the nine phases the resolver names. Phases declared by compiler plugins are the parameter set `plugins`.
- `LazyResolver.RunSupertypeTransformer`: states only that markers and phases grow. The full effect of the supertype transformer is the contract of `SupertypeResolver.TransformDeclaration`.
- `LazyResolver.LazyResolveDeclaration`: for a run that goes ahead, the final phase is promised only when it is a marking phase (`TYPES` or later) and not a plugin phase. `SUPER_TYPES` marks only class-like targets, and `SEALED_CLASS_INHERITORS` marks nothing.
- `LazyResolver.LazyDesignatedResolveDeclaration`: weakened in the same way as `LazyResolveDeclaration`.
- `LazyResolver.RunLazyResolveWithoutLock`: weakened in the same way as `LazyResolveDeclaration`.
- `LazyResolver.RunLazyDesignatedResolveWithoutLock`: weakened in the same way as `LazyResolveDeclaration`.
- `LazyResolver.RunDesignatedPhases`: weakened in the same way as `LazyResolveDeclaration`.
- `SupertypeResolver.EnsureResolvedDeep`: states only that the deep check implies the check on the declaration itself. The converse is `SupertypeResolver.AppliedDeepPasses`, for the state after the applier.
- `TypeResolver.EnsureResolvedDeep`: states only that the deep check implies the check on the declaration itself. The converse is `TypeResolver.DeepPassesOnSubtree`.
- `TypeResolver.EnsureResolvedDeepAll`: states one direction only. The converse is `TypeResolver.DeepAllPassesOnSubtree`.
- `SupertypeResolver.ApplyAll`: the order of the `groupBy` over files is not modelled. Designations are applied in an arbitrary order, each under its own file.
- `SupertypeResolver.ApplyAll`: a visited designation that is already at `SUPER_TYPES` when its turn comes gets no deep check, as in the code. This happens when it started there or when an earlier applied designation walked it. For such a designation only `SUPER_TYPES` is promised, not resolved supertype references of its nested classes. The designations it takes are non-file ones, which is what the worklist produces. The files' own phases, which the worklist raises to `IMPORTS`, are not tracked.
- `SupertypeResolver.TransformDeclaration`: the `ensureResolvedDeep` promise covers the designations the apply step took, for the reason given under `ApplyAll`.
- The liveness analyzer's exception handling is simplified. An `AnalyzerException` wrapper, with its message and `insnText`, becomes the error result `FallsOffEnd`. The `AssertionError` for subroutines becomes `SubroutinesDeprecated`.
- Labels are modelled as instruction indices (`indexOf`). Every index a well-formed method holds must be a valid instruction index; this is the precondition `WellIndexed`.
- A `null` handler list is modelled as the empty list.
- `InstructionLiveness.MergeEdge`: a target past the end leaves the worklist as it is. The method that calls it fails at that point, as the array store would.
- The `Commonizer` interface is abstract. A step function gives acceptance and the next state; a result function reads the result off the state.
- `CommonizedGroup` is a sequence of optional declarations, and `CommonizerCondition` is a boolean.
- `buildNode` and the `build*Node` factories of `nodeBuilders.kt` are not part of this model. They are storage-manager and lazy-value plumbing around `commonize`.
