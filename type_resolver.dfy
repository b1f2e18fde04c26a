/**
 * The designated TYPES phase (FirDesignatedTypeResolverTransformerForIDE): marker updates
 * during the walk over the designation, the super-type precondition on classes, and the
 * ensureResolved / ensureResolvedDeep checks that close the phase.
 */
module TypeResolver {
  import opened Wrappers
  import opened Phases
  import opened FirTree
  import opened LazyTransformer

  /** A resolved reference stays resolved, an implicit one stays implicit, one as written gets resolved. */
  function ResolveRef(t: TypeRef): (r: TypeRef)
    ensures ResolvedOrImplicit(r)
    ensures r == ImplicitType <==> t == ImplicitType
  {
    if t == UserType then ResolvedType else t
  }

  /** The reference slots the TYPES phase resolves: the return type and the receiver type. */
  function TypesResolvedRefs(t: TypeRefs): (r: TypeRefs)
    ensures ResolvedOrImplicit(r.returnType) && (r.returnType == ImplicitType <==> t.returnType == ImplicitType)
    ensures r.receiverType.None? <==> t.receiverType.None?
    ensures r.receiverType.Some? ==>
      ResolvedOrImplicit(r.receiverType.value) && (r.receiverType.value == ImplicitType <==> t.receiverType.value == ImplicitType)
    ensures r.superTypes == t.superTypes && r.expandedType == t.expandedType
  {
    t.(returnType := ResolveRef(t.returnType),
       receiverType := if t.receiverType.Some? then Some(ResolveRef(t.receiverType.value)) else None)
  }

  /** The declarations whose resolvePhase the TYPES transformer moves (not files or anonymous initializers). */
  predicate TakesTypesPhase(k: Kind)
  {
    k != File && k != AnonymousInitializer
  }

  /** A receiver type, where there is one, must be resolved. */
  predicate ReceiverResolved(t: Option<TypeRef>)
  {
    t.None? || t.value == ResolvedType
  }

  /** The declaration kinds ensureResolved of the TYPES phase accepts. */
  predicate KnownToTypesCheck(k: Kind)
  {
    k != File && k != AnonymousObject && k != ValueParameter && k != TypeParameter
  }

  /** The type references of the value parameters are resolved or implicit. */
  predicate ParametersResolvedOrImplicit(refs: map<DeclId, TypeRefs>, ps: seq<DeclId>)
  {
    forall i :: 0 <= i < |ps| ==> ps[i] in refs && ResolvedOrImplicit(refs[ps[i]].returnType)
  }

  /** ensureResolved of the TYPES phase, on one declaration (and a property's accessors). */
  function EnsureResolved(s: Shape, phases: map<DeclId, Phase>, refs: map<DeclId, TypeRefs>, d: DeclId): (r: Outcome<Failure>)
    requires StateOf(s, phases, refs) && d in s.decls
    ensures r.Pass? ==> KnownToTypesCheck(s.decls[d].kind)
    ensures r.Pass? && s.decls[d].kind != AnonymousInitializer ==> Le(Types, phases[d])
    ensures r.Pass? && (IsFunction(s.decls[d].kind) || s.decls[d].kind == Property) ==>
      ResolvedOrImplicit(refs[d].returnType) && ReceiverResolved(refs[d].receiverType)
    ensures r.Pass? && IsFunction(s.decls[d].kind) ==> ParametersResolvedOrImplicit(refs, s.decls[d].valueParameters)
    ensures r.Pass? && s.decls[d].kind == EnumEntry ==> refs[d].returnType == ResolvedType
    ensures r.Pass? && s.decls[d].kind == Field ==> ResolvedOrImplicit(refs[d].returnType)
    decreases s.size - d
  {
    var decl := s.decls[d];
    NestedMembers(s, d);
    if decl.kind != AnonymousInitializer && !Le(Types, phases[d]) then Fail(PhaseNotReached)
    else if IsFunction(decl.kind) then
      if !ResolvedOrImplicit(refs[d].returnType) || !ReceiverResolved(refs[d].receiverType) then Fail(TypeRefNotResolved)
      else if !ParametersResolvedOrImplicit(refs, decl.valueParameters) then Fail(TypeRefNotResolved)
      else Pass
    else if decl.kind == Property then
      if !ResolvedOrImplicit(refs[d].returnType) || !ReceiverResolved(refs[d].receiverType) then Fail(TypeRefNotResolved)
      else
        var g := if decl.getter.Some? then EnsureResolved(s, phases, refs, decl.getter.value) else Pass;
        if g.Fail? then g
        else if decl.setter.Some? then EnsureResolved(s, phases, refs, decl.setter.value) else Pass
    else if decl.kind == RegularClass || decl.kind == TypeAlias || decl.kind == AnonymousInitializer then Pass
    else if decl.kind == EnumEntry then
      if refs[d].returnType == ResolvedType then Pass else Fail(TypeRefNotResolved)
    else if decl.kind == Field then
      if ResolvedOrImplicit(refs[d].returnType) then Pass else Fail(TypeRefNotResolved)
    else Fail(UnexpectedDeclarationKind)
  }

  /** ensureResolvedDeep: the declaration, and for a regular class every member, deeply. */
  function EnsureResolvedDeep(s: Shape, phases: map<DeclId, Phase>, refs: map<DeclId, TypeRefs>, d: DeclId): (r: Outcome<Failure>)
    requires StateOf(s, phases, refs) && d in s.decls
    ensures r.Pass? ==> EnsureResolved(s, phases, refs, d).Pass?
    decreases s.size - d, 1
  {
    var own := EnsureResolved(s, phases, refs, d);
    if own.Fail? then own
    else if s.decls[d].kind == RegularClass then
      NestedMembers(s, d);
      EnsureResolvedDeepAll(s, phases, refs, d, s.decls[d].declarations)
    else Pass
  }

  /** declarations.forEach { it.ensureResolvedDeep() }: the first failure, in order. */
  function EnsureResolvedDeepAll(s: Shape, phases: map<DeclId, Phase>, refs: map<DeclId, TypeRefs>,
                                 parent: DeclId, ds: seq<DeclId>): (r: Outcome<Failure>)
    requires StateOf(s, phases, refs) && parent in s.decls && NestedIn(s, parent, ds)
    ensures r.Pass? ==> forall i :: 0 <= i < |ds| ==> EnsureResolvedDeep(s, phases, refs, ds[i]).Pass?
    decreases s.size - parent, 0, |ds|
  {
    if ds == [] then Pass
    else
      var first := EnsureResolvedDeep(s, phases, refs, ds[0]);
      if first.Fail? then first else EnsureResolvedDeepAll(s, phases, refs, parent, ds[1..])
  }

  /** path.forEach { it.ensureResolved() }: the first failure, in order. */
  function EnsureResolvedAll(s: Shape, phases: map<DeclId, Phase>, refs: map<DeclId, TypeRefs>, ds: seq<DeclId>): (r: Outcome<Failure>)
    requires StateOf(s, phases, refs) && forall i :: 0 <= i < |ds| ==> ds[i] in s.decls
    ensures r.Pass? <==> forall i :: 0 <= i < |ds| ==> EnsureResolved(s, phases, refs, ds[i]).Pass?
  {
    if ds == [] then Pass
    else
      var first := EnsureResolved(s, phases, refs, ds[0]);
      if first.Fail? then first
      else
        var rest := EnsureResolvedAll(s, phases, refs, ds[1..]);
        assert forall i :: 1 <= i < |ds| ==> ds[i] == ds[1..][i - 1];
        rest
  }

  /** Every member of a subtree passing ensureResolved makes ensureResolvedDeep pass. */
  lemma {:induction false} DeepPassesOnSubtree(s: Shape, phases: map<DeclId, Phase>, refs: map<DeclId, TypeRefs>, d: DeclId)
    requires StateOf(s, phases, refs) && d in s.decls
    requires forall y :: y in Subtree(s, d) ==> EnsureResolved(s, phases, refs, y).Pass?
    ensures EnsureResolvedDeep(s, phases, refs, d).Pass?
    decreases s.size - d, 1
  {
    if s.decls[d].kind == RegularClass {
      NestedMembers(s, d);
      DeepAllPassesOnSubtree(s, phases, refs, d, s.decls[d].declarations);
    }
  }

  lemma {:induction false} DeepAllPassesOnSubtree(s: Shape, phases: map<DeclId, Phase>, refs: map<DeclId, TypeRefs>,
                                                  parent: DeclId, ds: seq<DeclId>)
    requires StateOf(s, phases, refs) && parent in s.decls && NestedIn(s, parent, ds)
    requires forall i :: 0 <= i < |ds| ==> ds[i] in Children(s.decls[parent])
    requires forall y :: y in Subtree(s, parent) ==> EnsureResolved(s, phases, refs, y).Pass?
    ensures EnsureResolvedDeepAll(s, phases, refs, parent, ds).Pass?
    decreases s.size - parent, 0, |ds|
  {
    if ds != [] {
      ChildSubtree(s, parent, ds[0]);
      DeepPassesOnSubtree(s, phases, refs, ds[0]);
      DeepAllPassesOnSubtree(s, phases, refs, parent, ds[1..]);
    }
  }

  /** ensurePhaseForClasses: every class on the designation has reached phase. */
  predicate ClassesReached(s: Shape, phases: map<DeclId, Phase>, d: Designation, phase: Phase)
    requires DesignationIn(s, d) && s.decls.Keys <= phases.Keys
    ensures ClassesReached(s, phases, d, phase) <==>
      forall x :: x in d.ToSequence() ==> x in s.decls && (IsClass(s.decls[x].kind) ==> Le(phase, phases[x]))
  {
    && (forall i :: 0 <= i < |d.path| && IsClass(s.decls[d.path[i]].kind) ==> Le(phase, phases[d.path[i]]))
    && (IsClass(s.decls[d.declaration].kind) ==> Le(phase, phases[d.declaration]))
  }

  /** The declarations the transformer walks: the file, the path, and the target with all it contains. */
  function Walked(s: Shape, d: Designation): (r: set<DeclId>)
    requires TreeShaped(s) && DesignationIn(s, d)
    ensures r <= s.decls.Keys
    ensures d.firFile in r && d.declaration in r && forall i :: 0 <= i < |d.path| ==> d.path[i] in r
    ensures Subtree(s, d.declaration) <= r
  {
    {d.firFile} + DesignationWalk(s, d)
  }

  /** What the TYPES phase leaves checkable on one declaration: a known kind, no implicit receiver or enum entry type. */
  predicate Checkable(s: Shape, refs: map<DeclId, TypeRefs>, y: DeclId)
    requires y in s.decls && y in refs
  {
    && KnownToTypesCheck(s.decls[y].kind)
    && refs[y].receiverType != Some(ImplicitType)
    && (s.decls[y].kind == EnumEntry ==> refs[y].returnType != ImplicitType)
  }

  /** The phases and references after the walk over `walked`, from phases0 and refs0. */
  ghost predicate AfterWalk(s: Shape, phases0: map<DeclId, Phase>, refs0: map<DeclId, TypeRefs>,
                            phases: map<DeclId, Phase>, refs: map<DeclId, TypeRefs>, walked: set<DeclId>)
    requires s.decls.Keys <= phases0.Keys && s.decls.Keys <= refs0.Keys
  {
    && phases.Keys == phases0.Keys && refs.Keys == refs0.Keys
    && (forall y :: y in s.decls ==>
          phases[y] == if y in walked && TakesTypesPhase(s.decls[y].kind) then Max(phases0[y], Types) else phases0[y])
    && (forall y :: y in s.decls ==>
          refs[y] == if y in walked then TypesResolvedRefs(refs0[y]) else refs0[y])
  }

  /** One more transformElement extends the walk by one declaration. */
  lemma AfterWalkStep(s: Shape, phases0: map<DeclId, Phase>, refs0: map<DeclId, TypeRefs>,
                      phases: map<DeclId, Phase>, refs: map<DeclId, TypeRefs>, walked: set<DeclId>, y: DeclId)
    requires s.decls.Keys <= phases0.Keys && s.decls.Keys <= refs0.Keys
    requires AfterWalk(s, phases0, refs0, phases, refs, walked) && y in s.decls && y !in walked
    ensures AfterWalk(s, phases0, refs0,
                      phases[y := if TakesTypesPhase(s.decls[y].kind) then Max(phases[y], Types) else phases[y]],
                      refs[y := TypesResolvedRefs(refs[y])], walked + {y})
  {
  }

  /** The markers after walking `walked` from attr0. */
  ghost predicate MarkersAfterWalk(attr0: map<DeclId, Phase>, attr: map<DeclId, Phase>, walked: set<DeclId>)
  {
    forall y {:trigger ResolvePhaseWithForAllDeclarations(attr, y)} ::
      ResolvePhaseWithForAllDeclarations(attr, y) ==
      if y in walked then Max(ResolvePhaseWithForAllDeclarations(attr0, y), Types)
      else ResolvePhaseWithForAllDeclarations(attr0, y)
  }

  lemma MarkersAfterWalkStep(attr0: map<DeclId, Phase>, attr: map<DeclId, Phase>, walked: set<DeclId>, y: DeclId)
    requires MarkersAfterWalk(attr0, attr, walked)
    ensures MarkersAfterWalk(attr0, Updated(attr, y, Types), walked + {y})
  {
    forall x ensures ResolvePhaseWithForAllDeclarations(Updated(attr, y, Types), x) ==
      if x in walked + {y} then Max(ResolvePhaseWithForAllDeclarations(attr0, x), Types)
      else ResolvePhaseWithForAllDeclarations(attr0, x)
    {
      assert ResolvePhaseWithForAllDeclarations(attr, x) == if x in walked then Max(ResolvePhaseWithForAllDeclarations(attr0, x), Types)
        else ResolvePhaseWithForAllDeclarations(attr0, x);
    }
  }

  lemma MarkersAfterWalkGrow(attr0: map<DeclId, Phase>, attr: map<DeclId, Phase>, walked: set<DeclId>)
    requires MarkersAfterWalk(attr0, attr, walked)
    ensures MarkersGrow(attr0, attr)
  {
    forall x ensures Le(ResolvePhaseWithForAllDeclarations(attr0, x), ResolvePhaseWithForAllDeclarations(attr, x))
    {
      assert ResolvePhaseWithForAllDeclarations(attr, x) == if x in walked then Max(ResolvePhaseWithForAllDeclarations(attr0, x), Types)
        else ResolvePhaseWithForAllDeclarations(attr0, x);
    }
  }

  /** The walk never lowers a phase. */
  lemma AfterWalkGrows(s: Shape, phases0: map<DeclId, Phase>, refs0: map<DeclId, TypeRefs>,
                       phases: map<DeclId, Phase>, refs: map<DeclId, TypeRefs>, walked: set<DeclId>)
    requires s.decls.Keys == phases0.Keys && s.decls.Keys <= refs0.Keys
    requires AfterWalk(s, phases0, refs0, phases, refs, walked)
    ensures PhasesGrow(phases0, phases)
  {
  }

  /** After the walk, a walked declaration whose whole subtree was walked and is checkable passes ensureResolved. */
  lemma {:induction false} WalkedPasses(s: Shape, phases0: map<DeclId, Phase>, refs0: map<DeclId, TypeRefs>,
                                        phases: map<DeclId, Phase>, refs: map<DeclId, TypeRefs>,
                                        walked: set<DeclId>, y: DeclId)
    requires StateOf(s, phases0, refs0) && y in s.decls
    requires AfterWalk(s, phases0, refs0, phases, refs, walked)
    requires forall z :: z in Subtree(s, y) ==> z in walked && Checkable(s, refs0, z)
    ensures StateOf(s, phases, refs)
    ensures EnsureResolved(s, phases, refs, y).Pass?
    decreases s.size - y
  {
    var decl := s.decls[y];
    NestedMembers(s, y);
    if IsFunction(decl.kind) {
      forall i | 0 <= i < |decl.valueParameters|
        ensures ResolvedOrImplicit(refs[decl.valueParameters[i]].returnType)
      {
        ChildSubtree(s, y, decl.valueParameters[i]);
      }
    } else if decl.kind == Property {
      if decl.getter.Some? {
        ChildSubtree(s, y, decl.getter.value);
        WalkedPasses(s, phases0, refs0, phases, refs, walked, decl.getter.value);
      }
      if decl.setter.Some? {
        ChildSubtree(s, y, decl.setter.value);
        WalkedPasses(s, phases0, refs0, phases, refs, walked, decl.setter.value);
      }
    }
  }

  /**
   * A file or a regular class goes to the declaration transformer, which passes over it on the
   * way to the target and runs the default action (the marker update, then the type resolution
   * of the element) only once the target is reached.
   */
  predicate GoesThroughDesignation(k: Kind)
  {
    k == File || k == RegularClass
  }

  /** The declarations of `walked` whose marker the walk raises: files and regular classes only inside the target. */
  function MarkedIn(s: Shape, walked: set<DeclId>, inside: set<DeclId>): (r: set<DeclId>)
    requires walked <= s.decls.Keys
    ensures r <= walked
    ensures forall y :: y in walked && y in inside ==> y in r
    ensures forall y :: y in r && y !in inside ==> !GoesThroughDesignation(s.decls[y].kind)
  {
    set y | y in walked && (y in inside || !GoesThroughDesignation(s.decls[y].kind))
  }

  /** One more walked declaration joins the marked ones exactly when its marker is raised. */
  lemma MarkedInStep(s: Shape, done: set<DeclId>, inside: set<DeclId>, y: DeclId)
    requires done <= s.decls.Keys && y in s.decls
    ensures MarkedIn(s, done + {y}, inside) ==
      MarkedIn(s, done, inside) + (if y in inside || !GoesThroughDesignation(s.decls[y].kind) then {y} else {})
  {
  }

  /**
   * The markers the walk over a designation raises: the target and all it contains, and never
   * the file or a regular class of the path that lies outside the target.
   */
  function Marked(s: Shape, d: Designation): (r: set<DeclId>)
    requires TreeShaped(s) && DesignationIn(s, d)
    ensures Subtree(s, d.declaration) <= r
    ensures d.firFile in r ==> d.firFile in Subtree(s, d.declaration)
    ensures forall i :: 0 <= i < |d.path| && s.decls[d.path[i]].kind == RegularClass && d.path[i] in r ==>
      d.path[i] in Subtree(s, d.declaration)
  {
    MarkedIn(s, Walked(s, d), Subtree(s, d.declaration))
  }

  /** A marker the walk raises to TYPES that was raised to TYPES before is raised once. */
  lemma MarkersAfterWalkAbsorb(attr0: map<DeclId, Phase>, attr: map<DeclId, Phase>, m: set<DeclId>, t: DeclId)
    requires t in m && MarkersAfterWalk(Updated(attr0, t, Types), attr, m)
    ensures MarkersAfterWalk(attr0, attr, m)
  {
    var attr1 := Updated(attr0, t, Types);
    forall x ensures ResolvePhaseWithForAllDeclarations(attr, x) ==
      if x in m then Max(ResolvePhaseWithForAllDeclarations(attr0, x), Types)
      else ResolvePhaseWithForAllDeclarations(attr0, x)
    {
      assert ResolvePhaseWithForAllDeclarations(attr, x) == if x in m then Max(ResolvePhaseWithForAllDeclarations(attr1, x), Types)
        else ResolvePhaseWithForAllDeclarations(attr1, x);
    }
  }

  /**
   * transformElement on one declaration. A file or regular class outside the target keeps its
   * marker; any other declaration has its marker raised to TYPES. The type resolution raises
   * its phase and resolves its references as written.
   */
  method TransformElement(tree: DeclarationTree, y: DeclId, insideTarget: bool)
    requires y in tree.shape.decls && y in tree.resolvePhase && y in tree.typeRefs
    modifies tree`allPhaseAttr, tree`resolvePhase, tree`typeRefs
    ensures tree.allPhaseAttr ==
      if insideTarget || !GoesThroughDesignation(tree.shape.decls[y].kind) then Updated(old(tree.allPhaseAttr), y, Types)
      else old(tree.allPhaseAttr)
    ensures tree.resolvePhase == old(tree.resolvePhase)[y :=
      if TakesTypesPhase(tree.shape.decls[y].kind) then Max(old(tree.resolvePhase)[y], Types) else old(tree.resolvePhase)[y]]
    ensures tree.typeRefs == old(tree.typeRefs)[y := TypesResolvedRefs(old(tree.typeRefs)[y])]
  {
    if insideTarget || !GoesThroughDesignation(tree.shape.decls[y].kind) {
      UpdateResolvedForAllDeclarations(tree, y, Types);
    }
    if TakesTypesPhase(tree.shape.decls[y].kind) {
      tree.resolvePhase := tree.resolvePhase[y := Max(tree.resolvePhase[y], Types)];
    }
    tree.typeRefs := tree.typeRefs[y := TypesResolvedRefs(tree.typeRefs[y])];
  }

  /**
   * The walk of the transformer: transformElement on every walked declaration, where `inside`
   * holds the declarations within the target. The markers of MarkedIn(walked, inside) go to
   * TYPES and no other marker changes; every walked declaration has its phase raised and its
   * references resolved as written.
   */
  method ResolveTypesIn(tree: DeclarationTree, walked: set<DeclId>, inside: set<DeclId>)
    requires tree.Valid() && walked <= tree.shape.decls.Keys
    modifies tree`allPhaseAttr, tree`resolvePhase, tree`typeRefs
    ensures tree.Valid()
    ensures MarkersGrow(old(tree.allPhaseAttr), tree.allPhaseAttr)
    ensures MarkersAfterWalk(old(tree.allPhaseAttr), tree.allPhaseAttr, MarkedIn(tree.shape, walked, inside))
    ensures AfterWalk(tree.shape, old(tree.resolvePhase), old(tree.typeRefs), tree.resolvePhase, tree.typeRefs, walked)
  {
    ghost var attr0, phases0, refs0 := tree.allPhaseAttr, tree.resolvePhase, tree.typeRefs;
    var todo := walked;
    ghost var done: set<DeclId> := {};
    while todo != {}
      invariant todo <= walked && done == walked - todo
      invariant tree.Valid()
      invariant MarkersAfterWalk(attr0, tree.allPhaseAttr, MarkedIn(tree.shape, done, inside))
      invariant AfterWalk(tree.shape, phases0, refs0, tree.resolvePhase, tree.typeRefs, done)
      decreases |todo|
    {
      var y :| y in todo;
      WalkStep(tree, attr0, phases0, refs0, done, y, inside);
      todo := todo - {y};
      done := done + {y};
    }
    MarkersAfterWalkGrow(attr0, tree.allPhaseAttr, MarkedIn(tree.shape, walked, inside));
  }

  /** transformElement on one more declaration of the walk. */
  method WalkStep(tree: DeclarationTree, ghost attr0: map<DeclId, Phase>, ghost phases0: map<DeclId, Phase>,
                  ghost refs0: map<DeclId, TypeRefs>, ghost done: set<DeclId>, y: DeclId, inside: set<DeclId>)
    requires tree.Valid() && y in tree.shape.decls && y !in done && done <= tree.shape.decls.Keys
    requires tree.shape.decls.Keys <= phases0.Keys && tree.shape.decls.Keys <= refs0.Keys
    requires MarkersAfterWalk(attr0, tree.allPhaseAttr, MarkedIn(tree.shape, done, inside))
    requires AfterWalk(tree.shape, phases0, refs0, tree.resolvePhase, tree.typeRefs, done)
    modifies tree`allPhaseAttr, tree`resolvePhase, tree`typeRefs
    ensures tree.Valid()
    ensures MarkersAfterWalk(attr0, tree.allPhaseAttr, MarkedIn(tree.shape, done + {y}, inside))
    ensures AfterWalk(tree.shape, phases0, refs0, tree.resolvePhase, tree.typeRefs, done + {y})
  {
    var s := tree.shape;
    MarkedInStep(s, done, inside, y);
    if y in inside || !GoesThroughDesignation(s.decls[y].kind) {
      MarkersAfterWalkStep(attr0, tree.allPhaseAttr, MarkedIn(s, done, inside), y);
    }
    AfterWalkStep(s, phases0, refs0, tree.resolvePhase, tree.typeRefs, done, y);
    TransformElement(tree, y, y in inside);
  }

  /**
   * designation.firFile.transform(this) followed by the checks that close the phase: the walk
   * over the designation, ensureResolved on the path, ensureResolvedDeep on the target. The
   * markers of the target and all it contains go to TYPES; the file's, the path classes' and
   * every other marker outside Marked stay as they were.
   */
  method TransformFile(tree: DeclarationTree, designation: Designation) returns (o: Outcome<Failure>)
    requires tree.Valid() && DesignationIn(tree.shape, designation)
    modifies tree`allPhaseAttr, tree`resolvePhase, tree`typeRefs
    ensures tree.Valid()
    ensures MarkersGrow(old(tree.allPhaseAttr), tree.allPhaseAttr)
    ensures MarkersAfterWalk(old(tree.allPhaseAttr), tree.allPhaseAttr, Marked(tree.shape, designation))
    ensures forall y {:trigger ResolvePhaseWithForAllDeclarations(tree.allPhaseAttr, y)} ::
      y in Subtree(tree.shape, designation.declaration) ==> Le(Types, ResolvePhaseWithForAllDeclarations(tree.allPhaseAttr, y))
    ensures AfterWalk(tree.shape, old(tree.resolvePhase), old(tree.typeRefs), tree.resolvePhase, tree.typeRefs,
                      Walked(tree.shape, designation))
    ensures o.Pass? <==>
      && EnsureResolvedAll(tree.shape, tree.resolvePhase, tree.typeRefs, designation.path).Pass?
      && EnsureResolvedDeep(tree.shape, tree.resolvePhase, tree.typeRefs, designation.declaration).Pass?
  {
    var s := tree.shape;
    ResolveTypesIn(tree, Walked(s, designation), Subtree(s, designation.declaration));
    MarkedSubtreeAtTypes(old(tree.allPhaseAttr), tree.allPhaseAttr, Marked(s, designation), Subtree(s, designation.declaration));
    o := EnsureResolvedAll(s, tree.resolvePhase, tree.typeRefs, designation.path);
    if o.Fail? {
      return;
    }
    o := EnsureResolvedDeep(s, tree.resolvePhase, tree.typeRefs, designation.declaration);
  }

  /** Every marker the walk raised has reached TYPES. */
  lemma MarkedSubtreeAtTypes(attr0: map<DeclId, Phase>, attr: map<DeclId, Phase>, m: set<DeclId>, sub: set<DeclId>)
    requires MarkersAfterWalk(attr0, attr, m) && sub <= m
    ensures forall y {:trigger ResolvePhaseWithForAllDeclarations(attr, y)} ::
      y in sub ==> Le(Types, ResolvePhaseWithForAllDeclarations(attr, y))
  {
  }

  /**
   * transformDeclaration of the TYPES phase: nothing when the designation is already resolved
   * for TYPES; otherwise the target's marker goes to TYPES first, the classes on the
   * designation must have reached SUPER_TYPES, and then the file is transformed.
   */
  method TransformDeclaration(tree: DeclarationTree, designation: Designation, isOnAirResolve: bool)
    returns (o: Outcome<Failure>)
    requires tree.Valid() && DesignationIn(tree.shape, designation)
    modifies tree`allPhaseAttr, tree`resolvePhase, tree`typeRefs
    ensures tree.Valid()
    ensures MarkersGrow(old(tree.allPhaseAttr), tree.allPhaseAttr)
    ensures PhasesGrow(old(tree.resolvePhase), tree.resolvePhase)
    ensures IsResolvedForAllDeclarations(tree.allPhaseAttr, tree.resolvePhase, designation, Types, false)
    ensures IsResolvedForAllDeclarations(old(tree.allPhaseAttr), old(tree.resolvePhase), designation, Types, isOnAirResolve) ==>
      o.Pass? && unchanged(tree`allPhaseAttr, tree`resolvePhase, tree`typeRefs)
    ensures !IsResolvedForAllDeclarations(old(tree.allPhaseAttr), old(tree.resolvePhase), designation, Types, isOnAirResolve)
            && !ClassesReached(tree.shape, old(tree.resolvePhase), designation, SuperTypes) ==>
      && o == Fail(ClassesNotResolvedToSuperTypes)
      && tree.allPhaseAttr == Updated(old(tree.allPhaseAttr), designation.declaration, Types)
      && unchanged(tree`resolvePhase, tree`typeRefs)
    ensures !IsResolvedForAllDeclarations(old(tree.allPhaseAttr), old(tree.resolvePhase), designation, Types, isOnAirResolve)
            && ClassesReached(tree.shape, old(tree.resolvePhase), designation, SuperTypes) ==>
      && AfterWalk(tree.shape, old(tree.resolvePhase), old(tree.typeRefs), tree.resolvePhase, tree.typeRefs,
                   Walked(tree.shape, designation))
      && MarkersAfterWalk(old(tree.allPhaseAttr), tree.allPhaseAttr, Marked(tree.shape, designation))
      && (forall y {:trigger ResolvePhaseWithForAllDeclarations(tree.allPhaseAttr, y)} ::
            y in Subtree(tree.shape, designation.declaration) ==> Le(Types, ResolvePhaseWithForAllDeclarations(tree.allPhaseAttr, y)))
      && (o.Pass? <==>
            && EnsureResolvedAll(tree.shape, tree.resolvePhase, tree.typeRefs, designation.path).Pass?
            && EnsureResolvedDeep(tree.shape, tree.resolvePhase, tree.typeRefs, designation.declaration).Pass?)
  {
    if IsResolvedForAllDeclarations(tree.allPhaseAttr, tree.resolvePhase, designation, Types, isOnAirResolve) {
      return Pass;
    }
    UpdateResolvedForAllDeclarations(tree, designation.declaration, Types);
    UpdatedResolves(old(tree.allPhaseAttr), tree.resolvePhase, designation, designation.declaration, Types);
    if !ClassesReached(tree.shape, tree.resolvePhase, designation, SuperTypes) {
      return Fail(ClassesNotResolvedToSuperTypes);
    }
    ghost var marked := tree.allPhaseAttr;
    ghost var phasesBefore := tree.resolvePhase;
    o := TransformFile(tree, designation);
    AfterWalkGrows(tree.shape, phasesBefore, old(tree.typeRefs), tree.resolvePhase, tree.typeRefs, Walked(tree.shape, designation));
    MarkersGrowTransitive(old(tree.allPhaseAttr), marked, tree.allPhaseAttr);
    ResolvedStable(marked, tree.allPhaseAttr, phasesBefore, designation, Types);
    MarkersAfterWalkAbsorb(old(tree.allPhaseAttr), tree.allPhaseAttr, Marked(tree.shape, designation), designation.declaration);
  }

  /**
   * The walk over d leaves the resolved status of another designation e as it was when the
   * walk marks nothing on e's path or target: a sibling of d's target inside the same class,
   * say, does not read as resolved to TYPES because d's target was resolved.
   */
  lemma SiblingResolvedUnchanged(s: Shape, attr0: map<DeclId, Phase>, attr: map<DeclId, Phase>, phases: map<DeclId, Phase>,
                                 d: Designation, e: Designation, p: Phase)
    requires TreeShaped(s) && DesignationIn(s, d) && DesignationIn(s, e) && e.declaration in phases
    requires MarkersAfterWalk(attr0, attr, Marked(s, d))
    requires forall i :: 0 <= i < |e.path| ==>
      (e.path[i] in d.path && s.decls[e.path[i]].kind == RegularClass) && e.path[i] !in Subtree(s, d.declaration)
    requires e.declaration !in Subtree(s, d.declaration) && e.declaration !in d.path && e.declaration != d.firFile
    ensures IsResolvedForAllDeclarations(attr, phases, e, p, false) <==> IsResolvedForAllDeclarations(attr0, phases, e, p, false)
  {
    var m := Marked(s, d);
    forall x | x in e.ToSequence()
      ensures ResolvePhaseWithForAllDeclarations(attr, x) == ResolvePhaseWithForAllDeclarations(attr0, x)
    {
      if x == e.declaration {
        assert x !in Walked(s, d);
      } else {
        var i :| 0 <= i < |e.path| && e.path[i] == x;
        var j :| 0 <= j < |d.path| && d.path[j] == x;
        assert x !in m;
      }
      assert ResolvePhaseWithForAllDeclarations(attr, x) == if x in m then Max(ResolvePhaseWithForAllDeclarations(attr0, x), Types)
        else ResolvePhaseWithForAllDeclarations(attr0, x);
    }
    ResolvePhaseLocal(attr, attr0, phases, e);
  }

  /** After the walk, the classes and type aliases on the path pass ensureResolved. */
  lemma PathPasses(s: Shape, phases0: map<DeclId, Phase>, refs0: map<DeclId, TypeRefs>,
                   phases: map<DeclId, Phase>, refs: map<DeclId, TypeRefs>, d: Designation)
    requires StateOf(s, phases0, refs0) && DesignationIn(s, d)
    requires AfterWalk(s, phases0, refs0, phases, refs, Walked(s, d))
    requires forall i :: 0 <= i < |d.path| ==> s.decls[d.path[i]].kind == RegularClass || s.decls[d.path[i]].kind == TypeAlias
    ensures StateOf(s, phases, refs)
    ensures EnsureResolvedAll(s, phases, refs, d.path).Pass?
  {
    var w := Walked(s, d);
    forall i | 0 <= i < |d.path| ensures EnsureResolved(s, phases, refs, d.path[i]).Pass?
    {
      var x := d.path[i];
      assert x in w && TakesTypesPhase(s.decls[x].kind);
      assert phases[x] == Max(phases0[x], Types);
      ClassLikePasses(s, phases, refs, x);
    }
  }

  /** A class or type alias that has reached TYPES passes ensureResolved. */
  lemma ClassLikePasses(s: Shape, phases: map<DeclId, Phase>, refs: map<DeclId, TypeRefs>, x: DeclId)
    requires StateOf(s, phases, refs) && x in s.decls
    requires s.decls[x].kind == RegularClass || s.decls[x].kind == TypeAlias
    requires Le(Types, phases[x])
    ensures EnsureResolved(s, phases, refs, x).Pass?
  {
  }

  /**
   * When the classes on the designation have reached SUPER_TYPES, its path holds regular
   * classes and type aliases, and everything under the target is checkable, the checks that
   * close the phase pass after the walk.
   */
  lemma WalkEstablishesChecks(s: Shape, phases0: map<DeclId, Phase>, refs0: map<DeclId, TypeRefs>,
                              phases: map<DeclId, Phase>, refs: map<DeclId, TypeRefs>, d: Designation)
    requires StateOf(s, phases0, refs0) && DesignationIn(s, d)
    requires AfterWalk(s, phases0, refs0, phases, refs, Walked(s, d))
    requires forall i :: 0 <= i < |d.path| ==> s.decls[d.path[i]].kind == RegularClass || s.decls[d.path[i]].kind == TypeAlias
    requires forall z :: z in Subtree(s, d.declaration) ==> Checkable(s, refs0, z)
    ensures StateOf(s, phases, refs)
    ensures EnsureResolvedAll(s, phases, refs, d.path).Pass?
    ensures EnsureResolvedDeep(s, phases, refs, d.declaration).Pass?
  {
    var w := Walked(s, d);
    PathPasses(s, phases0, refs0, phases, refs, d);
    forall z | z in Subtree(s, d.declaration)
      ensures EnsureResolved(s, phases, refs, z).Pass?
    {
      SubtreeTransitive(s, d.declaration, z);
      WalkedPasses(s, phases0, refs0, phases, refs, w, z);
    }
    DeepPassesOnSubtree(s, phases, refs, d.declaration);
  }

}
