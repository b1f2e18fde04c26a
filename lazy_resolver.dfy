/**
 * FirLazyDeclarationResolver: which declaration a request is really about, which transformer
 * runs each phase, and the drivers that bring a declaration from the phase it has reached to
 * the phase asked for: file-wise up to IMPORTS, then phase by phase on its designation.
 */
module LazyResolver {
  import opened Wrappers
  import opened Phases
  import opened FirTree
  import opened LazyTransformer
  import FileResolve
  import ST = SupertypeResolver
  import TR = TypeResolver

  // ---------------------------------------------------------------------------------------
  // declarationCanBeLazilyResolved
  // ---------------------------------------------------------------------------------------

  /** The parent of a callable or enum entry that makes it visible from outside any body. */
  predicate VisibleFromOutside(parent: KtParent)
  {
    parent == InKtFile || parent == InKtClassBody(true)
  }

  /**
   * declarationCanBeLazilyResolved: only a named declaration that can be found from outside
   * every body can be resolved on its own; a named declaration of an unexpected kind is an error.
   */
  function DeclarationCanBeLazilyResolved(k: KtDeclaration): (r: Result<bool, Failure>)
    ensures r.Err? <==> k.kind == KtOtherNamed
    ensures r.Err? ==> r.error == UnexpectedKtDeclaration
    ensures (|| k.kind.Unnamed? || k.kind.KtPropertyAccessor? || k.kind.KtDestructuringDeclarationEntry?
             || k.kind.KtFunctionLiteral? || k.kind.KtTypeParameter? || k.kind.KtPrimaryConstructor?) ==> r == Ok(false)
    ensures k.kind == KtParameter ==> (r == Ok(true) <==> k.hasValOrVar && k.containingClassHasClassId)
    ensures k.kind == KtProperty || k.kind == KtOtherCallable || k.kind == KtEnumEntry ==>
      (r == Ok(true) <==> VisibleFromOutside(k.parent))
    ensures k.kind == KtClassLike ==> (r == Ok(true) <==> k.hasClassId)
  {
    match k.kind
    case Unnamed => Ok(false)
    case KtPropertyAccessor(_) => Ok(false)
    case KtDestructuringDeclarationEntry => Ok(false)
    case KtFunctionLiteral => Ok(false)
    case KtTypeParameter => Ok(false)
    case KtPrimaryConstructor => Ok(false)
    case KtParameter => Ok(k.hasValOrVar && k.containingClassHasClassId)
    case KtProperty => Ok(VisibleFromOutside(k.parent))
    case KtOtherCallable => Ok(VisibleFromOutside(k.parent))
    case KtEnumEntry => Ok(VisibleFromOutside(k.parent))
    case KtClassLike => Ok(k.hasClassId)
    case KtOtherNamed => Err(UnexpectedKtDeclaration)
  }

  // ---------------------------------------------------------------------------------------
  // getNonLocalDeclarationToResolve
  // ---------------------------------------------------------------------------------------

  /** Property accessors, type parameters and value parameters are resolved through a container. */
  predicate ResolvedThroughContainer(k: Kind)
  {
    k == PropertyAccessor || k == TypeParameter || k == ValueParameter
  }

  /** getNonLocalContainingOrThisDeclaration, which must find a declaration. */
  function NonLocalContainer(k: KtDeclaration): (r: Result<KtId, Failure>)
    ensures r.Ok? <==> k.nonLocalContainer.Some?
    ensures r.Ok? ==> Some(r.value) == k.nonLocalContainer
    ensures r.Err? ==> r.error == ContainingDeclarationNotFound
  {
    if k.nonLocalContainer.Some? then Ok(k.nonLocalContainer.value) else Err(ContainingDeclarationNotFound)
  }

  /**
   * The KtDeclaration an accessor or parameter is resolved through: the property of an
   * accessor (for a default accessor built from a delegate call, the delegated property),
   * a property itself, or the non-local container of a parameter.
   */
  function ContainingResolvable(s: Shape, x: Declaration): (r: Result<KtId, Failure>)
    ensures r.Err? ==> r.error == ContainingDeclarationNotFound || r.error == InvalidAccessorSource
    ensures x.psi.NoPsi? || x.psi.OtherPsi? ==> r.Err?
    ensures x.psi.CallExpressionPsi? ==>
      (r.Ok? <==> x.source == FakeDefaultAccessor && x.psi.delegatedProperty.Some?)
    ensures r.Ok? && x.psi.DeclarationPsi? ==>
      && x.psi.kt in s.psi
      && (|| s.psi[x.psi.kt].kind == KtPropertyAccessor(r.value)
          || (s.psi[x.psi.kt].kind == KtProperty && r.value == x.psi.kt)
          || ((s.psi[x.psi.kt].kind == KtParameter || s.psi[x.psi.kt].kind == KtTypeParameter) &&
              s.psi[x.psi.kt].nonLocalContainer == Some(r.value)))
  {
    match x.psi
    case NoPsi => Err(ContainingDeclarationNotFound)
    case DeclarationPsi(k) =>
      if k !in s.psi then Err(InvalidAccessorSource)
      else (match s.psi[k].kind
        case KtPropertyAccessor(p) => Ok(p)
        case KtProperty => Ok(k)
        case KtParameter => NonLocalContainer(s.psi[k])
        case KtTypeParameter => NonLocalContainer(s.psi[k])
        case _ => Err(InvalidAccessorSource))
    case CallExpressionPsi(p) =>
      if x.source != FakeDefaultAccessor || p.None? then Err(InvalidAccessorSource) else Ok(p.value)
    case OtherPsi(_) => Err(InvalidAccessorSource)
  }

  /** The element resolved in place of k: k itself when it can be lazily resolved, else its non-local container. */
  function TargetElement(s: Shape, k: KtId): (r: Result<KtId, Failure>)
    ensures k !in s.psi ==> r == Err(NotAKtDeclaration)
    ensures r.Ok? ==>
      && k in s.psi
      && (|| (DeclarationCanBeLazilyResolved(s.psi[k]) == Ok(true) && r.value == k)
          || (DeclarationCanBeLazilyResolved(s.psi[k]) == Ok(false) && s.psi[k].nonLocalContainer == Some(r.value)))
    ensures k in s.psi && DeclarationCanBeLazilyResolved(s.psi[k]).Ok? && r.Err? ==> r.error == ContainingDeclarationNotFound
  {
    if k !in s.psi then Err(NotAKtDeclaration)
    else match DeclarationCanBeLazilyResolved(s.psi[k])
      case Err(e) => Err(e)
      case Ok(true) => Ok(k)
      case Ok(false) => NonLocalContainer(s.psi[k])
  }

  /** findSourceNonLocalFirDeclaration: the FIR declaration built from a KtDeclaration. */
  function FindSourceNonLocalFirDeclaration(s: Shape, k: KtId): (r: Result<DeclId, Failure>)
    requires WellFormed(s)
    ensures r.Ok? <==> k in s.psi && s.psi[k].fir.Some?
    ensures r.Ok? ==> r.value == s.psi[k].fir.value && r.value in s.decls
    ensures r.Err? ==> r.error == ContainingDeclarationNotFound
  {
    if k in s.psi && s.psi[k].fir.Some? then Ok(s.psi[k].fir.value) else Err(ContainingDeclarationNotFound)
  }

  /**
   * The FIR declaration of the non-local container of k: getNonLocalContainingOrThisDeclaration,
   * which must find one, then findSourceNonLocalFirDeclaration on it.
   */
  function NonLocalContainerFir(s: Shape, k: KtId): (r: Result<DeclId, Failure>)
    requires WellFormed(s) && k in s.psi
    ensures r.Ok? <==> s.psi[k].nonLocalContainer.Some? && s.psi[k].nonLocalContainer.value in s.psi
                       && s.psi[s.psi[k].nonLocalContainer.value].fir.Some?
    ensures r.Ok? ==> r.value == s.psi[s.psi[k].nonLocalContainer.value].fir.value
    ensures r.Err? ==> r.error == ContainingDeclarationNotFound
  {
    match NonLocalContainer(s.psi[k])
    case Err(e) => Err(e)
    case Ok(c) => FindSourceNonLocalFirDeclaration(s, c)
  }

  /**
   * `psi as? KtDeclaration`, or for a fake source the nearest KtDeclaration around its
   * element; None when there is neither.
   */
  function KtDeclarationOf(s: Shape, x: Declaration): (r: Option<KtId>)
    ensures r.Some? ==> r.value in s.psi
  {
    var k := match x.psi
      case DeclarationPsi(k) => Some(k)
      case CallExpressionPsi(p) => if x.source != RealSource then p else None
      case OtherPsi(e) => if x.source != RealSource then e else None
      case NoPsi => None;
    if k.Some? && k.value in s.psi then k else None
  }

  /** A declaration resolved as itself: a file, or a real declaration that can be lazily resolved. */
  predicate ResolvedAsItself(s: Shape, d: DeclId)
    requires d in s.decls
  {
    var x := s.decls[d];
    || x.kind == File
    || (&& !ResolvedThroughContainer(x.kind) && x.source == RealSource && KtDeclarationOf(s, x).Some?
        && DeclarationCanBeLazilyResolved(s.psi[KtDeclarationOf(s, x).value]) == Ok(true))
  }

  /**
   * getNonLocalDeclarationToResolve: the non-local declaration whose designation is resolved
   * when d is asked for. A file, or a real declaration that can be lazily resolved, stands for
   * itself; anything else is promoted through the PSI to the FIR declaration of its non-local
   * container, and an accessor to its property.
   */
  function GetNonLocalDeclarationToResolve(s: Shape, d: DeclId): (r: Result<DeclId, Failure>)
    requires WellFormed(s) && d in s.decls
    ensures r.Ok? ==> r.value in s.decls
    ensures ResolvedAsItself(s, d) ==> r == Ok(d)
    ensures !ResolvedAsItself(s, d) && r.Ok? ==> exists k :: k in s.psi && s.psi[k].fir == Some(r.value)
    ensures s.decls[d].kind == PropertyAccessor && s.decls[d].psi.DeclarationPsi? && s.decls[d].psi.kt in s.psi
            && s.psi[s.decls[d].psi.kt].kind.KtPropertyAccessor? ==>
      var property := s.psi[s.decls[d].psi.kt].kind.property;
      property in s.psi && DeclarationCanBeLazilyResolved(s.psi[property]) == Ok(true) ==>
        r == FindSourceNonLocalFirDeclaration(s, property)
    ensures r.Err? && !ResolvedThroughContainer(s.decls[d].kind) && KtDeclarationOf(s, s.decls[d]).None? ==>
      r.error == NotAKtDeclaration
    ensures ResolvedThroughContainer(s.decls[d].kind) && ContainingResolvable(s, s.decls[d]).Err? ==>
      r == Err(ContainingResolvable(s, s.decls[d]).error)
    ensures ResolvedThroughContainer(s.decls[d].kind) && ContainingResolvable(s, s.decls[d]).Ok? ==>
      var k := ContainingResolvable(s, s.decls[d]).value;
      && (k in s.psi && DeclarationCanBeLazilyResolved(s.psi[k]) == Ok(true) ==> r == FindSourceNonLocalFirDeclaration(s, k))
      && (k in s.psi && DeclarationCanBeLazilyResolved(s.psi[k]) == Ok(false) ==> r == NonLocalContainerFir(s, k))
    ensures s.decls[d].kind != File && !ResolvedThroughContainer(s.decls[d].kind) && KtDeclarationOf(s, s.decls[d]).Some? ==>
      var k := KtDeclarationOf(s, s.decls[d]).value;
      && (s.decls[d].source != RealSource || DeclarationCanBeLazilyResolved(s.psi[k]) == Ok(false) ==>
            r == NonLocalContainerFir(s, k))
      && (s.decls[d].source == RealSource && DeclarationCanBeLazilyResolved(s.psi[k]).Err? ==>
            r == Err(UnexpectedKtDeclaration))
  {
    var x := s.decls[d];
    if x.kind == File then Ok(d)
    else if ResolvedThroughContainer(x.kind) then
      match ContainingResolvable(s, x)
      case Err(e) => Err(e)
      case Ok(k) =>
        match TargetElement(s, k)
        case Err(e) => Err(e)
        case Ok(t) => FindSourceNonLocalFirDeclaration(s, t)
    else
      match KtDeclarationOf(s, x)
      case None => Err(NotAKtDeclaration)
      case Some(k) =>
        if x.source == RealSource && DeclarationCanBeLazilyResolved(s.psi[k]).Err? then
          Err(UnexpectedKtDeclaration)
        else if x.source == RealSource && DeclarationCanBeLazilyResolved(s.psi[k]) == Ok(true) then
          Ok(d)
        else
          NonLocalContainerFir(s, k)
  }

  /**
   * collectDesignation(containerFirFile) of the declaration getNonLocalDeclarationToResolve
   * picks: the designation the designated phases run on.
   */
  function DesignationToResolve(s: Shape, d: DeclId, file: DeclId): (r: Result<Designation, Failure>)
    requires WellFormed(s) && d in s.decls && file in s.decls && s.decls[file].kind == File
    ensures r.Err? <==> GetNonLocalDeclarationToResolve(s, d).Err?
    ensures r.Err? ==> r.error == GetNonLocalDeclarationToResolve(s, d).error
    ensures r.Ok? ==>
      && DesignationIn(s, r.value)
      && r.value.declaration == GetNonLocalDeclarationToResolve(s, d).value
      && r.value.firFile == file
      && r.value.path == OwnDesignation(s, r.value.declaration).path
  {
    match GetNonLocalDeclarationToResolve(s, d)
    case Err(e) => Err(e)
    case Ok(x) => Ok(OwnDesignation(s, x).(firFile := file))
  }

  // ---------------------------------------------------------------------------------------
  // createLazyTransformer
  // ---------------------------------------------------------------------------------------

  /** The phases whose transformer raises the marker of its designation once it has run. */
  predicate MarksDesignation(p: Phase)
  {
    p == Types || p == Status || p == Contracts || p == ImplicitTypesBodyResolve || p == BodyResolve
  }

  /** The phase a transformer runs; DUMMY stands in for SEALED_CLASS_INHERITORS. */
  function TransformerPhase(t: LazyTransformer): Phase
  {
    match t
    case Dummy => SealedClassInheritors
    case SupertypeResolver(_, _) => SuperTypes
    case TypeResolver(_, _) => Types
    case StatusResolver(_, _) => Status
    case ContractsResolver(_, _) => Contracts
    case ImplicitTypesResolver(_, _) => ImplicitTypesBodyResolve
    case BodyResolver(_, _) => BodyResolve
  }

  /**
   * createLazyTransformer: the transformer of each lazy phase, built for the designation;
   * RAW_FIR and IMPORTS are file-wise phases and have none.
   */
  function CreateLazyTransformer(phase: Phase, designation: Designation, isOnAirResolve: bool): (r: Result<LazyTransformer, Failure>)
    ensures r.Err? <==> !Lt(LastNonLazyPhase, phase)
    ensures r.Err? ==> r.error == NonLazyPhase
    ensures r.Ok? ==> TransformerPhase(r.value) == phase
    ensures r.Ok? && !r.value.Dummy? ==> r.value.designation == designation && r.value.isOnAirResolve == isOnAirResolve
  {
    if phase == RawFir || phase == Imports then Err(NonLazyPhase)
    else if phase == SuperTypes then Ok(SupertypeResolver(designation, isOnAirResolve))
    else if phase == SealedClassInheritors then Ok(Dummy)
    else if phase == Types then Ok(TypeResolver(designation, isOnAirResolve))
    else if phase == Status then Ok(StatusResolver(designation, isOnAirResolve))
    else if phase == Contracts then Ok(ContractsResolver(designation, isOnAirResolve))
    else if phase == ImplicitTypesBodyResolve then Ok(ImplicitTypesResolver(designation, isOnAirResolve))
    else Ok(BodyResolver(designation, isOnAirResolve))
  }

  /** Every transformer is the one createLazyTransformer builds for its phase. */
  lemma CreateLazyTransformerOfPhase(t: LazyTransformer, designation: Designation, isOnAirResolve: bool)
    ensures t.Dummy? ==> CreateLazyTransformer(TransformerPhase(t), designation, isOnAirResolve) == Ok(t)
    ensures !t.Dummy? ==> CreateLazyTransformer(TransformerPhase(t), t.designation, t.isOnAirResolve) == Ok(t)
  {
  }

  // ---------------------------------------------------------------------------------------
  // The phases the designated loop runs
  // ---------------------------------------------------------------------------------------

  /** The phases the designated loop hands to a transformer: each phase after from up to to, skipping plugin phases. */
  function PhasesToRun(from: Phase, to: Phase, plugins: set<Phase>): seq<Phase>
    decreases Ord(to) - Ord(from)
  {
    if !Lt(from, to) then []
    else (if Next(from) in plugins then [] else [Next(from)]) + PhasesToRun(Next(from), to, plugins)
  }

  /** Only non-plugin phases strictly after from and no later than to are run. */
  lemma {:induction false} PhasesToRunSound(from: Phase, to: Phase, plugins: set<Phase>, p: Phase)
    ensures p in PhasesToRun(from, to, plugins) ==> Lt(from, p) && Le(p, to) && p !in plugins
    decreases Ord(to) - Ord(from)
  {
    if Lt(from, to) {
      var next := Next(from);
      var head := if next in plugins then [] else [next];
      var tail := PhasesToRun(next, to, plugins);
      assert PhasesToRun(from, to, plugins) == head + tail;
      PhasesToRunSound(next, to, plugins, p);
      NextIsImmediate(from, to);
      assert p in head ==> p == next && next !in plugins;
    }
  }

  /** Every non-plugin phase strictly after from and no later than to is run. */
  lemma {:induction false} PhasesToRunComplete(from: Phase, to: Phase, plugins: set<Phase>, p: Phase)
    ensures Lt(from, p) && Le(p, to) && p !in plugins ==> p in PhasesToRun(from, to, plugins)
    decreases Ord(to) - Ord(from)
  {
    if Lt(from, to) {
      var next := Next(from);
      var head := if next in plugins then [] else [next];
      var tail := PhasesToRun(next, to, plugins);
      assert PhasesToRun(from, to, plugins) == head + tail;
      PhasesToRunComplete(next, to, plugins, p);
      NextIsImmediate(from, p);
      OrdInjective(next, p);
      assert p == next && p !in plugins ==> p in head;
    }
  }

  /** Exactly the non-plugin phases strictly after from and no later than to are run. */
  lemma PhasesToRunMembers(from: Phase, to: Phase, plugins: set<Phase>, p: Phase)
    ensures p in PhasesToRun(from, to, plugins) <==> Lt(from, p) && Le(p, to) && p !in plugins
  {
    PhasesToRunSound(from, to, plugins, p);
    PhasesToRunComplete(from, to, plugins, p);
  }

  /** A sequence of phases in strictly increasing order. */
  predicate Increasing(r: seq<Phase>)
  {
    forall i, j :: 0 <= i < j < |r| ==> Lt(r[i], r[j])
  }

  /** They are run in increasing order, hence each at most once. */
  lemma {:induction false} PhasesToRunIncreasing(from: Phase, to: Phase, plugins: set<Phase>)
    ensures Increasing(PhasesToRun(from, to, plugins))
    decreases Ord(to) - Ord(from)
  {
    if Lt(from, to) {
      var next := Next(from);
      var tail := PhasesToRun(next, to, plugins);
      PhasesToRunIncreasing(next, to, plugins);
      if next !in plugins {
        var r := [next] + tail;
        assert PhasesToRun(from, to, plugins) == r;
        assert r[0] == next && r[1..] == tail;
        forall i, j | 0 <= i < j < |r|
          ensures Lt(r[i], r[j])
        {
          assert r[j] == r[1..][j - 1];
          if i == 0 {
            PhasesToRunMembers(next, to, plugins, tail[j - 1]);
          } else {
            assert r[i] == r[1..][i - 1];
          }
        }
      } else {
        assert PhasesToRun(from, to, plugins) == tail;
      }
    }
  }

  /** One more turn of the loop adds the phase it reaches, unless that is a plugin phase. */
  lemma {:induction false} PhasesToRunStep(from: Phase, current: Phase, plugins: set<Phase>)
    requires Le(from, current) && current != BodyResolve
    ensures PhasesToRun(from, Next(current), plugins)
      == PhasesToRun(from, current, plugins) + (if Next(current) in plugins then [] else [Next(current)])
    decreases Ord(current) - Ord(from)
  {
    OrdInjective(from, current);
    if Lt(from, current) {
      NextIsImmediate(from, current);
      PhasesToRunStep(Next(from), current, plugins);
      var head := if Next(from) in plugins then [] else [Next(from)];
      var last := if Next(current) in plugins then [] else [Next(current)];
      calc {
        PhasesToRun(from, Next(current), plugins);
        head + PhasesToRun(Next(from), Next(current), plugins);
        head + (PhasesToRun(Next(from), current, plugins) + last);
        head + PhasesToRun(Next(from), current, plugins) + last;
        PhasesToRun(from, current, plugins) + last;
      }
    }
  }

  // ---------------------------------------------------------------------------------------
  // Transformers
  // ---------------------------------------------------------------------------------------

  /**
   * The STATUS, CONTRACTS, IMPLICIT_TYPES_BODY_RESOLVE and BODY_RESOLVE transformers, whose
   * source is not part of this model: like the TYPES transformer they return at once when the
   * designation is already resolved for their phase, and otherwise do their work, recorded as
   * an event, and raise the marker of the designation's target.
   */
  method RunMarkingTransformer(tree: DeclarationTree, phase: Phase, designation: Designation, isOnAirResolve: bool)
    requires tree.Valid() && DesignationIn(tree.shape, designation)
    modifies tree`allPhaseAttr, tree`events
    ensures tree.Valid()
    ensures IsResolvedForAllDeclarations(old(tree.allPhaseAttr), tree.resolvePhase, designation, phase, isOnAirResolve) ==>
      tree.allPhaseAttr == old(tree.allPhaseAttr) && tree.events == old(tree.events)
    ensures !IsResolvedForAllDeclarations(old(tree.allPhaseAttr), tree.resolvePhase, designation, phase, isOnAirResolve) ==>
      && tree.allPhaseAttr == Updated(old(tree.allPhaseAttr), designation.declaration, phase)
      && tree.events == old(tree.events) + [DesignatedPhaseRun(phase, designation.declaration)]
    ensures MarkersGrow(old(tree.allPhaseAttr), tree.allPhaseAttr)
    ensures IsResolvedForAllDeclarations(tree.allPhaseAttr, tree.resolvePhase, designation, phase, false)
  {
    if IsResolvedForAllDeclarations(tree.allPhaseAttr, tree.resolvePhase, designation, phase, isOnAirResolve) {
      if isOnAirResolve {
        OnAirResolvedIsResolved(tree.allPhaseAttr, tree.resolvePhase, designation, phase);
      }
      MarkersGrowReflexive(tree.allPhaseAttr);
      return;
    }
    UpdatedResolves(tree.allPhaseAttr, tree.resolvePhase, designation, designation.declaration, phase);
    UpdateResolvedForAllDeclarations(tree, designation.declaration, phase);
    tree.events := tree.events + [DesignatedPhaseRun(phase, designation.declaration)];
  }

  /** The SUPER_TYPES transformer, seen from the driver: it keeps the tree valid and only raises phases and markers. */
  method RunSupertypeTransformer(tree: DeclarationTree, designation: Designation, isOnAirResolve: bool)
    returns (o: Outcome<Failure>)
    requires tree.Valid() && DesignationIn(tree.shape, designation)
    modifies tree`allPhaseAttr, tree`resolvePhase, tree`typeRefs, tree`events
    ensures tree.Valid()
    ensures MarkersGrow(old(tree.allPhaseAttr), tree.allPhaseAttr)
    ensures PhasesGrow(old(tree.resolvePhase), tree.resolvePhase)
  {
    var visited;
    ghost var applied, worklistLog, applyLog;
    o, visited, applied, worklistLog, applyLog := ST.TransformDeclaration(tree, designation, isOnAirResolve);
  }

  /** The TYPES transformer, seen from the driver: afterwards the designation is resolved for TYPES. */
  method RunTypeTransformer(tree: DeclarationTree, designation: Designation, isOnAirResolve: bool)
    returns (o: Outcome<Failure>)
    requires tree.Valid() && DesignationIn(tree.shape, designation)
    modifies tree`allPhaseAttr, tree`resolvePhase, tree`typeRefs
    ensures tree.Valid()
    ensures MarkersGrow(old(tree.allPhaseAttr), tree.allPhaseAttr)
    ensures PhasesGrow(old(tree.resolvePhase), tree.resolvePhase)
    ensures IsResolvedForAllDeclarations(tree.allPhaseAttr, tree.resolvePhase, designation, Types, false)
  {
    o := TR.TransformDeclaration(tree, designation, isOnAirResolve);
  }

  /** transformer.transformDeclaration(), for each kind of transformer. */
  method TransformDeclaration(tree: DeclarationTree, t: LazyTransformer) returns (o: Outcome<Failure>)
    requires tree.Valid() && (!t.Dummy? ==> DesignationIn(tree.shape, t.designation))
    modifies tree`allPhaseAttr, tree`resolvePhase, tree`typeRefs, tree`events
    ensures tree.Valid()
    ensures MarkersGrow(old(tree.allPhaseAttr), tree.allPhaseAttr)
    ensures PhasesGrow(old(tree.resolvePhase), tree.resolvePhase)
    ensures t.Dummy? ==> o.Pass? && unchanged(tree`allPhaseAttr, tree`resolvePhase, tree`typeRefs, tree`events)
    ensures MarksDesignation(TransformerPhase(t)) ==>
      IsResolvedForAllDeclarations(tree.allPhaseAttr, tree.resolvePhase, t.designation, TransformerPhase(t), false)
  {
    match t
    case Dummy =>
      MarkersGrowReflexive(tree.allPhaseAttr);
      o := Pass;
    case SupertypeResolver(designation, isOnAirResolve) =>
      o := RunSupertypeTransformer(tree, designation, isOnAirResolve);
    case TypeResolver(designation, isOnAirResolve) =>
      o := RunTypeTransformer(tree, designation, isOnAirResolve);
    case StatusResolver(designation, isOnAirResolve) =>
      RunMarkingTransformer(tree, Status, designation, isOnAirResolve);
      o := Pass;
    case ContractsResolver(designation, isOnAirResolve) =>
      RunMarkingTransformer(tree, Contracts, designation, isOnAirResolve);
      o := Pass;
    case ImplicitTypesResolver(designation, isOnAirResolve) =>
      RunMarkingTransformer(tree, ImplicitTypesBodyResolve, designation, isOnAirResolve);
      o := Pass;
    case BodyResolver(designation, isOnAirResolve) =>
      RunMarkingTransformer(tree, BodyResolve, designation, isOnAirResolve);
      o := Pass;
  }

  /** runLazyResolvePhase: the transformer createLazyTransformer builds for the phase transforms the designation. */
  method RunLazyResolvePhase(tree: DeclarationTree, phase: Phase, designation: Designation, isOnAirResolve: bool)
    returns (o: Outcome<Failure>)
    requires tree.Valid() && DesignationIn(tree.shape, designation) && Lt(LastNonLazyPhase, phase)
    modifies tree`allPhaseAttr, tree`resolvePhase, tree`typeRefs, tree`events
    ensures tree.Valid()
    ensures MarkersGrow(old(tree.allPhaseAttr), tree.allPhaseAttr)
    ensures PhasesGrow(old(tree.resolvePhase), tree.resolvePhase)
    ensures phase == SealedClassInheritors ==>
      o.Pass? && unchanged(tree`allPhaseAttr, tree`resolvePhase, tree`typeRefs, tree`events)
    ensures MarksDesignation(phase) ==>
      IsResolvedForAllDeclarations(tree.allPhaseAttr, tree.resolvePhase, designation, phase, false)
  {
    var transformer := CreateLazyTransformer(phase, designation, isOnAirResolve);
    o := TransformDeclaration(tree, transformer.value);
  }

  // ---------------------------------------------------------------------------------------
  // The drivers
  // ---------------------------------------------------------------------------------------

  /**
   * runLazyResolveWithoutLock: nothing when fromPhase >= toPhase; otherwise the file-wise
   * phases up to min(toPhase, IMPORTS), then, when toPhase lies beyond IMPORTS, the designated
   * phases from max(IMPORTS, fromPhase).
   */
  method RunLazyResolveWithoutLock(tree: DeclarationTree, declaration: DeclId, containerFile: DeclId,
                                   fromPhase: Phase, toPhase: Phase, plugins: set<Phase>)
    returns (o: Outcome<Failure>, ghost ran: seq<Phase>)
    requires tree.Valid() && declaration in tree.shape.decls
    requires containerFile in tree.shape.decls && tree.shape.decls[containerFile].kind == File
    modifies tree`allPhaseAttr, tree`resolvePhase, tree`typeRefs, tree`events
    ensures tree.Valid()
    ensures MarkersGrow(old(tree.allPhaseAttr), tree.allPhaseAttr)
    ensures PhasesGrow(old(tree.resolvePhase), tree.resolvePhase)
    ensures !Lt(fromPhase, toPhase) ==>
      o.Pass? && ran == [] && unchanged(tree`allPhaseAttr, tree`resolvePhase, tree`typeRefs, tree`events)
    ensures !Lt(LastNonLazyPhase, toPhase) ==>
      o.Pass? && ran == [] && unchanged(tree`allPhaseAttr, tree`typeRefs)
    ensures Lt(fromPhase, Min(toPhase, LastNonLazyPhase)) ==> Le(Min(toPhase, LastNonLazyPhase), tree.resolvePhase[containerFile])
    ensures o.Pass? && Lt(fromPhase, toPhase) && Lt(LastNonLazyPhase, toPhase) && tree.shape.decls[declaration].kind != File ==>
      && DesignationToResolve(tree.shape, declaration, containerFile).Ok?
      && ran == PhasesToRun(Max(LastNonLazyPhase, fromPhase), toPhase, plugins)
      && (MarksDesignation(toPhase) && toPhase !in plugins ==>
            IsResolvedForAllDeclarations(tree.allPhaseAttr, tree.resolvePhase,
              DesignationToResolve(tree.shape, declaration, containerFile).value, toPhase, false))
    decreases if Lt(LastNonLazyPhase, toPhase) then 2 else 0
  {
    MarkersGrowReflexive(tree.allPhaseAttr);
    ran := [];
    var designatedRemains := FileResolve.RunNonLazyResolve(tree, containerFile, fromPhase, toPhase);
    if !designatedRemains {
      return Pass, ran;
    }
    o, ran := RunLazyDesignatedResolveWithoutLock(tree, declaration, containerFile,
                                                  Max(LastNonLazyPhase, fromPhase), toPhase, false, plugins);
  }

  /**
   * runLazyDesignatedResolveWithoutLock: the file-wise head up to IMPORTS; then, unless the
   * request is already met, the annotations of a file, or, for any other declaration, the
   * lazy phases after max(fromPhase, IMPORTS) up to toPhase in order, plugin phases skipped,
   * on the designation of its non-local declaration. A local designation is an error.
   */
  method RunLazyDesignatedResolveWithoutLock(tree: DeclarationTree, declaration: DeclId, containerFile: DeclId,
                                             fromPhase: Phase, toPhase: Phase, isOnAirResolve: bool, plugins: set<Phase>)
    returns (o: Outcome<Failure>, ghost ran: seq<Phase>)
    requires tree.Valid() && declaration in tree.shape.decls
    requires containerFile in tree.shape.decls && tree.shape.decls[containerFile].kind == File
    modifies tree`allPhaseAttr, tree`resolvePhase, tree`typeRefs, tree`events
    ensures tree.Valid()
    ensures MarkersGrow(old(tree.allPhaseAttr), tree.allPhaseAttr)
    ensures PhasesGrow(old(tree.resolvePhase), tree.resolvePhase)
    ensures !Lt(Max(fromPhase, LastNonLazyPhase), toPhase) ==>
      o.Pass? && ran == [] && unchanged(tree`allPhaseAttr, tree`typeRefs)
    ensures tree.shape.decls[declaration].kind == File ==>
      o.Pass? && ran == [] && unchanged(tree`allPhaseAttr, tree`typeRefs)
    ensures Lt(Max(fromPhase, LastNonLazyPhase), toPhase) && tree.shape.decls[declaration].kind != File ==>
      match DesignationToResolve(tree.shape, declaration, containerFile)
      case Err(e) => o == Fail(e) && ran == [] && unchanged(tree`allPhaseAttr, tree`typeRefs)
      case Ok(designation) =>
        if designation.isLocal then o == Fail(LocalDesignation) && ran == [] && unchanged(tree`allPhaseAttr, tree`typeRefs)
        else o.Pass? ==>
          && ran == PhasesToRun(Max(fromPhase, LastNonLazyPhase), toPhase, plugins)
          && (MarksDesignation(toPhase) && toPhase !in plugins ==>
                IsResolvedForAllDeclarations(tree.allPhaseAttr, tree.resolvePhase, designation, toPhase, false))
    decreases 1
  {
    ghost var ignored;
    o, ignored := RunLazyResolveWithoutLock(tree, declaration, containerFile, fromPhase, LastNonLazyPhase, plugins);
    ran := [];
    var currentPhase := Max(fromPhase, LastNonLazyPhase);
    if Le(toPhase, currentPhase) {
      return Pass, ran;
    }
    if tree.shape.decls[declaration].kind == File {
      FileResolve.ResolveFileAnnotationsWithoutLock(tree, containerFile);
      return Pass, ran;
    }
    var toResolve := DesignationToResolve(tree.shape, declaration, containerFile);
    if toResolve.Err? {
      return Fail(toResolve.error), ran;
    }
    var designation := toResolve.value;
    if designation.isLocal {
      return Fail(LocalDesignation), ran;
    }
    o, ran := RunDesignatedPhases(tree, designation, currentPhase, toPhase, isOnAirResolve, plugins);
  }

  /**
   * The loop of runLazyDesignatedResolveWithoutLock: from fromPhase, step to the next phase
   * until toPhase is reached, skip plugin phases and run the others on the designation,
   * stopping at the first failure.
   */
  method RunDesignatedPhases(tree: DeclarationTree, designation: Designation, fromPhase: Phase, toPhase: Phase,
                             isOnAirResolve: bool, plugins: set<Phase>)
    returns (o: Outcome<Failure>, ghost ran: seq<Phase>)
    requires tree.Valid() && DesignationIn(tree.shape, designation)
    requires Le(LastNonLazyPhase, fromPhase) && Lt(fromPhase, toPhase)
    modifies tree`allPhaseAttr, tree`resolvePhase, tree`typeRefs, tree`events
    ensures tree.Valid()
    ensures MarkersGrow(old(tree.allPhaseAttr), tree.allPhaseAttr)
    ensures PhasesGrow(old(tree.resolvePhase), tree.resolvePhase)
    ensures o.Pass? ==> ran == PhasesToRun(fromPhase, toPhase, plugins)
    ensures o.Pass? && MarksDesignation(toPhase) && toPhase !in plugins ==>
      IsResolvedForAllDeclarations(tree.allPhaseAttr, tree.resolvePhase, designation, toPhase, false)
  {
    MarkersGrowReflexive(tree.allPhaseAttr);
    o, ran := Pass, [];
    var currentPhase := fromPhase;
    while Lt(currentPhase, toPhase)
      invariant tree.Valid()
      invariant Le(fromPhase, currentPhase) && Le(currentPhase, toPhase)
      invariant MarkersGrow(old(tree.allPhaseAttr), tree.allPhaseAttr)
      invariant PhasesGrow(old(tree.resolvePhase), tree.resolvePhase)
      invariant o.Pass? && ran == PhasesToRun(fromPhase, currentPhase, plugins)
      invariant Lt(fromPhase, currentPhase) && currentPhase !in plugins && MarksDesignation(currentPhase) ==>
        IsResolvedForAllDeclarations(tree.allPhaseAttr, tree.resolvePhase, designation, currentPhase, false)
      decreases Ord(toPhase) - Ord(currentPhase)
    {
      PhasesToRunStep(fromPhase, currentPhase, plugins);
      currentPhase := Next(currentPhase);
      if currentPhase in plugins {
        continue;
      }
      ghost var attr1 := tree.allPhaseAttr;
      ghost var phases1 := tree.resolvePhase;
      o := RunLazyResolvePhase(tree, currentPhase, designation, isOnAirResolve);
      MarkersGrowTransitive(old(tree.allPhaseAttr), attr1, tree.allPhaseAttr);
      PhasesGrowTransitive(old(tree.resolvePhase), phases1, tree.resolvePhase);
      ran := ran + [currentPhase];
      if o.Fail? {
        return;
      }
    }
    OrdInjective(currentPhase, toPhase);
  }

  /**
   * lazyResolveDeclaration: nothing for RAW_FIR or a declaration that is not available for
   * resolve; a file is resolved file-wise; any other declaration is resolved through its
   * non-local declaration, unless that is already resolved for toPhase, from the phase its
   * designation has reached, with the designated phases run in its containing file.
   */
  method LazyResolveDeclaration(tree: DeclarationTree, declaration: DeclId, toPhase: Phase, plugins: set<Phase>)
    returns (o: Outcome<Failure>)
    requires tree.Valid() && declaration in tree.shape.decls
    modifies tree`allPhaseAttr, tree`resolvePhase, tree`typeRefs, tree`events
    ensures tree.Valid()
    ensures MarkersGrow(old(tree.allPhaseAttr), tree.allPhaseAttr)
    ensures PhasesGrow(old(tree.resolvePhase), tree.resolvePhase)
    ensures FileResolve.ShouldResolve(tree.shape.decls[declaration].origin, old(tree.resolvePhase)[declaration], toPhase) == Ok(false) ==>
      o.Pass? && unchanged(tree`allPhaseAttr, tree`resolvePhase, tree`typeRefs, tree`events)
    ensures FileResolve.ShouldResolve(tree.shape.decls[declaration].origin, old(tree.resolvePhase)[declaration], toPhase).Err? ==>
      o == Fail(UnavailableDeclarationNotBodyResolved) && unchanged(tree`allPhaseAttr, tree`resolvePhase, tree`typeRefs, tree`events)
    ensures FileResolve.ShouldResolve(tree.shape.decls[declaration].origin, old(tree.resolvePhase)[declaration], toPhase) == Ok(true)
            && tree.shape.decls[declaration].kind == File ==>
      (o.Fail? <==> Lt(Types, toPhase)) && unchanged(tree`allPhaseAttr, tree`typeRefs)
    ensures FileResolve.ShouldResolve(tree.shape.decls[declaration].origin, old(tree.resolvePhase)[declaration], toPhase) == Ok(true)
            && tree.shape.decls[declaration].kind != File ==>
      match GetNonLocalDeclarationToResolve(tree.shape, declaration)
      case Err(e) => o == Fail(e) && unchanged(tree`allPhaseAttr, tree`resolvePhase, tree`typeRefs, tree`events)
      case Ok(resolvable) =>
        if IsResolvedForAllDeclarations(old(tree.allPhaseAttr), old(tree.resolvePhase), OwnDesignation(tree.shape, resolvable), toPhase, false) then
          o.Pass? && unchanged(tree`allPhaseAttr, tree`resolvePhase, tree`typeRefs, tree`events)
        else if ContainingFile(tree.shape, resolvable).None? then
          o == Fail(ContainingFileNotFound) && unchanged(tree`allPhaseAttr, tree`resolvePhase, tree`typeRefs, tree`events)
        else
          o.Pass? && MarksDesignation(toPhase) && toPhase !in plugins ==>
            IsResolvedForAllDeclarations(tree.allPhaseAttr, tree.resolvePhase, OwnDesignation(tree.shape, resolvable), toPhase, false)
  {
    MarkersGrowReflexive(tree.allPhaseAttr);
    var s := tree.shape;
    var go := FileResolve.ShouldResolve(s.decls[declaration].origin, tree.resolvePhase[declaration], toPhase);
    if go.Err? {
      return Fail(go.error);
    }
    if !go.value {
      return Pass;
    }
    if s.decls[declaration].kind == File {
      o := FileResolve.LazyResolveFile(tree, declaration, toPhase);
      return;
    }
    var resolvable := GetNonLocalDeclarationToResolve(s, declaration);
    if resolvable.Err? {
      return Fail(resolvable.error);
    }
    var designation := OwnDesignation(s, resolvable.value);
    var resolvePhase := ResolvePhaseForAllDeclarations(tree.allPhaseAttr, tree.resolvePhase, designation, false);
    if Le(toPhase, resolvePhase) {
      return Pass;
    }
    var firFile := ContainingFile(s, resolvable.value);
    if firFile.None? {
      return Fail(ContainingFileNotFound);
    }
    ghost var ran;
    o, ran := RunLazyResolveWithoutLock(tree, declaration, firFile.value, resolvePhase, toPhase, plugins);
    ResolvedInAnyFile(tree.allPhaseAttr, tree.resolvePhase, designation, firFile.value, toPhase);
  }

  /** ResolveType: the kind of resolution a caller asks for. */
  datatype ResolveType =
    | FileAnnotations
    | CallableReturnType
    | ClassSuperTypes
    | DeclarationStatus
    | ValueParametersTypes
    | TypeParametersTypes
    | AnnotationType
    | AnnotationParameters
    | CallableBodyResolve
    | ResolveForMemberScope
    | ResolveForSuperMembers
    | CallableContracts
    | NoResolve

  /**
   * lazyResolveDeclaration by ResolveType: only a callable's return type may be asked for,
   * and it is resolved as lazyResolveDeclaration to IMPLICIT_TYPES_BODY_RESOLVE.
   */
  method LazyResolveDeclarationForResolveType(tree: DeclarationTree, declaration: DeclId, toResolveType: ResolveType,
                                              plugins: set<Phase>)
    returns (o: Outcome<Failure>)
    requires tree.Valid() && declaration in tree.shape.decls
    modifies tree`allPhaseAttr, tree`resolvePhase, tree`typeRefs, tree`events
    ensures tree.Valid()
    ensures MarkersGrow(old(tree.allPhaseAttr), tree.allPhaseAttr)
    ensures PhasesGrow(old(tree.resolvePhase), tree.resolvePhase)
    ensures toResolveType != CallableReturnType ==>
      o == Fail(UnsupportedResolveType) && unchanged(tree`allPhaseAttr, tree`resolvePhase, tree`typeRefs, tree`events)
    ensures toResolveType == CallableReturnType && o.Pass?
            && FileResolve.ShouldResolve(tree.shape.decls[declaration].origin, old(tree.resolvePhase)[declaration],
                                         ImplicitTypesBodyResolve) == Ok(true)
            && tree.shape.decls[declaration].kind != File
            && GetNonLocalDeclarationToResolve(tree.shape, declaration).Ok?
            && ImplicitTypesBodyResolve !in plugins ==>
      IsResolvedForAllDeclarations(tree.allPhaseAttr, tree.resolvePhase,
        OwnDesignation(tree.shape, GetNonLocalDeclarationToResolve(tree.shape, declaration).value), ImplicitTypesBodyResolve, false)
  {
    if toResolveType != CallableReturnType {
      MarkersGrowReflexive(tree.allPhaseAttr);
      return Fail(UnsupportedResolveType);
    }
    o := LazyResolveDeclaration(tree, declaration, ImplicitTypesBodyResolve, plugins);
  }

  /**
   * lazyDesignatedResolveDeclaration: the same two guards, then, unless the designation of
   * the non-local declaration in the given file is already resolved for toPhase (on-air when
   * asked), the designated resolve from the phase it has reached.
   */
  method LazyDesignatedResolveDeclaration(tree: DeclarationTree, declaration: DeclId, containerFile: DeclId,
                                          toPhase: Phase, isOnAirResolve: bool, plugins: set<Phase>)
    returns (o: Outcome<Failure>)
    requires tree.Valid() && declaration in tree.shape.decls
    requires containerFile in tree.shape.decls && tree.shape.decls[containerFile].kind == File
    modifies tree`allPhaseAttr, tree`resolvePhase, tree`typeRefs, tree`events
    ensures tree.Valid()
    ensures MarkersGrow(old(tree.allPhaseAttr), tree.allPhaseAttr)
    ensures PhasesGrow(old(tree.resolvePhase), tree.resolvePhase)
    ensures FileResolve.ShouldResolve(tree.shape.decls[declaration].origin, old(tree.resolvePhase)[declaration], toPhase) == Ok(false) ==>
      o.Pass? && unchanged(tree`allPhaseAttr, tree`resolvePhase, tree`typeRefs, tree`events)
    ensures FileResolve.ShouldResolve(tree.shape.decls[declaration].origin, old(tree.resolvePhase)[declaration], toPhase).Err? ==>
      o == Fail(UnavailableDeclarationNotBodyResolved) && unchanged(tree`allPhaseAttr, tree`resolvePhase, tree`typeRefs, tree`events)
    ensures FileResolve.ShouldResolve(tree.shape.decls[declaration].origin, old(tree.resolvePhase)[declaration], toPhase) == Ok(true) ==>
      match DesignationToResolve(tree.shape, declaration, containerFile)
      case Err(e) => o == Fail(e) && unchanged(tree`allPhaseAttr, tree`resolvePhase, tree`typeRefs, tree`events)
      case Ok(designation) =>
        if IsResolvedForAllDeclarations(old(tree.allPhaseAttr), old(tree.resolvePhase), designation, toPhase, isOnAirResolve) then
          o.Pass? && unchanged(tree`allPhaseAttr, tree`resolvePhase, tree`typeRefs, tree`events)
        else
          o.Pass? && tree.shape.decls[declaration].kind != File && !designation.isLocal
          && MarksDesignation(toPhase) && toPhase !in plugins ==>
            IsResolvedForAllDeclarations(tree.allPhaseAttr, tree.resolvePhase, designation, toPhase, false)
  {
    MarkersGrowReflexive(tree.allPhaseAttr);
    var s := tree.shape;
    var go := FileResolve.ShouldResolve(s.decls[declaration].origin, tree.resolvePhase[declaration], toPhase);
    if go.Err? {
      return Fail(go.error);
    }
    if !go.value {
      return Pass;
    }
    var toResolve := DesignationToResolve(s, declaration, containerFile);
    if toResolve.Err? {
      return Fail(toResolve.error);
    }
    var designation := toResolve.value;
    var resolvePhase := ResolvePhaseForAllDeclarations(tree.allPhaseAttr, tree.resolvePhase, designation, isOnAirResolve);
    if Le(toPhase, resolvePhase) {
      return Pass;
    }
    ghost var ran;
    o, ran := RunLazyDesignatedResolveWithoutLock(tree, declaration, containerFile, resolvePhase, toPhase, isOnAirResolve, plugins);
  }

  /** Whether a designation is resolved does not depend on the file it is looked at in. */
  lemma ResolvedInAnyFile(attr: map<DeclId, Phase>, phases: map<DeclId, Phase>, d: Designation, file: DeclId, phase: Phase)
    requires d.declaration in phases
    ensures IsResolvedForAllDeclarations(attr, phases, d, phase, false)
        <==> IsResolvedForAllDeclarations(attr, phases, d.(firFile := file), phase, false)
  {
    assert d.ToSequence() == d.(firFile := file).ToSequence();
  }
}
