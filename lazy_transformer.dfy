/**
 * The per-declaration "resolved for all declarations" marker and the phase of a designation
 * computed from it (the companion of FirLazyTransformerForIDE), and the transformer variants
 * the lazy resolver chooses between.
 */
module LazyTransformer {
  import opened Wrappers
  import opened Phases
  import opened FirTree

  /** resolvePhaseWithForAllDeclarations: a declaration without the attribute reads as RAW_FIR. */
  function ResolvePhaseWithForAllDeclarations(attr: map<DeclId, Phase>, d: DeclId): (r: Phase)
    ensures d !in attr ==> r == RawFir
    ensures d in attr ==> r == attr[d]
  {
    if d in attr then attr[d] else RawFir
  }

  /** No marker goes down. */
  ghost predicate MarkersGrow(before: map<DeclId, Phase>, after: map<DeclId, Phase>)
  {
    forall d :: Le(ResolvePhaseWithForAllDeclarations(before, d), ResolvePhaseWithForAllDeclarations(after, d))
  }

  lemma MarkersGrowReflexive(a: map<DeclId, Phase>)
    ensures MarkersGrow(a, a)
  {
  }

  lemma MarkersGrowTransitive(a: map<DeclId, Phase>, b: map<DeclId, Phase>, c: map<DeclId, Phase>)
    requires MarkersGrow(a, b) && MarkersGrow(b, c)
    ensures MarkersGrow(a, c)
  {
  }

  /** Where markers grow, every read marker grows. */
  lemma MarkersGrowRead(a: map<DeclId, Phase>, b: map<DeclId, Phase>, d: DeclId)
    requires MarkersGrow(a, b)
    ensures Le(ResolvePhaseWithForAllDeclarations(a, d), ResolvePhaseWithForAllDeclarations(b, d))
  {
  }

  /** The markers after updateResolvedForAllDeclarations(phase) on d. */
  function Updated(attr: map<DeclId, Phase>, d: DeclId, phase: Phase): (r: map<DeclId, Phase>)
    ensures ResolvePhaseWithForAllDeclarations(r, d)
      == Max(ResolvePhaseWithForAllDeclarations(attr, d), phase)
    ensures forall x :: x != d ==> ResolvePhaseWithForAllDeclarations(r, x) == ResolvePhaseWithForAllDeclarations(attr, x)
    ensures MarkersGrow(attr, r)
  {
    if Lt(ResolvePhaseWithForAllDeclarations(attr, d), phase) then attr[d := phase] else attr
  }

  /** Applying the same update twice is the same as applying it once. */
  lemma UpdatedIdempotent(attr: map<DeclId, Phase>, d: DeclId, phase: Phase)
    ensures Updated(Updated(attr, d, phase), d, phase) == Updated(attr, d, phase)
  {
  }

  /** The resolvePhaseWithForAllDeclarations setter. */
  method SetResolvePhaseWithForAllDeclarations(tree: DeclarationTree, d: DeclId, value: Phase)
    modifies tree`allPhaseAttr
    ensures tree.allPhaseAttr == old(tree.allPhaseAttr)[d := value]
  {
    tree.allPhaseAttr := tree.allPhaseAttr[d := value];
  }

  /** updateResolvedForAllDeclarations: raise the marker of d to phase, never lower it. */
  method UpdateResolvedForAllDeclarations(tree: DeclarationTree, d: DeclId, phase: Phase)
    modifies tree`allPhaseAttr
    ensures tree.allPhaseAttr == Updated(old(tree.allPhaseAttr), d, phase)
  {
    var allDeclaration := ResolvePhaseWithForAllDeclarations(tree.allPhaseAttr, d);
    if Lt(allDeclaration, phase) {
      SetResolvePhaseWithForAllDeclarations(tree, d, phase);
    }
  }

  /** maxByOrNull { it.resolvePhaseWithForAllDeclarations }: keeps the first strictly larger one. */
  function MaxByMarker(attr: map<DeclId, Phase>, ds: seq<DeclId>): (r: Option<DeclId>)
    ensures r.None? <==> ds == []
    ensures r.Some? ==> r.value in ds
    ensures r.Some? ==> forall i :: 0 <= i < |ds| ==>
      Le(ResolvePhaseWithForAllDeclarations(attr, ds[i]), ResolvePhaseWithForAllDeclarations(attr, r.value))
    decreases |ds|
  {
    if ds == [] then None
    else
      var m := MaxByMarker(attr, ds[..|ds| - 1]);
      var last := ds[|ds| - 1];
      if m.None? || Lt(ResolvePhaseWithForAllDeclarations(attr, m.value), ResolvePhaseWithForAllDeclarations(attr, last))
      then Some(last)
      else m
  }

  /** The largest marker among ds, RAW_FIR when there is none. */
  function AllContainingPhase(attr: map<DeclId, Phase>, ds: seq<DeclId>): (r: Phase)
    ensures ds == [] ==> r == RawFir
    ensures forall i :: 0 <= i < |ds| ==> Le(ResolvePhaseWithForAllDeclarations(attr, ds[i]), r)
    ensures ds != [] ==> exists i :: 0 <= i < |ds| && r == ResolvePhaseWithForAllDeclarations(attr, ds[i])
  {
    match MaxByMarker(attr, ds)
    case None => RawFir
    case Some(x) =>
      assert exists i :: 0 <= i < |ds| && ds[i] == x;
      ResolvePhaseWithForAllDeclarations(attr, x)
  }

  /**
   * resolvePhaseForAllDeclarations: the largest marker over the path and the target; with
   * on-air resolve, also no more than the target's own resolvePhase.
   */
  function ResolvePhaseForAllDeclarations(attr: map<DeclId, Phase>, phases: map<DeclId, Phase>,
                                          d: Designation, isOnAirResolve: bool): (r: Phase)
    requires d.declaration in phases
    ensures !isOnAirResolve ==> r == AllContainingPhase(attr, d.ToSequence())
    ensures isOnAirResolve ==> Le(r, phases[d.declaration]) && Le(r, AllContainingPhase(attr, d.ToSequence()))
    ensures isOnAirResolve ==> r == phases[d.declaration] || r == AllContainingPhase(attr, d.ToSequence())
  {
    var allContaining := AllContainingPhase(attr, d.ToSequence());
    if isOnAirResolve then Min(phases[d.declaration], allContaining) else allContaining
  }

  /** The largest marker of a non-empty sequence reaches a phase exactly when some member's marker does. */
  lemma {:induction false} AllContainingReached(attr: map<DeclId, Phase>, ds: seq<DeclId>, phase: Phase)
    requires ds != []
    ensures Le(phase, AllContainingPhase(attr, ds)) <==>
      exists x :: x in ds && Le(phase, ResolvePhaseWithForAllDeclarations(attr, x))
  {
    var r := AllContainingPhase(attr, ds);
    if Le(phase, r) {
      var i :| 0 <= i < |ds| && r == ResolvePhaseWithForAllDeclarations(attr, ds[i]);
      assert ds[i] in ds;
    } else {
      forall x | x in ds ensures !Le(phase, ResolvePhaseWithForAllDeclarations(attr, x)) {
        var i :| 0 <= i < |ds| && ds[i] == x;
      }
    }
  }

  /**
   * isResolvedForAllDeclarations: some marker on the path or the target has reached the
   * phase, and with on-air resolve the target's own phase has reached it too.
   */
  predicate IsResolvedForAllDeclarations(attr: map<DeclId, Phase>, phases: map<DeclId, Phase>,
                                         d: Designation, phase: Phase, isOnAirResolve: bool)
    requires d.declaration in phases
    ensures IsResolvedForAllDeclarations(attr, phases, d, phase, isOnAirResolve) <==>
      && (exists x :: x in d.ToSequence() && Le(phase, ResolvePhaseWithForAllDeclarations(attr, x)))
      && (isOnAirResolve ==> Le(phase, phases[d.declaration]))
  {
    AllContainingReached(attr, d.ToSequence(), phase);
    Le(phase, ResolvePhaseForAllDeclarations(attr, phases, d, isOnAirResolve))
  }

  /** On-air resolve never reports a designation as further resolved than ordinary resolve does. */
  lemma OnAirResolvedIsResolved(attr: map<DeclId, Phase>, phases: map<DeclId, Phase>, d: Designation, phase: Phase)
    requires d.declaration in phases
    requires IsResolvedForAllDeclarations(attr, phases, d, phase, true)
    ensures IsResolvedForAllDeclarations(attr, phases, d, phase, false)
  {
  }

  /** Being resolved for a phase means being resolved for every earlier phase. */
  lemma ResolvedDownwardClosed(attr: map<DeclId, Phase>, phases: map<DeclId, Phase>,
                               d: Designation, p: Phase, q: Phase, isOnAirResolve: bool)
    requires d.declaration in phases
    requires IsResolvedForAllDeclarations(attr, phases, d, p, isOnAirResolve) && Le(q, p)
    ensures IsResolvedForAllDeclarations(attr, phases, d, q, isOnAirResolve)
  {
  }

  /** Without on-air resolve, the phase of a designation is at least every marker on it. */
  lemma {:induction false} MarkerBoundsDesignation(attr: map<DeclId, Phase>, phases: map<DeclId, Phase>,
                                                    d: Designation, x: DeclId)
    requires d.declaration in phases
    requires x in d.path || x == d.declaration
    ensures Le(ResolvePhaseWithForAllDeclarations(attr, x), ResolvePhaseForAllDeclarations(attr, phases, d, false))
  {
    var ds := d.ToSequence();
    var i :| 0 <= i < |ds| && ds[i] == x;
  }

  /** Raising markers can only raise the phase of a designation. */
  lemma {:induction false} AllContainingMonotone(a: map<DeclId, Phase>, b: map<DeclId, Phase>, ds: seq<DeclId>)
    requires MarkersGrow(a, b)
    ensures Le(AllContainingPhase(a, ds), AllContainingPhase(b, ds))
  {
    if ds != [] {
      var i :| 0 <= i < |ds| && AllContainingPhase(a, ds) == ResolvePhaseWithForAllDeclarations(a, ds[i]);
      MarkersGrowRead(a, b, ds[i]);
    }
  }

  /** A designation resolved for a phase stays resolved while markers grow. */
  lemma ResolvedStable(a: map<DeclId, Phase>, b: map<DeclId, Phase>, phases: map<DeclId, Phase>,
                       d: Designation, phase: Phase)
    requires d.declaration in phases
    requires MarkersGrow(a, b) && IsResolvedForAllDeclarations(a, phases, d, phase, false)
    ensures IsResolvedForAllDeclarations(b, phases, d, phase, false)
  {
    AllContainingMonotone(a, b, d.ToSequence());
  }

  /**
   * A designation's phase reads only the markers on its path and target: markers that agree
   * there give the same phase, whatever happened to the others.
   */
  lemma ResolvePhaseLocal(a: map<DeclId, Phase>, b: map<DeclId, Phase>, phases: map<DeclId, Phase>, d: Designation)
    requires d.declaration in phases
    requires forall x :: x in d.ToSequence() ==> ResolvePhaseWithForAllDeclarations(a, x) == ResolvePhaseWithForAllDeclarations(b, x)
    ensures ResolvePhaseForAllDeclarations(a, phases, d, false) == ResolvePhaseForAllDeclarations(b, phases, d, false)
  {
    var ds := d.ToSequence();
    var ra, rb := AllContainingPhase(a, ds), AllContainingPhase(b, ds);
    var i :| 0 <= i < |ds| && ra == ResolvePhaseWithForAllDeclarations(a, ds[i]);
    var j :| 0 <= j < |ds| && rb == ResolvePhaseWithForAllDeclarations(b, ds[j]);
    assert ds[i] in ds && ds[j] in ds;
    assert Le(ResolvePhaseWithForAllDeclarations(b, ds[i]), rb) && Le(ResolvePhaseWithForAllDeclarations(a, ds[j]), ra);
  }

  /** Raising the marker of any member of a designation to phase resolves it for phase. */
  lemma UpdatedResolves(attr: map<DeclId, Phase>, phases: map<DeclId, Phase>, d: Designation, x: DeclId, phase: Phase)
    requires d.declaration in phases
    requires x in d.path || x == d.declaration
    ensures IsResolvedForAllDeclarations(Updated(attr, x, phase), phases, d, phase, false)
  {
    MarkerBoundsDesignation(Updated(attr, x, phase), phases, d, x);
  }

  /** containingDeclarations: the members of a class or anonymous object, otherwise nothing. */
  function ContainingDeclarations(s: Shape, d: DeclId): (r: seq<DeclId>)
    requires TreeShaped(s) && d in s.decls
    ensures IsClass(s.decls[d].kind) ==> r == s.decls[d].declarations
    ensures !IsClass(s.decls[d].kind) ==> r == []
    ensures NestedIn(s, d, r)
  {
    NestedMembers(s, d);
    if IsClass(s.decls[d].kind) then s.decls[d].declarations else []
  }

  /** The transformer createLazyTransformer picks for one phase (DUMMY does nothing). */
  datatype LazyTransformer =
    | Dummy
    | SupertypeResolver(designation: Designation, isOnAirResolve: bool)
    | TypeResolver(designation: Designation, isOnAirResolve: bool)
    | StatusResolver(designation: Designation, isOnAirResolve: bool)
    | ContractsResolver(designation: Designation, isOnAirResolve: bool)
    | ImplicitTypesResolver(designation: Designation, isOnAirResolve: bool)
    | BodyResolver(designation: Designation, isOnAirResolve: bool)
}
