/**
 * The FIR declaration tree as the lazy resolver sees it. The shape of the tree (kinds,
 * members, what the PSI and the symbol provider answer) never changes; what the resolver
 * changes in place is each declaration's resolvePhase, its
 * resolvePhaseWithForAllDeclarations attribute and its type references.
 */
module FirTree {
  import opened Wrappers
  import opened Phases

  type DeclId = nat
  type KtId = nat

  /** The FIR declaration classes the lazy resolver distinguishes. */
  datatype Kind =
    | File
    | RegularClass
    | AnonymousObject
    | TypeAlias
    | SimpleFunction
    | Constructor
    | PropertyAccessor
    | Property
    | ValueParameter
    | TypeParameter
    | EnumEntry
    | Field
    | AnonymousInitializer

  /** FirClassLikeDeclaration */
  predicate IsClassLike(k: Kind) { k == RegularClass || k == AnonymousObject || k == TypeAlias }

  /** FirClass: a regular class or an anonymous object */
  predicate IsClass(k: Kind) { k == RegularClass || k == AnonymousObject }

  /** FirFunction (a property accessor is a function) */
  predicate IsFunction(k: Kind) { k == SimpleFunction || k == Constructor || k == PropertyAccessor }

  /** FirDeclarationOrigin */
  datatype Origin = Source | Synthetic | SubstitutionOverride | Library | Delegated | Enhancement

  /** A type reference: as written, implicit (to be inferred), or resolved. */
  datatype TypeRef = UserType | ImplicitType | ResolvedType

  predicate ResolvedOrImplicit(t: TypeRef) { t == ResolvedType || t == ImplicitType }

  /** The type-reference slots of one declaration. */
  datatype TypeRefs = TypeRefs(
    returnType: TypeRef,
    receiverType: Option<TypeRef>,
    superTypes: seq<TypeRef>,
    expandedType: TypeRef)

  /** The PSI classes that declarationCanBeLazilyResolved tells apart. */
  datatype KtKind =
    | Unnamed
    | KtDestructuringDeclarationEntry
    | KtFunctionLiteral
    | KtTypeParameter
    | KtPrimaryConstructor
    | KtParameter
    | KtProperty
    | KtPropertyAccessor(property: KtId)
    | KtOtherCallable
    | KtEnumEntry
    | KtClassLike
    | KtOtherNamed

  /** Where a KtDeclaration sits syntactically. */
  datatype KtParent = InKtFile | InKtClassBody(ownerHasClassId: bool) | InOther

  /**
   * A KtDeclaration, with the answers of the PSI utilities about it:
   * getNonLocalContainingOrThisDeclaration and findSourceNonLocalFirDeclaration.
   */
  datatype KtDeclaration = KtDeclaration(
    kind: KtKind,
    hasValOrVar: bool,
    containingClassHasClassId: bool,
    parent: KtParent,
    hasClassId: bool,
    nonLocalContainer: Option<KtId>,
    fir: Option<DeclId>)

  /** The PSI element a FIR declaration was built from. */
  datatype Psi =
    | NoPsi
    | DeclarationPsi(kt: KtId)
    | CallExpressionPsi(delegatedProperty: Option<KtId>)
    | OtherPsi(enclosingDeclaration: Option<KtId>)

  datatype SourceKind = RealSource | FakeDefaultAccessor | FakeOther

  /** FirDeclarationUntypedDesignationWithFile */
  datatype Designation = Designation(path: seq<DeclId>, declaration: DeclId, isLocal: bool, firFile: DeclId)
  {
    /** toSequence(includeTarget = true) */
    function ToSequence(): (r: seq<DeclId>)
      ensures |r| == |path| + 1 && r[|path|] == declaration
      ensures forall x :: x in r <==> x in path || x == declaration
    {
      path + [declaration]
    }
  }

  /** The immutable part of a FIR declaration. */
  datatype Declaration = Declaration(
    kind: Kind,
    origin: Origin,
    declarations: seq<DeclId>,
    valueParameters: seq<DeclId>,
    getter: Option<DeclId>,
    setter: Option<DeclId>,
    psi: Psi,
    source: SourceKind,
    containingFile: Option<DeclId>,
    designation: Designation,
    superTypeSymbols: seq<Option<DeclId>>)

  function OptionToSeq(o: Option<DeclId>): seq<DeclId>
  {
    match o
    case None => []
    case Some(x) => [x]
  }

  /** Every declaration nested directly in d. */
  function Children(d: Declaration): seq<DeclId>
  {
    d.declarations + d.valueParameters + OptionToSeq(d.getter) + OptionToSeq(d.setter)
  }

  datatype Shape = Shape(decls: map<DeclId, Declaration>, psi: map<KtId, KtDeclaration>, size: nat)

  predicate DesignationIn(s: Shape, d: Designation)
  {
    && (forall i :: 0 <= i < |d.path| ==> d.path[i] in s.decls)
    && d.declaration in s.decls
    && d.firFile in s.decls && s.decls[d.firFile].kind == File
  }

  /**
   * A tree: every declaration id lies below `size`, and every declaration nested in another
   * exists and has a larger id than its container (so walking down always terminates).
   */
  predicate TreeShaped(s: Shape)
  {
    && (forall d {:trigger s.decls[d]} :: d in s.decls ==> d < s.size)
    && (forall d, i {:trigger Children(s.decls[d])[i]} ::
          d in s.decls && 0 <= i < |Children(s.decls[d])| ==>
            Children(s.decls[d])[i] in s.decls && d < Children(s.decls[d])[i])
  }

  /** The designation a declaration knows of itself. */
  function OwnDesignation(s: Shape, d: DeclId): Designation
    requires d in s.decls
  {
    s.decls[d].designation
  }

  /** The file the module file cache finds for a declaration (getContainerFirFile), if any. */
  function ContainingFile(s: Shape, d: DeclId): Option<DeclId>
    requires d in s.decls
  {
    s.decls[d].containingFile
  }

  /**
   * Every declaration knows its own designation, whose path, target and file exist, and
   * every declaration the symbol provider or the PSI points at exists.
   */
  predicate WellFormed(s: Shape)
  {
    && TreeShaped(s)
    && (forall d {:trigger OwnDesignation(s, d)} :: d in s.decls ==>
          DesignationIn(s, OwnDesignation(s, d)) && OwnDesignation(s, d).declaration == d)
    && (forall d {:trigger ContainingFile(s, d)} :: d in s.decls && ContainingFile(s, d).Some? ==>
          ContainingFile(s, d).value in s.decls && s.decls[ContainingFile(s, d).value].kind == File)
    && (forall k {:trigger s.psi[k]} :: k in s.psi && s.psi[k].fir.Some? ==> s.psi[k].fir.value in s.decls)
  }

  /** Each kind of nested member exists and has a larger id than its container. */
  lemma NestedMembers(s: Shape, d: DeclId)
    requires TreeShaped(s) && d in s.decls
    ensures NestedIn(s, d, s.decls[d].declarations)
    ensures NestedIn(s, d, s.decls[d].valueParameters)
    ensures s.decls[d].getter.Some? ==> s.decls[d].getter.value in s.decls && d < s.decls[d].getter.value
    ensures s.decls[d].setter.Some? ==> s.decls[d].setter.value in s.decls && d < s.decls[d].setter.value
  {
    var x := s.decls[d];
    var cs := Children(x);
    var n, m := |x.declarations|, |x.valueParameters|;
    assert forall i :: 0 <= i < n ==> cs[i] == x.declarations[i];
    assert forall i :: 0 <= i < m ==> cs[n + i] == x.valueParameters[i];
    if x.getter.Some? {
      assert cs[n + m] == x.getter.value;
    }
    if x.setter.Some? {
      assert cs[|cs| - 1] == x.setter.value;
    }
  }

  /** The ids in cs are members nested in parent. */
  predicate NestedIn(s: Shape, parent: DeclId, cs: seq<DeclId>)
  {
    forall i :: 0 <= i < |cs| ==> cs[i] in s.decls && parent < cs[i]
  }

  /** The declaration and everything nested in it. */
  function Subtree(s: Shape, d: DeclId): (r: set<DeclId>)
    requires TreeShaped(s) && d in s.decls
    ensures d in r && r <= s.decls.Keys
    decreases s.size - d, 1
  {
    {d} + SubtreeAll(s, d, Children(s.decls[d]))
  }

  function SubtreeAll(s: Shape, parent: DeclId, cs: seq<DeclId>): (r: set<DeclId>)
    requires TreeShaped(s) && parent in s.decls && NestedIn(s, parent, cs)
    ensures r <= s.decls.Keys
    ensures forall i :: 0 <= i < |cs| ==> cs[i] in r
    decreases s.size - parent, 0, |cs|
  {
    if cs == [] then {} else Subtree(s, cs[0]) + SubtreeAll(s, parent, cs[1..])
  }

  lemma {:induction false} SubtreeAllContains(s: Shape, parent: DeclId, cs: seq<DeclId>, i: nat)
    requires TreeShaped(s) && parent in s.decls && NestedIn(s, parent, cs)
    requires i < |cs|
    ensures Subtree(s, cs[i]) <= SubtreeAll(s, parent, cs)
    decreases |cs|
  {
    if i > 0 {
      SubtreeAllContains(s, parent, cs[1..], i - 1);
    }
  }

  /** A member of a union of subtrees lies in one of them. */
  lemma {:induction false} SubtreeAllMember(s: Shape, parent: DeclId, cs: seq<DeclId>, x: DeclId) returns (i: nat)
    requires TreeShaped(s) && parent in s.decls && NestedIn(s, parent, cs)
    requires x in SubtreeAll(s, parent, cs)
    ensures i < |cs| && x in Subtree(s, cs[i])
    decreases |cs|
  {
    if x in Subtree(s, cs[0]) {
      i := 0;
    } else {
      var j := SubtreeAllMember(s, parent, cs[1..], x);
      i := j + 1;
    }
  }

  /** Whatever is nested in a member of the subtree belongs to the subtree. */
  lemma {:induction false} SubtreeClosed(s: Shape, d: DeclId, x: DeclId, j: nat)
    requires TreeShaped(s) && d in s.decls
    requires x in Subtree(s, d) && j < |Children(s.decls[x])|
    ensures Children(s.decls[x])[j] in Subtree(s, d)
    decreases s.size - d
  {
    var cs := Children(s.decls[d]);
    if x == d {
      SubtreeAllContains(s, d, cs, j);
    } else {
      var i := SubtreeAllMember(s, d, cs, x);
      SubtreeClosed(s, cs[i], x, j);
      SubtreeAllContains(s, d, cs, i);
    }
  }

  /** The subtree of a nested declaration is part of its container's subtree. */
  lemma ChildSubtree(s: Shape, d: DeclId, c: DeclId)
    requires TreeShaped(s) && d in s.decls && c in Children(s.decls[d])
    ensures c in s.decls && Subtree(s, c) <= Subtree(s, d)
  {
    var cs := Children(s.decls[d]);
    var i :| 0 <= i < |cs| && cs[i] == c;
    SubtreeAllContains(s, d, cs, i);
  }

  /** A subtree of a member of a subtree lies inside it. */
  lemma {:induction false} SubtreeTransitive(s: Shape, d: DeclId, z: DeclId)
    requires TreeShaped(s) && d in s.decls && z in Subtree(s, d)
    ensures z in s.decls && Subtree(s, z) <= Subtree(s, d)
    decreases s.size - d
  {
    if z != d {
      var cs := Children(s.decls[d]);
      var i := SubtreeAllMember(s, d, cs, z);
      SubtreeTransitive(s, cs[i], z);
      SubtreeAllContains(s, d, cs, i);
    }
  }

  /** The state a check reads: the shape, and a phase and references for every declaration. */
  predicate StateOf(s: Shape, phases: map<DeclId, Phase>, refs: map<DeclId, TypeRefs>)
  {
    TreeShaped(s) && s.decls.Keys <= phases.Keys && s.decls.Keys <= refs.Keys
  }

  /** What a designated transformer walks inside the file: the path, and the target with all it contains. */
  function DesignationWalk(s: Shape, d: Designation): (r: set<DeclId>)
    requires TreeShaped(s) && DesignationIn(s, d)
    ensures r <= s.decls.Keys
    ensures d.declaration in r && Subtree(s, d.declaration) <= r
  {
    (set i | 0 <= i < |d.path| :: d.path[i]) + Subtree(s, d.declaration)
  }

  /** What went wrong when a `check`, `error` or cast in the resolver fails. */
  datatype Failure =
    | FileRequestBeyondTypes
    | UnavailableDeclarationNotBodyResolved
    | FileNotResolvedToImports
    | ResolvableTargetNotClassLike
    | ClassesNotResolvedToSuperTypes
    | PhaseNotReached
    | TypeRefNotResolved
    | UnexpectedDeclarationKind
    | NonLazyPhase
    | LocalDesignation
    | ContainingFileNotFound
    | ContainingDeclarationNotFound
    | NotAKtDeclaration
    | InvalidAccessorSource
    | UnexpectedKtDeclaration
    | UnsupportedResolveType

  /** Steps of the phase work that is not part of this model, recorded in a ghost log. */
  datatype Event =
    | FileWiseResolve(file: DeclId, from: Phase, to: Phase)
    | FileAnnotationsResolve(file: DeclId)
    | SupertypesComputed(target: DeclId)
    | SupertypeLoopsBroken
    | SupertypesApplied(target: DeclId)
    | DesignatedPhaseRun(phase: Phase, target: DeclId)

  /** The mutable state of the declarations of one module session. */
  class DeclarationTree {
    const shape: Shape
    /** FirDeclaration.resolvePhase */
    var resolvePhase: map<DeclId, Phase>
    /** resolvePhaseWithForAllDeclarationsAttr; a missing key is a null attribute */
    var allPhaseAttr: map<DeclId, Phase>
    var typeRefs: map<DeclId, TypeRefs>
    ghost var events: seq<Event>

    ghost predicate Valid()
      reads this
    {
      && WellFormed(shape)
      && resolvePhase.Keys == shape.decls.Keys
      && typeRefs.Keys == shape.decls.Keys
    }

    constructor (shape: Shape, phases: map<DeclId, Phase>, refs: map<DeclId, TypeRefs>)
      requires WellFormed(shape) && phases.Keys == shape.decls.Keys && refs.Keys == shape.decls.Keys
      ensures Valid()
      ensures this.shape == shape && resolvePhase == phases && typeRefs == refs
      ensures allPhaseAttr == map[] && events == []
    {
      this.shape := shape;
      resolvePhase := phases;
      typeRefs := refs;
      allPhaseAttr := map[];
      events := [];
    }
  }

  /**
   * Appending two stretches of events one after the other appends them together. The
   * loops of the supertype worklist and apply step use it so that their large proof
   * contexts stay free of sequence reasoning.
   */
  lemma EventsAppended(a: seq<Event>, b: seq<Event>, c: seq<Event>)
    ensures a + b + c == a + (b + c)
  {
  }

  /** Resolve phases never go down. */
  ghost predicate PhasesGrow(before: map<DeclId, Phase>, after: map<DeclId, Phase>)
  {
    before.Keys == after.Keys && forall d :: d in before ==> Le(before[d], after[d])
  }

  lemma PhasesGrowTransitive(a: map<DeclId, Phase>, b: map<DeclId, Phase>, c: map<DeclId, Phase>)
    requires PhasesGrow(a, b) && PhasesGrow(b, c)
    ensures PhasesGrow(a, c)
  {
  }
}
