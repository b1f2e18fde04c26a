/**
 * The designated SUPER_TYPES phase (FirDesignatedSupertypeResolverTransformerForIDE): the
 * target adjustment, the worklist that follows computed supertypes from class to class until
 * nothing new is found, loop breaking, and the apply step with its ensureResolved checks.
 */
module SupertypeResolver {
  import opened Wrappers
  import opened Phases
  import opened FirTree
  import opened LazyTransformer
  import FileResolve

  // ----- Target adjustment -----

  /**
   * targetDesignation: a class-like target stays; otherwise the last path element, which must
   * be class-like, becomes the target; with an empty path there is nothing to do (None).
   */
  function TargetDesignation(s: Shape, d: Designation): (r: Result<Option<Designation>, Failure>)
    requires DesignationIn(s, d)
    ensures IsClassLike(s.decls[d.declaration].kind) ==> r == Ok(Some(d))
    ensures !IsClassLike(s.decls[d.declaration].kind) && d.path == [] ==> r == Ok(None)
    ensures r.Err? <==>
      !IsClassLike(s.decls[d.declaration].kind) && d.path != [] && !IsClassLike(s.decls[d.path[|d.path| - 1]].kind)
    ensures r.Err? ==> r.error == ResolvableTargetNotClassLike
    ensures r.Ok? && r.value.Some? ==>
      && DesignationIn(s, r.value.value)
      && IsClassLike(s.decls[r.value.value.declaration].kind)
      && r.value.value.firFile == d.firFile
      && (r.value.value == d || (!r.value.value.isLocal && r.value.value.ToSequence() == d.path))
  {
    if IsClassLike(s.decls[d.declaration].kind) then Ok(Some(d))
    else if d.path == [] then Ok(None)
    else
      var resolvableTarget := d.path[|d.path| - 1];
      if !IsClassLike(s.decls[resolvableTarget].kind) then Err(ResolvableTargetNotClassLike)
      else Ok(Some(Designation(d.path[..|d.path| - 1], resolvableTarget, false, d.firFile)))
  }

  /** The adjusted target lies on the original designation, so raising its marker resolves both. */
  lemma TargetOnDesignation(s: Shape, d: Designation)
    requires DesignationIn(s, d)
    requires TargetDesignation(s, d).Ok? && TargetDesignation(s, d).value.Some?
    ensures var t := TargetDesignation(s, d).value.value;
      (t.declaration in d.path || t.declaration == d.declaration) &&
      forall x :: x in t.path ==> x in d.path
  {
    var t := TargetDesignation(s, d).value.value;
    if t != d {
      assert t.ToSequence() == d.path;
      assert t.declaration == t.ToSequence()[|t.path|];
    }
  }

  // ----- The worklist -----

  /** A class-like declaration the worklist may queue: in this session and with a containing file. */
  predicate Eligible(s: Shape, x: DeclId)
  {
    x in s.decls && IsClassLike(s.decls[x].kind) && ContainingFile(s, x).Some?
  }

  /** collectDesignation(containingFile): the declaration's own designation, in its containing file. */
  function CollectDesignation(s: Shape, x: DeclId): (r: Designation)
    requires WellFormed(s) && Eligible(s, x)
    ensures r.declaration == x && DesignationIn(s, r)
    ensures r.firFile == ContainingFile(s, x).value
  {
    OwnDesignation(s, x).(firFile := ContainingFile(s, x).value)
  }

  /** A designation the worklist queues for a supertype it found. */
  predicate Collected(s: Shape, v: Designation)
    requires WellFormed(s)
  {
    Eligible(s, v.declaration) && v == CollectDesignation(s, v.declaration)
  }

  /** The designation the worklist walks for x: the target's own, or the collected one. */
  function DesignationOf(s: Shape, target: Designation, x: DeclId): (r: Designation)
    requires WellFormed(s)
    requires x == target.declaration || Eligible(s, x)
    ensures r.declaration == x
  {
    if x == target.declaration then target else CollectDesignation(s, x)
  }

  /** The class-likes whose supertypes the supertype visitor computes when it walks v. */
  function ClassLikesOn(s: Shape, v: Designation): (r: set<DeclId>)
    requires WellFormed(s) && DesignationIn(s, v)
    ensures r <= s.decls.Keys
  {
    set x | x in DesignationWalk(s, v) && IsClassLike(s.decls[x].kind)
  }

  /**
   * Every supertype of c the worklist may queue is either a visited declaration or queued
   * with its collected designation.
   */
  ghost predicate RefsCovered(s: Shape, c: DeclId, visitedDecls: set<DeclId>, toVisit: set<Designation>)
    requires WellFormed(s) && c in s.decls
  {
    forall i {:trigger s.decls[c].superTypeSymbols[i]} ::
      0 <= i < |s.decls[c].superTypeSymbols| && s.decls[c].superTypeSymbols[i].Some? &&
      Eligible(s, s.decls[c].superTypeSymbols[i].value) ==>
        s.decls[c].superTypeSymbols[i].value in visitedDecls ||
        CollectDesignation(s, s.decls[c].superTypeSymbols[i].value) in toVisit
  }

  /** x is a supertype of some class-like in computed. */
  ghost predicate SupertypeOfSome(s: Shape, computed: set<DeclId>, x: DeclId)
    requires computed <= s.decls.Keys
  {
    exists c, i :: c in computed && 0 <= i < |s.decls[c].superTypeSymbols| && s.decls[c].superTypeSymbols[i] == Some(x)
  }

  /**
   * The scan after a round: every computed supertype that is not yet visited is queued, and
   * nothing else is.
   */
  method CollectToVisit(s: Shape, computed: set<DeclId>, visitedDecls: set<DeclId>) returns (toVisit: set<Designation>)
    requires WellFormed(s) && computed <= s.decls.Keys
    ensures forall v :: v in toVisit ==> Collected(s, v) && v.declaration !in visitedDecls
    ensures forall v :: v in toVisit ==> SupertypeOfSome(s, computed, v.declaration)
    ensures forall c :: c in computed ==> RefsCovered(s, c, visitedDecls, toVisit)
  {
    toVisit := {};
    var values := computed;
    while values != {}
      invariant values <= computed
      invariant forall v :: v in toVisit ==> Collected(s, v) && v.declaration !in visitedDecls
      invariant forall v :: v in toVisit ==> SupertypeOfSome(s, computed, v.declaration)
      invariant forall c :: c in computed - values ==> RefsCovered(s, c, visitedDecls, toVisit)
      decreases values
    {
      var value :| value in values;
      var references := s.decls[value].superTypeSymbols;
      var i := 0;
      while i < |references|
        invariant 0 <= i <= |references|
        invariant forall v :: v in toVisit ==> Collected(s, v) && v.declaration !in visitedDecls
        invariant forall v :: v in toVisit ==> SupertypeOfSome(s, computed, v.declaration)
        invariant forall c :: c in computed - values ==> RefsCovered(s, c, visitedDecls, toVisit)
        invariant forall j :: 0 <= j < i && references[j].Some? && Eligible(s, references[j].value) ==>
          references[j].value in visitedDecls || CollectDesignation(s, references[j].value) in toVisit
      {
        var symbol := references[i];
        if symbol.Some? && Eligible(s, symbol.value) && symbol.value !in visitedDecls {
          assert SupertypeOfSome(s, computed, symbol.value) by {
            assert value in computed && s.decls[value].superTypeSymbols[i] == Some(symbol.value);
          }
          toVisit := toVisit + {CollectDesignation(s, symbol.value)};
        }
        i := i + 1;
      }
      values := values - {value};
    }
  }

  /** The events of the worklist: file resolution to IMPORTS and supertype computation. */
  predicate WorklistEvent(e: Event)
  {
    e.FileWiseResolve? || e.FileAnnotationsResolve? || e.SupertypesComputed?
  }

  ghost predicate WorklistLog(log: seq<Event>)
  {
    forall e :: e in log ==> WorklistEvent(e)
  }

  /** Only the phases of files differ between a and b. */
  ghost predicate FilePhasesOnly(s: Shape, a: map<DeclId, Phase>, b: map<DeclId, Phase>)
  {
    forall x :: x in s.decls && s.decls[x].kind != File && x in a ==> x in b && b[x] == a[x]
  }

  lemma FilePhasesOnlyTransitive(s: Shape, a: map<DeclId, Phase>, b: map<DeclId, Phase>, c: map<DeclId, Phase>)
    requires FilePhasesOnly(s, a, b) && FilePhasesOnly(s, b, c)
    ensures FilePhasesOnly(s, a, c)
  {
  }

  /**
   * One nowVisit: its file to IMPORTS (lazyResolveDeclaration on a file), then the supertype
   * visitor over the designation, which computes the supertypes of the class-likes on it.
   */
  method VisitOne(tree: DeclarationTree, v: Designation) returns (o: Outcome<Failure>, ghost log: seq<Event>)
    requires tree.Valid() && DesignationIn(tree.shape, v)
    modifies tree`resolvePhase, tree`events
    ensures tree.Valid()
    ensures PhasesGrow(old(tree.resolvePhase), tree.resolvePhase)
    ensures FilePhasesOnly(tree.shape, old(tree.resolvePhase), tree.resolvePhase)
    ensures o.Fail? <==>
      !FileResolve.IsResolvableOrigin(tree.shape.decls[v.firFile].origin) && old(tree.resolvePhase)[v.firFile] != BodyResolve
    ensures tree.events == old(tree.events) + log && WorklistLog(log)
    ensures o.Pass? ==> log != [] && log[|log| - 1] == SupertypesComputed(v.declaration)
  {
    ghost var events0 := tree.events;
    o := FileResolve.LazyResolveFile(tree, v.firFile, Imports);
    log := if tree.events == events0 then [] else [FileWiseResolve(v.firFile, RawFir, Imports)];
    if o.Fail? {
      return;
    }
    tree.events := tree.events + [SupertypesComputed(v.declaration)];
    log := log + [SupertypesComputed(v.declaration)];
  }

  /** for (nowVisit in toVisit): every queued designation is visited, or the first failure stops. */
  method VisitRound(tree: DeclarationTree, toVisit: set<Designation>) returns (o: Outcome<Failure>, ghost log: seq<Event>)
    requires tree.Valid()
    requires forall v :: v in toVisit ==> DesignationIn(tree.shape, v)
    modifies tree`resolvePhase, tree`events
    ensures tree.Valid()
    ensures PhasesGrow(old(tree.resolvePhase), tree.resolvePhase)
    ensures tree.events == old(tree.events) + log && WorklistLog(log)
    ensures FilePhasesOnly(tree.shape, old(tree.resolvePhase), tree.resolvePhase)
  {
    o, log := Pass, [];
    var rest := toVisit;
    while rest != {}
      invariant rest <= toVisit
      invariant PhasesGrow(old(tree.resolvePhase), tree.resolvePhase)
      invariant FilePhasesOnly(tree.shape, old(tree.resolvePhase), tree.resolvePhase)
      invariant tree.events == old(tree.events) + log && WorklistLog(log)
      decreases rest
    {
      var nowVisit :| nowVisit in rest;
      ghost var phasesBefore := tree.resolvePhase;
      ghost var step;
      o, step := VisitOne(tree, nowVisit);
      PhasesGrowTransitive(old(tree.resolvePhase), phasesBefore, tree.resolvePhase);
      FilePhasesOnlyTransitive(tree.shape, old(tree.resolvePhase), phasesBefore, tree.resolvePhase);
      log := log + step;
      if o.Fail? {
        return;
      }
      rest := rest - {nowVisit};
    }
  }

  /**
   * The supertypes computed so far: the supertype session accumulates the class-likes of
   * every designation visited in any round.
   */
  function ClassLikesOfAll(s: Shape, vs: set<Designation>): (r: set<DeclId>)
    requires WellFormed(s) && forall v :: v in vs ==> DesignationIn(s, v)
    ensures r <= s.decls.Keys
  {
    set v, x | v in vs && x in ClassLikesOn(s, v) :: x
  }

  /**
   * The visited designations are closed under computed supertypes: every supertype the
   * worklist may queue, of any class-like on a visited designation, is a visited declaration.
   */
  ghost predicate SupertypesClosed(s: Shape, visited: set<Designation>, visitedDecls: set<DeclId>)
    requires WellFormed(s) && forall v :: v in visited ==> DesignationIn(s, v)
  {
    forall c :: c in ClassLikesOfAll(s, visited) ==> RefsCovered(s, c, visitedDecls, {})
  }

  /** The shape of every designation the worklist holds. */
  predicate Queued(s: Shape, target: Designation, v: Designation)
    requires WellFormed(s)
  {
    DesignationIn(s, v) && (v == target || (Collected(s, v) && v.declaration != target.declaration))
  }

  /** Each visited declaration was visited with the designation the worklist uses for it. */
  ghost predicate VisitedConsistent(s: Shape, target: Designation, visited: set<Designation>, visitedDecls: set<DeclId>)
    requires WellFormed(s)
  {
    && (forall v :: v in visited ==> Queued(s, target, v) && v.declaration in visitedDecls)
    && (forall x :: x in visitedDecls ==> (x == target.declaration || Eligible(s, x)) && DesignationOf(s, target, x) in visited)
  }

  /**
   * The worklist: visit every queued designation, then queue the computed
   * supertypes whose declaration was not visited yet, until nothing is queued. The visited
   * declarations are kept alongside the visited designations (visitedSet.any { ... }).
   */
  method ComputeSupertypes(tree: DeclarationTree, target: Designation)
    returns (o: Outcome<Failure>, visited: set<Designation>, visitedDecls: set<DeclId>, ghost log: seq<Event>)
    requires tree.Valid() && DesignationIn(tree.shape, target)
    modifies tree`resolvePhase, tree`events
    ensures tree.Valid()
    ensures PhasesGrow(old(tree.resolvePhase), tree.resolvePhase)
    ensures tree.events == old(tree.events) + log && WorklistLog(log)
    ensures FilePhasesOnly(tree.shape, old(tree.resolvePhase), tree.resolvePhase)
    ensures o.Pass? ==>
      && target in visited
      && VisitedConsistent(tree.shape, target, visited, visitedDecls)
      && SupertypesClosed(tree.shape, visited, visitedDecls)
      && (forall x :: x in visitedDecls ==> Reachable(tree.shape, target, x))
  {
    var s := tree.shape;
    visited, visitedDecls, log := {}, {}, [];
    var toVisit := {target};
    TargetReachable(s, target);
    while toVisit != {}
      invariant tree.Valid()
      invariant PhasesGrow(old(tree.resolvePhase), tree.resolvePhase)
      invariant FilePhasesOnly(s, old(tree.resolvePhase), tree.resolvePhase)
      invariant tree.events == old(tree.events) + log && WorklistLog(log)
      invariant target in visited || toVisit == {target}
      invariant visitedDecls <= s.decls.Keys
      invariant VisitedConsistent(s, target, visited, visitedDecls)
      invariant forall v :: v in toVisit ==> Queued(s, target, v) && v.declaration !in visitedDecls
      invariant forall c :: c in ClassLikesOfAll(s, visited) ==> RefsCovered(s, c, visitedDecls, toVisit)
      invariant forall x :: x in visitedDecls ==> Reachable(s, target, x)
      invariant forall v :: v in toVisit ==> Reachable(s, target, v.declaration)
      decreases s.decls.Keys - visitedDecls
    {
      ghost var phasesBefore := tree.resolvePhase;
      ghost var step;
      o, step := VisitRound(tree, toVisit);
      PhasesGrowTransitive(old(tree.resolvePhase), phasesBefore, tree.resolvePhase);
      FilePhasesOnlyTransitive(s, old(tree.resolvePhase), phasesBefore, tree.resolvePhase);
      EventsAppended(old(tree.events), log, step);
      log := log + step;
      if o.Fail? {
        return;
      }
      visited, visitedDecls := AddVisited(s, target, visited, visitedDecls, toVisit);
      toVisit := CollectToVisit(s, ClassLikesOfAll(s, visited), visitedDecls);
      forall v | v in toVisit ensures Reachable(s, target, v.declaration) {
        QueuedReachable(s, target, visited, visitedDecls, v.declaration);
      }
    }
    o := Pass;
  }

  /** visitedSet.addAll(toVisit), and the declarations visited with them. */
  method AddVisited(s: Shape, ghost target: Designation, visited: set<Designation>, visitedDecls: set<DeclId>,
                    toVisit: set<Designation>)
    returns (visited': set<Designation>, visitedDecls': set<DeclId>)
    requires WellFormed(s) && visitedDecls <= s.decls.Keys && toVisit != {}
    requires VisitedConsistent(s, target, visited, visitedDecls)
    requires forall v :: v in toVisit ==> Queued(s, target, v) && v.declaration !in visitedDecls
    ensures visited' == visited + toVisit
    ensures visitedDecls' == visitedDecls + set v | v in toVisit :: v.declaration
    ensures VisitedConsistent(s, target, visited', visitedDecls')
    ensures visitedDecls < visitedDecls' <= s.decls.Keys
    ensures s.decls.Keys - visitedDecls' < s.decls.Keys - visitedDecls
  {
    var newDecls := set v | v in toVisit :: v.declaration;
    forall x | x in newDecls
      ensures (x == target.declaration || Eligible(s, x)) && DesignationOf(s, target, x) in toVisit
    {
      var v :| v in toVisit && v.declaration == x;
    }
    visited', visitedDecls' := visited + toVisit, visitedDecls + newDecls;
    var some :| some in toVisit;
    assert some.declaration in visitedDecls' - visitedDecls;
  }

  /** The declarations kept alongside the visited designations are exactly theirs. */
  lemma VisitedDecls(s: Shape, target: Designation, visited: set<Designation>, visitedDecls: set<DeclId>)
    requires WellFormed(s) && VisitedConsistent(s, target, visited, visitedDecls)
    ensures visitedDecls == DeclarationsOf(visited)
  {
    forall x | x in visitedDecls ensures exists v :: v in visited && v.declaration == x {
      assert DesignationOf(s, target, x) in visited;
    }
  }

  /** b is an eligible supertype of a class-like on the designation the worklist walks for a. */
  ghost predicate SupertypeStep(s: Shape, target: Designation, a: DeclId, b: DeclId)
    requires WellFormed(s) && DesignationIn(s, target)
  {
    && Eligible(s, b)
    && (a == target.declaration || Eligible(s, a))
    && exists c, i :: c in ClassLikesOn(s, DesignationOf(s, target, a)) &&
                      0 <= i < |s.decls[c].superTypeSymbols| && s.decls[c].superTypeSymbols[i] == Some(b)
  }

  /** Reachability through supertypes: chain[0] is the target, each later element a supertype step away. */
  ghost predicate SupertypeChain(s: Shape, target: Designation, chain: seq<DeclId>)
    requires WellFormed(s) && DesignationIn(s, target)
  {
    && chain != [] && chain[0] == target.declaration
    && forall k {:trigger chain[k]} :: 0 <= k < |chain| - 1 ==> SupertypeStep(s, target, chain[k], chain[k + 1])
  }

  /** At the fixpoint every declaration reachable from the target through supertypes was visited. */
  lemma {:induction false} ReachableVisited(s: Shape, target: Designation, visited: set<Designation>,
                                            visitedDecls: set<DeclId>, chain: seq<DeclId>, k: nat)
    requires WellFormed(s) && DesignationIn(s, target)
    requires target in visited && VisitedConsistent(s, target, visited, visitedDecls)
    requires SupertypesClosed(s, visited, visitedDecls)
    requires SupertypeChain(s, target, chain) && k < |chain|
    ensures chain[k] in visitedDecls
  {
    if k > 0 {
      ReachableVisited(s, target, visited, visitedDecls, chain, k - 1);
      assert SupertypeStep(s, target, chain[k - 1], chain[k]);
      var v := DesignationOf(s, target, chain[k - 1]);
      var c, i :| c in ClassLikesOn(s, v) && 0 <= i < |s.decls[c].superTypeSymbols| &&
                  s.decls[c].superTypeSymbols[i] == Some(chain[k]);
      assert c in ClassLikesOfAll(s, visited);
      assert RefsCovered(s, c, visitedDecls, {});
    }
  }

  /** x ends a supertype chain from the target. */
  ghost predicate Reachable(s: Shape, target: Designation, x: DeclId)
    requires WellFormed(s) && DesignationIn(s, target)
  {
    exists chain :: SupertypeChain(s, target, chain) && chain[|chain| - 1] == x
  }

  lemma TargetReachable(s: Shape, target: Designation)
    requires WellFormed(s) && DesignationIn(s, target)
    ensures Reachable(s, target, target.declaration)
  {
    assert SupertypeChain(s, target, [target.declaration]);
  }

  /** One supertype step extends a chain. */
  lemma ChainExtends(s: Shape, target: Designation, chain: seq<DeclId>, b: DeclId)
    requires WellFormed(s) && DesignationIn(s, target)
    requires SupertypeChain(s, target, chain) && SupertypeStep(s, target, chain[|chain| - 1], b)
    ensures SupertypeChain(s, target, chain + [b])
  {
    var chain' := chain + [b];
    forall k | 0 <= k < |chain'| - 1 ensures SupertypeStep(s, target, chain'[k], chain'[k + 1]) {
      if k < |chain| - 1 {
        assert chain'[k] == chain[k] && chain'[k + 1] == chain[k + 1];
      }
    }
  }

  /**
   * A declaration the scan queues after a round is reachable: it is a supertype of a
   * class-like on a visited designation, whose declaration is reachable.
   */
  lemma QueuedReachable(s: Shape, target: Designation, visited: set<Designation>, visitedDecls: set<DeclId>, x: DeclId)
    requires WellFormed(s) && DesignationIn(s, target)
    requires forall v :: v in visited ==> DesignationIn(s, v)
    requires VisitedConsistent(s, target, visited, visitedDecls)
    requires forall y :: y in visitedDecls ==> Reachable(s, target, y)
    requires Eligible(s, x) && SupertypeOfSome(s, ClassLikesOfAll(s, visited), x)
    ensures Reachable(s, target, x)
  {
    var c, i :| c in ClassLikesOfAll(s, visited) && 0 <= i < |s.decls[c].superTypeSymbols| && s.decls[c].superTypeSymbols[i] == Some(x);
    var u := ClassLikeOnSome(s, visited, c);
    assert Queued(s, target, u) && u.declaration in visitedDecls;
    StepFromQueued(s, target, u, c, i, x);
    ReachableStep(s, target, u.declaration, x);
  }

  /** One supertype step from a reachable declaration reaches another. */
  lemma ReachableStep(s: Shape, target: Designation, a: DeclId, b: DeclId)
    requires WellFormed(s) && DesignationIn(s, target)
    requires Reachable(s, target, a) && SupertypeStep(s, target, a, b)
    ensures Reachable(s, target, b)
  {
    var chain :| SupertypeChain(s, target, chain) && chain[|chain| - 1] == a;
    ChainExtends(s, target, chain, b);
    assert (chain + [b])[|chain + [b]| - 1] == b;
  }

  /** A class-like computed so far lies on one of the visited designations. */
  lemma ClassLikeOnSome(s: Shape, vs: set<Designation>, c: DeclId) returns (u: Designation)
    requires WellFormed(s) && forall v :: v in vs ==> DesignationIn(s, v)
    requires c in ClassLikesOfAll(s, vs)
    ensures u in vs && c in ClassLikesOn(s, u)
  {
    u :| u in vs && c in ClassLikesOn(s, u);
  }

  /** A supertype of a class-like on a designation the worklist holds is one step from its declaration. */
  lemma StepFromQueued(s: Shape, target: Designation, u: Designation, c: DeclId, i: nat, x: DeclId)
    requires WellFormed(s) && DesignationIn(s, target) && Queued(s, target, u)
    requires c in ClassLikesOn(s, u) && i < |s.decls[c].superTypeSymbols| && s.decls[c].superTypeSymbols[i] == Some(x)
    requires Eligible(s, x)
    ensures SupertypeStep(s, target, u.declaration, x)
  {
    assert DesignationOf(s, target, u.declaration) == u;
  }

  /**
   * At the fixpoint the visited declarations are exactly those reachable from the target
   * through supertypes.
   */
  lemma VisitedExactlyReachable(s: Shape, target: Designation, visited: set<Designation>, visitedDecls: set<DeclId>)
    requires WellFormed(s) && DesignationIn(s, target)
    requires target in visited && VisitedConsistent(s, target, visited, visitedDecls)
    requires SupertypesClosed(s, visited, visitedDecls)
    requires forall x :: x in visitedDecls ==> Reachable(s, target, x)
    ensures forall x :: x in visitedDecls <==> Reachable(s, target, x)
  {
    forall x | Reachable(s, target, x) ensures x in visitedDecls {
      var chain :| SupertypeChain(s, target, chain) && chain[|chain| - 1] == x;
      ReachableVisited(s, target, visited, visitedDecls, chain, |chain| - 1);
    }
  }

  // ----- Apply -----

  /** needReplacePhase: only a phase below SUPER_TYPES is replaced, which leaves RAW_FIR and IMPORTS. */
  predicate NeedReplacePhase(p: Phase)
    ensures NeedReplacePhase(p) <==> p == RawFir || p == Imports
  {
    Lt(p, SuperTypes)
  }

  /** The supertype references of a class-like, resolved: super types of a class, the expansion of an alias. */
  predicate SupertypeRefsResolved(k: Kind, t: TypeRefs)
  {
    && (k == RegularClass || k == AnonymousObject ==> forall j :: 0 <= j < |t.superTypes| ==> t.superTypes[j] == ResolvedType)
    && (k == TypeAlias ==> t.expandedType == ResolvedType)
  }

  /** applyResolvedSupertypes on one class-like declaration. */
  function ApplySupertypeRefs(k: Kind, t: TypeRefs): (r: TypeRefs)
    ensures SupertypeRefsResolved(k, r)
    ensures r.returnType == t.returnType && r.receiverType == t.receiverType
    ensures |r.superTypes| == |t.superTypes|
  {
    if k == TypeAlias then t.(expandedType := ResolvedType)
    else if k == RegularClass || k == AnonymousObject then t.(superTypes := seq(|t.superTypes|, _ => ResolvedType))
    else t
  }

  /** The phases after the apply transformer walked w: below SUPER_TYPES becomes SUPER_TYPES. */
  function AppliedPhases(phases: map<DeclId, Phase>, w: set<DeclId>): map<DeclId, Phase>
  {
    map y | y in phases :: if y in w && NeedReplacePhase(phases[y]) then SuperTypes else phases[y]
  }

  /**
   * The apply step never lowers a phase, brings every walked declaration to SUPER_TYPES, and
   * leaves unwalked declarations and those at SUPER_TYPES or later alone.
   */
  lemma AppliedPhasesSpec(phases: map<DeclId, Phase>, w: set<DeclId>)
    ensures PhasesGrow(phases, AppliedPhases(phases, w))
    ensures forall y :: y in w && y in phases ==> Le(SuperTypes, AppliedPhases(phases, w)[y])
    ensures forall y :: y in phases && (y !in w || !NeedReplacePhase(phases[y])) ==> AppliedPhases(phases, w)[y] == phases[y]
  {
  }

  /** The references after the apply transformer walked w: class-likes below SUPER_TYPES get their supertypes. */
  function AppliedRefs(s: Shape, phases: map<DeclId, Phase>, refs: map<DeclId, TypeRefs>, w: set<DeclId>)
    : map<DeclId, TypeRefs>
    requires refs.Keys <= s.decls.Keys && refs.Keys <= phases.Keys
  {
    map y | y in refs ::
      if y in w && IsClassLike(s.decls[y].kind) && NeedReplacePhase(phases[y])
      then ApplySupertypeRefs(s.decls[y].kind, refs[y]) else refs[y]
  }

  /**
   * The apply step resolves the supertypes of exactly the walked class-likes below SUPER_TYPES
   * and changes no other reference.
   */
  lemma AppliedRefsSpec(s: Shape, phases: map<DeclId, Phase>, refs: map<DeclId, TypeRefs>, w: set<DeclId>)
    requires refs.Keys <= s.decls.Keys && refs.Keys <= phases.Keys
    ensures AppliedRefs(s, phases, refs, w).Keys == refs.Keys
    ensures forall y :: y in refs && y in w && IsClassLike(s.decls[y].kind) && NeedReplacePhase(phases[y]) ==>
      SupertypeRefsResolved(s.decls[y].kind, AppliedRefs(s, phases, refs, w)[y])
    ensures forall y :: y in refs && !(y in w && IsClassLike(s.decls[y].kind) && NeedReplacePhase(phases[y])) ==>
      AppliedRefs(s, phases, refs, w)[y] == refs[y]
  {
  }

  /** The declaration kinds ensureResolved of the SUPER_TYPES phase accepts. */
  predicate KnownToSupertypesCheck(k: Kind)
  {
    k != File && k != AnonymousObject && k != ValueParameter && k != TypeParameter
  }

  /** ensureResolved of the SUPER_TYPES phase, on one declaration. */
  function EnsureResolved(s: Shape, phases: map<DeclId, Phase>, refs: map<DeclId, TypeRefs>, d: DeclId): (r: Outcome<Failure>)
    requires StateOf(s, phases, refs) && d in s.decls
    ensures r.Pass? <==>
      && KnownToSupertypesCheck(s.decls[d].kind)
      && (s.decls[d].kind == RegularClass || s.decls[d].kind == TypeAlias ==>
            Le(SuperTypes, phases[d]) && SupertypeRefsResolved(s.decls[d].kind, refs[d]))
    ensures r.Fail? && !KnownToSupertypesCheck(s.decls[d].kind) ==> r.error == UnexpectedDeclarationKind
  {
    var k := s.decls[d].kind;
    if IsFunction(k) || k == Property || k == EnumEntry || k == Field || k == AnonymousInitializer then Pass
    else if k == RegularClass then
      if !Le(SuperTypes, phases[d]) then Fail(PhaseNotReached)
      else if !(forall j :: 0 <= j < |refs[d].superTypes| ==> refs[d].superTypes[j] == ResolvedType) then Fail(TypeRefNotResolved)
      else Pass
    else if k == TypeAlias then
      if !Le(SuperTypes, phases[d]) then Fail(PhaseNotReached)
      else if refs[d].expandedType != ResolvedType then Fail(TypeRefNotResolved)
      else Pass
    else Fail(UnexpectedDeclarationKind)
  }

  /** ensureResolvedDeep of the SUPER_TYPES phase: the declaration, and for a regular class every member. */
  function EnsureResolvedDeep(s: Shape, phases: map<DeclId, Phase>, refs: map<DeclId, TypeRefs>, d: DeclId): (r: Outcome<Failure>)
    requires StateOf(s, phases, refs) && d in s.decls
    ensures r.Pass? ==> EnsureResolved(s, phases, refs, d).Pass?
    decreases s.size - d, 1
  {
    var own := EnsureResolved(s, phases, refs, d);
    if own.Fail? then own
    else if s.decls[d].kind == RegularClass then
      NestedMembers(s, d);
      EnsureResolvedDeepAll(s, phases, refs, d, s.decls[d].declarations)
    else Pass
  }

  /** declarations.forEach { it.ensureResolvedDeep() }: the first failure, in order. */
  function EnsureResolvedDeepAll(s: Shape, phases: map<DeclId, Phase>, refs: map<DeclId, TypeRefs>,
                                 parent: DeclId, ds: seq<DeclId>): (r: Outcome<Failure>)
    requires StateOf(s, phases, refs) && parent in s.decls && NestedIn(s, parent, ds)
    ensures r.Pass? <==> forall i :: 0 <= i < |ds| ==> EnsureResolvedDeep(s, phases, refs, ds[i]).Pass?
    decreases s.size - parent, 0, |ds|
  {
    if ds == [] then Pass
    else
      var first := EnsureResolvedDeep(s, phases, refs, ds[0]);
      if first.Fail? then first
      else
        var rest := EnsureResolvedDeepAll(s, phases, refs, parent, ds[1..]);
        assert forall i :: 1 <= i < |ds| ==> ds[i] == ds[1..][i - 1];
        rest
  }

  /**
   * What the apply step needs of a declaration it did not change: a regular class lists only
   * members the check accepts, and a class or alias already at SUPER_TYPES has its
   * supertypes resolved.
   */
  predicate ReadyForApply(s: Shape, phases: map<DeclId, Phase>, refs: map<DeclId, TypeRefs>, z: DeclId)
    requires StateOf(s, phases, refs) && z in s.decls
  {
    && (s.decls[z].kind == RegularClass ==>
          forall i :: 0 <= i < |s.decls[z].declarations| ==>
            s.decls[z].declarations[i] in s.decls && KnownToSupertypesCheck(s.decls[s.decls[z].declarations[i]].kind))
    && ((s.decls[z].kind == RegularClass || s.decls[z].kind == TypeAlias) && !NeedReplacePhase(phases[z]) ==>
          SupertypeRefsResolved(s.decls[z].kind, refs[z]))
  }

  /**
   * After the apply transformer walked the whole subtree of d, ensureResolvedDeep passes on d
   * whenever d is of a kind the check accepts and the subtree was ready for apply.
   */
  lemma {:induction false} AppliedDeepPasses(s: Shape, phases: map<DeclId, Phase>, refs: map<DeclId, TypeRefs>,
                                             w: set<DeclId>, d: DeclId)
    requires StateOf(s, phases, refs) && refs.Keys == s.decls.Keys && d in s.decls
    requires Subtree(s, d) <= w && KnownToSupertypesCheck(s.decls[d].kind)
    requires forall z :: z in Subtree(s, d) ==> ReadyForApply(s, phases, refs, z)
    ensures StateOf(s, AppliedPhases(phases, w), AppliedRefs(s, phases, refs, w))
    ensures EnsureResolvedDeep(s, AppliedPhases(phases, w), AppliedRefs(s, phases, refs, w), d).Pass?
    decreases s.size - d, 1
  {
    AppliedPhasesSpec(phases, w);
    AppliedRefsSpec(s, phases, refs, w);
    var phases', refs' := AppliedPhases(phases, w), AppliedRefs(s, phases, refs, w);
    assert EnsureResolved(s, phases', refs', d).Pass?;
    if s.decls[d].kind == RegularClass {
      NestedMembers(s, d);
      AppliedDeepAllPasses(s, phases, refs, w, d, s.decls[d].declarations);
    }
  }

  lemma {:induction false} AppliedDeepAllPasses(s: Shape, phases: map<DeclId, Phase>, refs: map<DeclId, TypeRefs>,
                                                w: set<DeclId>, parent: DeclId, ds: seq<DeclId>)
    requires StateOf(s, phases, refs) && refs.Keys == s.decls.Keys && parent in s.decls && NestedIn(s, parent, ds)
    requires s.decls[parent].kind == RegularClass && forall i :: 0 <= i < |ds| ==> ds[i] in s.decls[parent].declarations
    requires Subtree(s, parent) <= w
    requires forall z :: z in Subtree(s, parent) ==> ReadyForApply(s, phases, refs, z)
    ensures StateOf(s, AppliedPhases(phases, w), AppliedRefs(s, phases, refs, w))
    ensures EnsureResolvedDeepAll(s, AppliedPhases(phases, w), AppliedRefs(s, phases, refs, w), parent, ds).Pass?
    decreases s.size - parent, 0, |ds|
  {
    AppliedPhasesSpec(phases, w);
    AppliedRefsSpec(s, phases, refs, w);
    if ds != [] {
      assert ReadyForApply(s, phases, refs, parent);
      assert ds[0] in Children(s.decls[parent]);
      ChildSubtree(s, parent, ds[0]);
      AppliedDeepPasses(s, phases, refs, w, ds[0]);
      AppliedDeepAllPasses(s, phases, refs, w, parent, ds[1..]);
    }
  }

  /**
   * One designation of applyToFileSymbols: nothing when its declaration is at SUPER_TYPES
   * already; otherwise the apply transformer over the designation, then ensureResolvedDeep.
   */
  method ApplyToDesignation(tree: DeclarationTree, v: Designation) returns (o: Outcome<Failure>, ghost log: seq<Event>)
    requires tree.Valid() && DesignationIn(tree.shape, v)
    modifies tree`resolvePhase, tree`typeRefs, tree`events
    ensures tree.Valid()
    ensures PhasesGrow(old(tree.resolvePhase), tree.resolvePhase)
    ensures Le(SuperTypes, tree.resolvePhase[v.declaration])
    ensures !NeedReplacePhase(old(tree.resolvePhase)[v.declaration]) ==>
      o.Pass? && tree.resolvePhase == old(tree.resolvePhase) && tree.typeRefs == old(tree.typeRefs) && log == []
    ensures NeedReplacePhase(old(tree.resolvePhase)[v.declaration]) ==>
      && tree.resolvePhase == AppliedPhases(old(tree.resolvePhase), DesignationWalk(tree.shape, v))
      && tree.typeRefs == AppliedRefs(tree.shape, old(tree.resolvePhase), old(tree.typeRefs), DesignationWalk(tree.shape, v))
      && log == [SupertypesApplied(v.declaration)]
      && o == EnsureResolvedDeep(tree.shape, tree.resolvePhase, tree.typeRefs, v.declaration)
    ensures tree.events == old(tree.events) + log
  {
    log := [];
    if !NeedReplacePhase(tree.resolvePhase[v.declaration]) {
      return Pass, log;
    }
    var w := DesignationWalk(tree.shape, v);
    AppliedPhasesSpec(tree.resolvePhase, w);
    AppliedRefsSpec(tree.shape, tree.resolvePhase, tree.typeRefs, w);
    tree.typeRefs := AppliedRefs(tree.shape, tree.resolvePhase, tree.typeRefs, w);
    tree.resolvePhase := AppliedPhases(tree.resolvePhase, w);
    log := [SupertypesApplied(v.declaration)];
    tree.events := tree.events + log;
    o := EnsureResolvedDeep(tree.shape, tree.resolvePhase, tree.typeRefs, v.declaration);
  }

  /** Every designation in vs has its declaration resolved at least to SUPER_TYPES. */
  ghost predicate AllAtSuperTypes(phases: map<DeclId, Phase>, vs: set<Designation>)
  {
    forall v :: v in vs ==> v.declaration in phases && Le(SuperTypes, phases[v.declaration])
  }

  /** Growing phases keep designations at SUPER_TYPES, and one more applied designation joins them. */
  lemma AtSuperTypesGrow(a: map<DeclId, Phase>, b: map<DeclId, Phase>, done: set<Designation>, v: Designation)
    requires PhasesGrow(a, b) && AllAtSuperTypes(a, done)
    requires v.declaration in b && Le(SuperTypes, b[v.declaration])
    ensures AllAtSuperTypes(b, done + {v})
  {
  }

  /**
   * A declaration that passes ensureResolvedDeep still passes after any later apply step:
   * phases only grow, and a class-like at SUPER_TYPES keeps its references.
   */
  lemma {:induction false} DeepStable(s: Shape, phases: map<DeclId, Phase>, refs: map<DeclId, TypeRefs>,
                                      w: set<DeclId>, d: DeclId)
    requires StateOf(s, phases, refs) && refs.Keys == s.decls.Keys && d in s.decls
    requires EnsureResolvedDeep(s, phases, refs, d).Pass?
    ensures StateOf(s, AppliedPhases(phases, w), AppliedRefs(s, phases, refs, w))
    ensures EnsureResolvedDeep(s, AppliedPhases(phases, w), AppliedRefs(s, phases, refs, w), d).Pass?
    decreases s.size - d, 1
  {
    AppliedPhasesSpec(phases, w);
    AppliedRefsSpec(s, phases, refs, w);
    var phases', refs' := AppliedPhases(phases, w), AppliedRefs(s, phases, refs, w);
    assert EnsureResolved(s, phases', refs', d).Pass?;
    if s.decls[d].kind == RegularClass {
      NestedMembers(s, d);
      DeepAllStable(s, phases, refs, w, d, s.decls[d].declarations);
    }
  }

  lemma {:induction false} DeepAllStable(s: Shape, phases: map<DeclId, Phase>, refs: map<DeclId, TypeRefs>,
                                         w: set<DeclId>, parent: DeclId, ds: seq<DeclId>)
    requires StateOf(s, phases, refs) && refs.Keys == s.decls.Keys && parent in s.decls && NestedIn(s, parent, ds)
    requires EnsureResolvedDeepAll(s, phases, refs, parent, ds).Pass?
    ensures StateOf(s, AppliedPhases(phases, w), AppliedRefs(s, phases, refs, w))
    ensures EnsureResolvedDeepAll(s, AppliedPhases(phases, w), AppliedRefs(s, phases, refs, w), parent, ds).Pass?
    decreases s.size - parent, 0, |ds|
  {
    AppliedPhasesSpec(phases, w);
    AppliedRefsSpec(s, phases, refs, w);
    if ds != [] {
      DeepStable(s, phases, refs, w, ds[0]);
      assert EnsureResolvedDeepAll(s, phases, refs, parent, ds[1..]).Pass?;
      DeepAllStable(s, phases, refs, w, parent, ds[1..]);
    }
  }

  /** Some designation in applied walked x, so its apply step raised x to SUPER_TYPES. */
  ghost predicate RaisedBy(s: Shape, applied: set<Designation>, x: DeclId)
    requires TreeShaped(s)
  {
    exists u :: u in applied && DesignationIn(s, u) && x in DesignationWalk(s, u)
  }

  /**
   * Progress of the apply step over the designations in done: the applied ones were below
   * SUPER_TYPES at the start and pass ensureResolvedDeep now; each other one was at
   * SUPER_TYPES at the start or was walked by an applied one; and any declaration other than
   * a file that has left the phases below SUPER_TYPES since the start was walked by an
   * applied one.
   */
  ghost predicate ApplyProgress(s: Shape, phases0: map<DeclId, Phase>, phases: map<DeclId, Phase>, refs: map<DeclId, TypeRefs>,
                                done: set<Designation>, applied: set<Designation>)
    requires StateOf(s, phases, refs) && s.decls.Keys <= phases0.Keys
  {
    && applied <= done
    && (forall v :: v in applied ==>
          && v.declaration in s.decls
          && NeedReplacePhase(phases0[v.declaration])
          && EnsureResolvedDeep(s, phases, refs, v.declaration).Pass?)
    && (forall v :: v in done && v !in applied ==>
          v.declaration in s.decls && (!NeedReplacePhase(phases0[v.declaration]) || RaisedBy(s, applied, v.declaration)))
    && (forall x :: x in s.decls && s.decls[x].kind != File && NeedReplacePhase(phases0[x]) && !NeedReplacePhase(phases[x]) ==>
          RaisedBy(s, applied, x))
  }

  /** The progress reads the starting phases only where the worklist leaves them alone: not at files. */
  lemma ApplyProgressRebase(s: Shape, phasesA: map<DeclId, Phase>, phasesB: map<DeclId, Phase>,
                            phases: map<DeclId, Phase>, refs: map<DeclId, TypeRefs>,
                            done: set<Designation>, applied: set<Designation>)
    requires StateOf(s, phases, refs) && s.decls.Keys <= phasesA.Keys && s.decls.Keys <= phasesB.Keys
    requires FilePhasesOnly(s, phasesA, phasesB)
    requires forall v :: v in done && v.declaration in s.decls ==> phasesA[v.declaration] == phasesB[v.declaration]
    requires ApplyProgress(s, phasesB, phases, refs, done, applied)
    ensures ApplyProgress(s, phasesA, phases, refs, done, applied)
  {
  }

  /** A designation at SUPER_TYPES when its turn comes is skipped, and the progress holds one more. */
  lemma ApplySkipKeeps(s: Shape, phases0: map<DeclId, Phase>, phases: map<DeclId, Phase>, refs: map<DeclId, TypeRefs>,
                       done: set<Designation>, applied: set<Designation>, v: Designation)
    requires StateOf(s, phases, refs) && s.decls.Keys <= phases0.Keys && DesignationIn(s, v)
    requires s.decls[v.declaration].kind != File
    requires ApplyProgress(s, phases0, phases, refs, done, applied)
    requires !NeedReplacePhase(phases[v.declaration])
    ensures ApplyProgress(s, phases0, phases, refs, done + {v}, applied)
  {
  }

  /** Walking w keeps every passing ensureResolvedDeep of the applied designations. */
  lemma AppliedDeepKept(s: Shape, phases0: map<DeclId, Phase>, phases: map<DeclId, Phase>, refs: map<DeclId, TypeRefs>,
                        applied: set<Designation>, w: set<DeclId>)
    requires StateOf(s, phases, refs) && refs.Keys == s.decls.Keys && s.decls.Keys <= phases0.Keys
    requires forall u :: u in applied ==> u.declaration in s.decls && EnsureResolvedDeep(s, phases, refs, u.declaration).Pass?
    ensures StateOf(s, AppliedPhases(phases, w), AppliedRefs(s, phases, refs, w))
    ensures forall u :: u in applied ==>
      EnsureResolvedDeep(s, AppliedPhases(phases, w), AppliedRefs(s, phases, refs, w), u.declaration).Pass?
  {
    AppliedPhasesSpec(phases, w);
    AppliedRefsSpec(s, phases, refs, w);
    forall u | u in applied
      ensures EnsureResolvedDeep(s, AppliedPhases(phases, w), AppliedRefs(s, phases, refs, w), u.declaration).Pass?
    {
      DeepStable(s, phases, refs, w, u.declaration);
    }
  }

  /** A declaration walked by an applied designation stays so when one more is applied. */
  lemma RaisedByMore(s: Shape, applied: set<Designation>, v: Designation, x: DeclId)
    requires TreeShaped(s) && RaisedBy(s, applied, x)
    ensures RaisedBy(s, applied + {v}, x)
  {
    var u :| u in applied && DesignationIn(s, u) && x in DesignationWalk(s, u);
    assert u in applied + {v};
  }

  /** What walking v leaves below SUPER_TYPES no longer is walked by v. */
  lemma RaisedByStep(s: Shape, phases0: map<DeclId, Phase>, phases: map<DeclId, Phase>,
                     applied: set<Designation>, v: Designation)
    requires TreeShaped(s) && phases.Keys == s.decls.Keys && s.decls.Keys <= phases0.Keys && DesignationIn(s, v)
    requires forall x :: x in s.decls && s.decls[x].kind != File && NeedReplacePhase(phases0[x]) && !NeedReplacePhase(phases[x]) ==>
      RaisedBy(s, applied, x)
    ensures forall x :: x in s.decls && s.decls[x].kind != File && NeedReplacePhase(phases0[x])
                        && !NeedReplacePhase(AppliedPhases(phases, DesignationWalk(s, v))[x]) ==>
      RaisedBy(s, applied + {v}, x)
  {
    var w := DesignationWalk(s, v);
    AppliedPhasesSpec(phases, w);
    forall x | x in s.decls && s.decls[x].kind != File && NeedReplacePhase(phases0[x]) && !NeedReplacePhase(AppliedPhases(phases, w)[x])
      ensures RaisedBy(s, applied + {v}, x)
    {
      if NeedReplacePhase(phases[x]) {
        assert x in w && v in applied + {v};
      } else {
        RaisedByMore(s, applied, v, x);
      }
    }
  }

  /** The designations skipped so far keep their reason to be skipped. */
  lemma SkippedKept(s: Shape, phases0: map<DeclId, Phase>, done: set<Designation>, applied: set<Designation>, v: Designation)
    requires TreeShaped(s) && s.decls.Keys <= phases0.Keys
    requires forall u :: u in done && u !in applied ==>
      u.declaration in s.decls && (!NeedReplacePhase(phases0[u.declaration]) || RaisedBy(s, applied, u.declaration))
    ensures forall u :: u in done + {v} && u !in applied + {v} ==>
      u.declaration in s.decls && (!NeedReplacePhase(phases0[u.declaration]) || RaisedBy(s, applied + {v}, u.declaration))
  {
    forall u | u in done + {v} && u !in applied + {v} && NeedReplacePhase(phases0[u.declaration])
      ensures RaisedBy(s, applied + {v}, u.declaration)
    {
      RaisedByMore(s, applied, v, u.declaration);
    }
  }

  /**
   * Why the deep check is promised only for the designations the apply step took: once v is
   * applied, the innermost class b on v's path is at SUPER_TYPES, so a designation of b
   * coming later is skipped; yet a nested class of b that v's walk did not reach and that
   * is still below SUPER_TYPES makes b's deep check fail.
   */
  lemma SkippedPathClassFailsDeep(s: Shape, phases: map<DeclId, Phase>, refs: map<DeclId, TypeRefs>, v: Designation, i: nat)
    requires StateOf(s, phases, refs) && refs.Keys == s.decls.Keys && DesignationIn(s, v) && v.path != []
    requires s.decls[v.path[|v.path| - 1]].kind == RegularClass
    requires i < |s.decls[v.path[|v.path| - 1]].declarations|
    requires s.decls[v.path[|v.path| - 1]].declarations[i] !in DesignationWalk(s, v)
    requires s.decls[v.path[|v.path| - 1]].declarations[i] in s.decls
    requires s.decls[s.decls[v.path[|v.path| - 1]].declarations[i]].kind == RegularClass
    requires NeedReplacePhase(phases[s.decls[v.path[|v.path| - 1]].declarations[i]])
    ensures !NeedReplacePhase(AppliedPhases(phases, DesignationWalk(s, v))[v.path[|v.path| - 1]])
    ensures EnsureResolvedDeep(s, AppliedPhases(phases, DesignationWalk(s, v)),
                                  AppliedRefs(s, phases, refs, DesignationWalk(s, v)), v.path[|v.path| - 1]).Fail?
  {
    var w := DesignationWalk(s, v);
    var b := v.path[|v.path| - 1];
    var o := s.decls[b].declarations[i];
    AppliedPhasesSpec(phases, w);
    AppliedRefsSpec(s, phases, refs, w);
    NestedMembers(s, b);
    assert b in w;
    assert EnsureResolvedDeep(s, AppliedPhases(phases, w), AppliedRefs(s, phases, refs, w), o).Fail?;
  }

  /**
   * Applying one more designation v below SUPER_TYPES whose deep check passes: every earlier
   * designation keeps its passing deep check, and the progress holds with v applied.
   */
  lemma ApplyStepKeeps(s: Shape, phases0: map<DeclId, Phase>, phases: map<DeclId, Phase>, refs: map<DeclId, TypeRefs>,
                       done: set<Designation>, applied: set<Designation>, v: Designation)
    requires TreeShaped(s) && phases.Keys == s.decls.Keys && refs.Keys == s.decls.Keys && s.decls.Keys <= phases0.Keys
    requires DesignationIn(s, v) && PhasesGrow(phases0, phases)
    requires ApplyProgress(s, phases0, phases, refs, done, applied)
    requires NeedReplacePhase(phases[v.declaration])
    requires EnsureResolvedDeep(s, AppliedPhases(phases, DesignationWalk(s, v)),
                                   AppliedRefs(s, phases, refs, DesignationWalk(s, v)), v.declaration).Pass?
    ensures StateOf(s, AppliedPhases(phases, DesignationWalk(s, v)), AppliedRefs(s, phases, refs, DesignationWalk(s, v)))
    ensures ApplyProgress(s, phases0, AppliedPhases(phases, DesignationWalk(s, v)),
                          AppliedRefs(s, phases, refs, DesignationWalk(s, v)), done + {v}, applied + {v})
  {
    var w := DesignationWalk(s, v);
    AppliedDeepKept(s, phases0, phases, refs, applied, w);
    RaisedByStep(s, phases0, phases, applied, v);
    SkippedKept(s, phases0, done, applied, v);
    assert NeedReplacePhase(phases0[v.declaration]);
  }

  /**
   * The apply step over every visited designation (grouped by file in the source; the
   * grouping only decides which file lock is held): the first failing check stops it. The
   * designations applied are those still below SUPER_TYPES when their turn comes, and each of
   * them ends with ensureResolvedDeep passing, nested declarations included; one skipped was
   * at SUPER_TYPES from the start or was walked by an applied one.
   */
  method ApplyAll(tree: DeclarationTree, visited: set<Designation>)
    returns (o: Outcome<Failure>, ghost applied: set<Designation>, ghost log: seq<Event>)
    requires tree.Valid()
    requires forall v :: v in visited ==> DesignationIn(tree.shape, v) && tree.shape.decls[v.declaration].kind != File
    modifies tree`resolvePhase, tree`typeRefs, tree`events
    ensures tree.Valid()
    ensures PhasesGrow(old(tree.resolvePhase), tree.resolvePhase)
    ensures tree.events == old(tree.events) + log && forall e :: e in log ==> e.SupertypesApplied?
    ensures o.Pass? ==> AllAtSuperTypes(tree.resolvePhase, visited)
    ensures o.Pass? ==> ApplyProgress(tree.shape, old(tree.resolvePhase), tree.resolvePhase, tree.typeRefs, visited, applied)
  {
    ghost var phases0 := tree.resolvePhase;
    ghost var events0 := tree.events;
    o, applied, log := Pass, {}, [];
    var rest := visited;
    while rest != {}
      invariant rest <= visited
      invariant tree.Valid()
      invariant PhasesGrow(phases0, tree.resolvePhase)
      invariant tree.events == events0 + log && forall e :: e in log ==> e.SupertypesApplied?
      invariant AllAtSuperTypes(tree.resolvePhase, visited - rest)
      invariant ApplyProgress(tree.shape, phases0, tree.resolvePhase, tree.typeRefs, visited - rest, applied)
      decreases rest
    {
      var designation :| designation in rest;
      ghost var phasesBefore, refsBefore := tree.resolvePhase, tree.typeRefs;
      ghost var appliedBefore := applied;
      ghost var step;
      o, step := ApplyToDesignation(tree, designation);
      PhasesGrowTransitive(phases0, phasesBefore, tree.resolvePhase);
      AtSuperTypesGrow(phasesBefore, tree.resolvePhase, visited - rest, designation);
      EventsAppended(events0, log, step);
      log := log + step;
      if o.Fail? {
        return;
      }
      if NeedReplacePhase(phasesBefore[designation.declaration]) {
        ApplyStepKeeps(tree.shape, phases0, phasesBefore, refsBefore, visited - rest, applied, designation);
        applied := applied + {designation};
      } else {
        ApplySkipKeeps(tree.shape, phases0, phasesBefore, refsBefore, visited - rest, applied, designation);
      }
      assert visited - (rest - {designation}) == (visited - rest) + {designation};
      rest := rest - {designation};
    }
  }

  // ----- transformDeclaration -----

  /**
   * transformDeclaration of the SUPER_TYPES phase. The file must be at IMPORTS; the target is
   * adjusted to a class-like; nothing happens when it is resolved for SUPER_TYPES already;
   * otherwise its marker is raised, the worklist runs to its fixpoint, loops are broken once,
   * and every visited designation is applied. On success the visited declarations are exactly
   * those reachable from the target through supertypes, all are at SUPER_TYPES, and every
   * designation the apply step took passes ensureResolvedDeep, so its supertype references and
   * those of the classes nested in it are resolved. The ghost logs split the new events into
   * the worklist's and the apply step's, around the single loop breaking.
   */
  method TransformDeclaration(tree: DeclarationTree, designation: Designation, isOnAirResolve: bool)
    returns (o: Outcome<Failure>, visited: set<Designation>, ghost applied: set<Designation>,
             ghost worklistLog: seq<Event>, ghost applyLog: seq<Event>)
    requires tree.Valid() && DesignationIn(tree.shape, designation)
    modifies tree`allPhaseAttr, tree`resolvePhase, tree`typeRefs, tree`events
    ensures tree.Valid()
    ensures PhasesGrow(old(tree.resolvePhase), tree.resolvePhase)
    ensures MarkersGrow(old(tree.allPhaseAttr), tree.allPhaseAttr)
    ensures !Le(Imports, old(tree.resolvePhase)[designation.firFile]) ==>
      o == Fail(FileNotResolvedToImports) && tree.allPhaseAttr == old(tree.allPhaseAttr) &&
      tree.resolvePhase == old(tree.resolvePhase) && tree.typeRefs == old(tree.typeRefs) && tree.events == old(tree.events)
    ensures Le(Imports, old(tree.resolvePhase)[designation.firFile]) ==>
      match TargetDesignation(tree.shape, designation)
      case Err(e) =>
        o == Fail(e) && tree.allPhaseAttr == old(tree.allPhaseAttr) && tree.resolvePhase == old(tree.resolvePhase) &&
        tree.typeRefs == old(tree.typeRefs) && tree.events == old(tree.events)
      case Ok(None) =>
        o == Pass && tree.allPhaseAttr == old(tree.allPhaseAttr) && tree.resolvePhase == old(tree.resolvePhase) &&
        tree.typeRefs == old(tree.typeRefs) && tree.events == old(tree.events)
      case Ok(Some(target)) =>
        if IsResolvedForAllDeclarations(old(tree.allPhaseAttr), old(tree.resolvePhase), target, SuperTypes, isOnAirResolve) then
          o == Pass && tree.allPhaseAttr == old(tree.allPhaseAttr) && tree.resolvePhase == old(tree.resolvePhase) &&
          tree.typeRefs == old(tree.typeRefs) && tree.events == old(tree.events)
        else
          && tree.allPhaseAttr == Updated(old(tree.allPhaseAttr), target.declaration, SuperTypes)
          && IsResolvedForAllDeclarations(tree.allPhaseAttr, tree.resolvePhase, target, SuperTypes, false)
          && IsResolvedForAllDeclarations(tree.allPhaseAttr, tree.resolvePhase, designation, SuperTypes, false)
          && (o.Pass? ==>
                && target in visited
                && (forall v :: v in visited ==> Queued(tree.shape, target, v) && Le(SuperTypes, tree.resolvePhase[v.declaration]))
                && (forall x :: x in DeclarationsOf(visited) <==> Reachable(tree.shape, target, x))
                && SupertypesClosed(tree.shape, visited, DeclarationsOf(visited))
                && ApplyProgress(tree.shape, old(tree.resolvePhase), tree.resolvePhase, tree.typeRefs, visited, applied)
                && tree.events == old(tree.events) + worklistLog + [SupertypeLoopsBroken] + applyLog
                && WorklistLog(worklistLog)
                && (forall e :: e in applyLog ==> e.SupertypesApplied?))
  {
    visited, applied, worklistLog, applyLog := {}, {}, [], [];
    var s := tree.shape;
    if !Le(Imports, tree.resolvePhase[designation.firFile]) {
      return Fail(FileNotResolvedToImports), visited, applied, worklistLog, applyLog;
    }
    var adjusted := TargetDesignation(s, designation);
    if adjusted.Err? {
      return Fail(adjusted.error), visited, applied, worklistLog, applyLog;
    }
    if adjusted.value.None? {
      return Pass, visited, applied, worklistLog, applyLog;
    }
    var target := adjusted.value.value;
    if IsResolvedForAllDeclarations(tree.allPhaseAttr, tree.resolvePhase, target, SuperTypes, isOnAirResolve) {
      return Pass, visited, applied, worklistLog, applyLog;
    }
    UpdateResolvedForAllDeclarations(tree, target.declaration, SuperTypes);
    TargetOnDesignation(s, designation);
    UpdatedResolves(old(tree.allPhaseAttr), tree.resolvePhase, designation, target.declaration, SuperTypes);
    UpdatedResolves(old(tree.allPhaseAttr), tree.resolvePhase, target, target.declaration, SuperTypes);

    o, visited, applied, worklistLog, applyLog := ResolveSupertypes(tree, target);
  }

  /** The declarations of a set of designations. */
  function DeclarationsOf(vs: set<Designation>): (r: set<DeclId>)
    ensures forall v :: v in vs ==> v.declaration in r
  {
    set v | v in vs :: v.declaration
  }

  /**
   * The part of transformDeclaration after the marker is raised: the worklist to its fixpoint,
   * loop breaking once, then the apply step over every visited designation.
   */
  method ResolveSupertypes(tree: DeclarationTree, target: Designation)
    returns (o: Outcome<Failure>, visited: set<Designation>, ghost applied: set<Designation>,
             ghost worklistLog: seq<Event>, ghost applyLog: seq<Event>)
    requires tree.Valid() && DesignationIn(tree.shape, target) && IsClassLike(tree.shape.decls[target.declaration].kind)
    modifies tree`resolvePhase, tree`typeRefs, tree`events
    ensures tree.Valid()
    ensures PhasesGrow(old(tree.resolvePhase), tree.resolvePhase)
    ensures o.Pass? ==>
      && target in visited
      && (forall v :: v in visited ==> Queued(tree.shape, target, v) && Le(SuperTypes, tree.resolvePhase[v.declaration]))
      && (forall x :: x in DeclarationsOf(visited) <==> Reachable(tree.shape, target, x))
      && SupertypesClosed(tree.shape, visited, DeclarationsOf(visited))
      && ApplyProgress(tree.shape, old(tree.resolvePhase), tree.resolvePhase, tree.typeRefs, visited, applied)
      && tree.events == old(tree.events) + worklistLog + [SupertypeLoopsBroken] + applyLog
      && WorklistLog(worklistLog)
      && (forall e :: e in applyLog ==> e.SupertypesApplied?)
  {
    var s := tree.shape;
    applied, applyLog := {}, [];
    var visitedDecls;
    o, visited, visitedDecls, worklistLog := ComputeSupertypes(tree, target);
    ghost var phases1 := tree.resolvePhase;
    if o.Fail? {
      return;
    }
    WorklistResult(s, target, visited, visitedDecls);
    o, applied, applyLog := BreakLoopsAndApply(tree, visited);
    PhasesGrowTransitive(old(tree.resolvePhase), phases1, tree.resolvePhase);
    if o.Pass? {
      ApplyProgressRebase(s, old(tree.resolvePhase), phases1, tree.resolvePhase, tree.typeRefs, visited, applied);
    }
  }

  /**
   * What the worklist leaves for the apply step: class-like designations whose declarations
   * are exactly those reachable from the target, closed under their supertypes.
   */
  lemma WorklistResult(s: Shape, target: Designation, visited: set<Designation>, visitedDecls: set<DeclId>)
    requires WellFormed(s) && DesignationIn(s, target) && IsClassLike(s.decls[target.declaration].kind)
    requires target in visited && VisitedConsistent(s, target, visited, visitedDecls)
    requires SupertypesClosed(s, visited, visitedDecls)
    requires forall x :: x in visitedDecls ==> Reachable(s, target, x)
    ensures visitedDecls == DeclarationsOf(visited)
    ensures forall x :: x in DeclarationsOf(visited) <==> Reachable(s, target, x)
    ensures forall v :: v in visited ==> DesignationIn(s, v) && IsClassLike(s.decls[v.declaration].kind)
  {
    VisitedDecls(s, target, visited, visitedDecls);
    VisitedExactlyReachable(s, target, visited, visitedDecls);
    forall v | v in visited ensures DesignationIn(s, v) && IsClassLike(s.decls[v.declaration].kind) {
      assert Queued(s, target, v);
    }
  }

  /** supertypeComputationSession.breakLoops, then the apply step over every visited designation. */
  method BreakLoopsAndApply(tree: DeclarationTree, visited: set<Designation>)
    returns (o: Outcome<Failure>, ghost applied: set<Designation>, ghost applyLog: seq<Event>)
    requires tree.Valid()
    requires forall v :: v in visited ==> DesignationIn(tree.shape, v) && tree.shape.decls[v.declaration].kind != File
    modifies tree`resolvePhase, tree`typeRefs, tree`events
    ensures tree.Valid()
    ensures PhasesGrow(old(tree.resolvePhase), tree.resolvePhase)
    ensures tree.events == old(tree.events) + [SupertypeLoopsBroken] + applyLog
    ensures forall e :: e in applyLog ==> e.SupertypesApplied?
    ensures o.Pass? ==> AllAtSuperTypes(tree.resolvePhase, visited)
    ensures o.Pass? ==> ApplyProgress(tree.shape, old(tree.resolvePhase), tree.resolvePhase, tree.typeRefs, visited, applied)
  {
    tree.events := tree.events + [SupertypeLoopsBroken];
    o, applied, applyLog := ApplyAll(tree, visited);
  }
}
