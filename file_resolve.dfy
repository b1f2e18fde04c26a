/**
 * The file-wise part of lazy resolution: which declarations may be resolved at all, the
 * non-lazy phases up to IMPORTS that run for a whole file, and a request to resolve a FirFile.
 */
module FileResolve {
  import opened Wrappers
  import opened Phases
  import opened FirTree

  /** The origins whose declarations the IDE resolves lazily. */
  predicate IsResolvableOrigin(o: Origin)
  {
    o == Source || o == Synthetic || o == SubstitutionOverride
  }

  /**
   * isAvailableForResolve: true for Source, Synthetic and SubstitutionOverride declarations;
   * any other declaration must already be fully resolved, and is then not resolved again.
   */
  function IsAvailableForResolve(origin: Origin, resolvePhase: Phase): (r: Result<bool, Failure>)
    ensures r == Ok(true) <==> IsResolvableOrigin(origin)
    ensures r == Ok(false) <==> !IsResolvableOrigin(origin) && resolvePhase == BodyResolve
    ensures r.Err? ==> r.error == UnavailableDeclarationNotBodyResolved
  {
    match origin
    case Source => Ok(true)
    case Synthetic => Ok(true)
    case SubstitutionOverride => Ok(true)
    case _ => if resolvePhase == BodyResolve then Ok(false) else Err(UnavailableDeclarationNotBodyResolved)
  }

  /**
   * The two guards every lazyResolveDeclaration request starts with: Ok(true) when resolution
   * should go on, Ok(false) when the request is a no-op.
   */
  function ShouldResolve(origin: Origin, resolvePhase: Phase, toPhase: Phase): (r: Result<bool, Failure>)
    ensures toPhase == RawFir ==> r == Ok(false)
    ensures r == Ok(true) <==> toPhase != RawFir && IsResolvableOrigin(origin)
    ensures r.Err? <==> toPhase != RawFir && !IsResolvableOrigin(origin) && resolvePhase != BodyResolve
  {
    if toPhase == RawFir then Ok(false) else IsAvailableForResolve(origin, resolvePhase)
  }

  /**
   * firFileBuilder.runResolveWithoutLock: the file-wise phases from fromPhase to toPhase over a
   * whole file. The phase work itself is not modelled; the file ends at toPhase or later.
   */
  method RunFileWiseResolve(tree: DeclarationTree, file: DeclId, fromPhase: Phase, toPhase: Phase)
    requires tree.Valid() && file in tree.shape.decls
    modifies tree`resolvePhase, tree`events
    ensures tree.Valid()
    ensures tree.resolvePhase == old(tree.resolvePhase)[file := Max(old(tree.resolvePhase)[file], toPhase)]
    ensures tree.events == old(tree.events) + [FileWiseResolve(file, fromPhase, toPhase)]
  {
    tree.resolvePhase := tree.resolvePhase[file := Max(tree.resolvePhase[file], toPhase)];
    tree.events := tree.events + [FileWiseResolve(file, fromPhase, toPhase)];
  }

  /**
   * The non-lazy head of runLazyResolveWithoutLock: nothing when fromPhase >= toPhase, else
   * the file-wise phases up to min(toPhase, IMPORTS). The result says whether designated
   * phases remain to run after that.
   */
  method RunNonLazyResolve(tree: DeclarationTree, file: DeclId, fromPhase: Phase, toPhase: Phase)
    returns (designatedRemains: bool)
    requires tree.Valid() && file in tree.shape.decls
    modifies tree`resolvePhase, tree`events
    ensures tree.Valid()
    ensures designatedRemains <==> Lt(fromPhase, toPhase) && Lt(LastNonLazyPhase, toPhase)
    ensures Lt(fromPhase, Min(toPhase, LastNonLazyPhase)) ==>
      && tree.resolvePhase == old(tree.resolvePhase)[file := Max(old(tree.resolvePhase)[file], Min(toPhase, LastNonLazyPhase))]
      && tree.events == old(tree.events) + [FileWiseResolve(file, fromPhase, Min(toPhase, LastNonLazyPhase))]
    ensures !Lt(fromPhase, Min(toPhase, LastNonLazyPhase)) ==>
      tree.resolvePhase == old(tree.resolvePhase) && tree.events == old(tree.events)
  {
    if Le(toPhase, fromPhase) {
      return false;
    }
    var nonLazyPhase := Min(toPhase, LastNonLazyPhase);
    if Lt(fromPhase, nonLazyPhase) {
      RunFileWiseResolve(tree, file, fromPhase, nonLazyPhase);
    }
    if Le(toPhase, nonLazyPhase) {
      return false;
    }
    return true;
  }

  /** resolveFileAnnotationsWithoutLock: the annotation transformer is not modelled. */
  method ResolveFileAnnotationsWithoutLock(tree: DeclarationTree, file: DeclId)
    modifies tree`events
    ensures tree.events == old(tree.events) + [FileAnnotationsResolve(file)]
  {
    tree.events := tree.events + [FileAnnotationsResolve(file)];
  }

  /** resolveFileAnnotations: the file to IMPORTS, then its annotations. */
  method ResolveFileAnnotations(tree: DeclarationTree, file: DeclId) returns (o: Outcome<Failure>)
    requires tree.Valid() && file in tree.shape.decls && tree.shape.decls[file].kind == File
    modifies tree`resolvePhase, tree`events
    ensures tree.Valid()
    ensures PhasesGrow(old(tree.resolvePhase), tree.resolvePhase)
    ensures tree.resolvePhase == old(tree.resolvePhase)[file := tree.resolvePhase[file]]
    ensures o.Pass? && IsResolvableOrigin(tree.shape.decls[file].origin) ==> Le(Imports, tree.resolvePhase[file])
    ensures o.Fail? <==> !IsResolvableOrigin(tree.shape.decls[file].origin) && old(tree.resolvePhase)[file] != BodyResolve
    ensures o.Pass? ==>
      tree.events == old(tree.events)
        + (if IsResolvableOrigin(tree.shape.decls[file].origin) then [FileWiseResolve(file, RawFir, Imports)] else [])
        + [FileAnnotationsResolve(file)]
    decreases 1
  {
    o := LazyResolveFile(tree, file, Imports);
    if o.Fail? {
      return;
    }
    ResolveFileAnnotationsWithoutLock(tree, file);
  }

  /**
   * lazyResolveDeclaration on a FirFile: only up to TYPES may be asked for; the file itself is
   * resolved to IMPORTS, and its annotations only when more than IMPORTS was asked for.
   */
  method LazyResolveFile(tree: DeclarationTree, file: DeclId, toPhase: Phase) returns (o: Outcome<Failure>)
    requires tree.Valid() && file in tree.shape.decls && tree.shape.decls[file].kind == File
    modifies tree`resolvePhase, tree`events
    ensures tree.Valid()
    ensures PhasesGrow(old(tree.resolvePhase), tree.resolvePhase)
    ensures tree.resolvePhase == old(tree.resolvePhase)[file := tree.resolvePhase[file]]
    ensures o.Fail? <==> (toPhase != RawFir &&
      if IsResolvableOrigin(tree.shape.decls[file].origin) then Lt(Types, toPhase)
      else old(tree.resolvePhase)[file] != BodyResolve)
    ensures ShouldResolve(tree.shape.decls[file].origin, old(tree.resolvePhase)[file], toPhase) != Ok(true) ==>
      tree.resolvePhase == old(tree.resolvePhase) && tree.events == old(tree.events)
    ensures o.Pass? && ShouldResolve(tree.shape.decls[file].origin, old(tree.resolvePhase)[file], toPhase) == Ok(true) ==>
      && Le(Imports, tree.resolvePhase[file])
      && tree.events == old(tree.events) + [FileWiseResolve(file, RawFir, Imports)]
        + (if Lt(Imports, toPhase) then [FileWiseResolve(file, RawFir, Imports), FileAnnotationsResolve(file)] else [])
    decreases if Lt(Imports, toPhase) then 2 else 0
  {
    var decl := tree.shape.decls[file];
    var go := ShouldResolve(decl.origin, tree.resolvePhase[file], toPhase);
    if go.Err? {
      return Fail(go.error);
    }
    if !go.value {
      return Pass;
    }
    if !Le(toPhase, Types) {
      return Fail(FileRequestBeyondTypes);
    }
    var designatedRemains := RunNonLazyResolve(tree, file, RawFir, Imports);
    assert !designatedRemains;
    if Lt(Imports, toPhase) {
      o := ResolveFileAnnotations(tree, file);
      assert o.Pass?;
      return;
    }
    return Pass;
  }
}
