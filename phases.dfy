/**
 * FirResolvePhase: the fixed total order of resolve phases. The enum itself is not
 * part of this model's source files; only the phases that the lazy resolver names are
 * modelled. Whether a phase is a plugin phase is left abstract: every operation that
 * needs it takes the set of plugin phases as a parameter.
 */
module Phases {

  /**
   * A phase is its ordinal in the enumeration; the phases the lazy resolver names are the
   * constants below, in enumeration order.
   */
  newtype Phase = x: int | 0 <= x <= 8

  const RawFir: Phase := 0
  const Imports: Phase := 1
  const SuperTypes: Phase := 2
  const SealedClassInheritors: Phase := 3
  const Types: Phase := 4
  const Status: Phase := 5
  const Contracts: Phase := 6
  const ImplicitTypesBodyResolve: Phase := 7
  const BodyResolve: Phase := 8

  /** Position of a phase in the enumeration (its ordinal). */
  function Ord(p: Phase): nat
  {
    p as int
  }

  predicate Lt(p: Phase, q: Phase) { Ord(p) < Ord(q) }

  predicate Le(p: Phase, q: Phase) { Ord(p) <= Ord(q) }

  /** The last phase that is run for a whole file rather than for a designation. */
  const LastNonLazyPhase: Phase := Imports

  lemma OrdInjective(p: Phase, q: Phase)
    ensures Ord(p) == Ord(q) ==> p == q
  {
  }

  /** maxOf on phases: the larger of the two. */
  function Max(p: Phase, q: Phase): (r: Phase)
    ensures Le(p, r) && Le(q, r)
    ensures r == p || r == q
  {
    if Lt(p, q) then q else p
  }

  /** minOf on phases: the smaller of the two. */
  function Min(p: Phase, q: Phase): (r: Phase)
    ensures Le(r, p) && Le(r, q)
    ensures r == p || r == q
  {
    if Lt(q, p) then q else p
  }

  /** FirResolvePhase.next: the phase whose ordinal is one greater. */
  function Next(p: Phase): (r: Phase)
    requires p != BodyResolve
    ensures Ord(r) == Ord(p) + 1
  {
    p + 1
  }

  /** No phase lies strictly between a phase and its successor. */
  lemma NextIsImmediate(p: Phase, q: Phase)
    requires p != BodyResolve
    ensures Lt(p, q) <==> Le(Next(p), q)
  {
  }
}
