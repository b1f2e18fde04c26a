/**
 * commonize (nodeBuilders.kt): feed each slot of a commonized group, one per target, to a
 * commonizer, and take its result only when every slot is present and accepted. The
 * commonizer is left abstract: a step function on its state says whether it accepts one
 * more declaration, and a result function reads the common declaration off its state.
 */
module Commonization {
  import opened Wrappers

  /**
   * A commonizer (the Commonizer interface): commonizeWith moves its state by `step` and
   * reports acceptance; `result` reads the commonized value off the state. The ghost
   * history records every declaration fed to it, in order.
   */
  class Commonizer<S, T, R> {
    const step: (S, T) -> (bool, S)
    const result: S -> R
    var state: S
    ghost var fed: seq<T>

    constructor (step: (S, T) -> (bool, S), result: S -> R, initial: S)
      ensures this.step == step && this.result == result
      ensures state == initial && fed == []
    {
      this.step := step;
      this.result := result;
      state := initial;
      fed := [];
    }

    /** commonizeWith: one more declaration, accepted or not; the state moves either way. */
    method CommonizeWith(t: T) returns (ok: bool)
      modifies this
      ensures ok == step(old(state), t).0 && state == step(old(state), t).1
      ensures fed == old(fed) + [t]
    {
      ok := step(state, t).0;
      state := step(state, t).1;
      fed := fed + [t];
    }

    /** The commonizer's result for its current state. */
    function Result(): R
      reads this
    {
      result(state)
    }
  }

  // ---------------------------------------------------------------------------------------
  // The reference: feeding a sequence of declarations
  // ---------------------------------------------------------------------------------------

  /** The state after feeding every declaration of ts, in order, starting from s. */
  function After<S, T>(step: (S, T) -> (bool, S), s: S, ts: seq<T>): S
    decreases |ts|
  {
    if ts == [] then s else step(After(step, s, ts[..|ts| - 1]), ts[|ts| - 1]).1
  }

  /** Every declaration of ts is accepted in the state the ones before it lead to. */
  predicate AcceptsAll<S, T>(step: (S, T) -> (bool, S), s: S, ts: seq<T>)
  {
    forall k :: 0 <= k < |ts| ==> step(After(step, s, ts[..k]), ts[k]).0
  }

  // ---------------------------------------------------------------------------------------
  // The group fold
  // ---------------------------------------------------------------------------------------

  /**
   * Where commonizing a group stops: whether every slot was present and accepted, the
   * commonizer's state at that point, and the declarations fed to it.
   */
  datatype Fold<S, T> = Fold(accepted: bool, state: S, fed: seq<T>)

  /**
   * The for loop of commonize, slot by slot: a missing slot or a rejected declaration ends
   * it; later slots are not looked at.
   */
  function FoldGroup<S, T>(step: (S, T) -> (bool, S), s: S, group: seq<Option<T>>): Fold<S, T>
    decreases |group|
  {
    if group == [] then Fold(true, s, [])
    else
      var f := FoldGroup(step, s, group[..|group| - 1]);
      var slot := group[|group| - 1];
      if !f.accepted then f
      else if slot.None? then Fold(false, f.state, f.fed)
      else Fold(step(f.state, slot.value).0, step(f.state, slot.value).1, f.fed + [slot.value])
  }

  /** The value commonize returns: the result when the whole group was accepted, null otherwise. */
  function Commonized<S, T, R>(step: (S, T) -> (bool, S), result: S -> R, s: S, group: seq<Option<T>>): Option<R>
  {
    var f := FoldGroup(step, s, group);
    if f.accepted then Some(result(f.state)) else None
  }

  /** Once stopped, the fold ignores every later slot. */
  lemma {:induction false} FoldStops<S, T>(step: (S, T) -> (bool, S), s: S, group: seq<Option<T>>, k: nat)
    requires k <= |group| && !FoldGroup(step, s, group[..k]).accepted
    ensures FoldGroup(step, s, group) == FoldGroup(step, s, group[..k])
    decreases |group|
  {
    if k < |group| {
      var init := group[..|group| - 1];
      assert init[..k] == group[..k];
      FoldStops(step, s, init, k);
    } else {
      assert group[..k] == group;
    }
  }

  /**
   * The declarations fed are the present slots of a prefix of the group, in group order, and
   * the state is the one they lead to. A stop is either a missing slot right after them, with
   * all of them accepted, or the rejection of the last of them.
   */
  lemma {:induction false} FoldFedPrefix<S, T>(step: (S, T) -> (bool, S), s: S, group: seq<Option<T>>)
    ensures var f := FoldGroup(step, s, group);
      && |f.fed| <= |group|
      && (forall i :: 0 <= i < |f.fed| ==> group[i] == Some(f.fed[i]))
      && f.state == After(step, s, f.fed)
    ensures var f := FoldGroup(step, s, group);
      !f.accepted ==>
        || (|f.fed| < |group| && group[|f.fed|].None? && AcceptsAll(step, s, f.fed))
        || (|f.fed| > 0 && AcceptsAll(step, s, f.fed[..|f.fed| - 1])
            && !step(After(step, s, f.fed[..|f.fed| - 1]), f.fed[|f.fed| - 1]).0)
    decreases |group|
  {
    if group != [] {
      var init := group[..|group| - 1];
      var g := FoldGroup(step, s, init);
      FoldFedPrefix(step, s, init);
      FoldAccepted(step, s, init);
      var slot := group[|group| - 1];
      if g.accepted && slot.Some? {
        var fed := g.fed + [slot.value];
        assert fed[..|fed| - 1] == g.fed;
      }
    }
  }

  /**
   * The group is accepted exactly when every slot was fed and every declaration accepted;
   * then the state is the one the whole group leads to.
   */
  lemma {:induction false} FoldAccepted<S, T>(step: (S, T) -> (bool, S), s: S, group: seq<Option<T>>)
    ensures var f := FoldGroup(step, s, group);
      f.accepted <==> |f.fed| == |group| && AcceptsAll(step, s, f.fed)
    decreases |group|
  {
    if group != [] {
      var init := group[..|group| - 1];
      var g := FoldGroup(step, s, init);
      FoldAccepted(step, s, init);
      FoldFedPrefix(step, s, init);
      var slot := group[|group| - 1];
      var f := FoldGroup(step, s, group);
      if g.accepted && slot.Some? {
        var fed := g.fed + [slot.value];
        assert forall k :: 0 <= k < |g.fed| ==> fed[..k] == g.fed[..k];
        assert fed[..|g.fed|] == g.fed;
        assert AcceptsAll(step, s, fed) <==> AcceptsAll(step, s, g.fed) && step(After(step, s, g.fed), slot.value).0;
      } else if !g.accepted {
        assert |g.fed| < |init| || !AcceptsAll(step, s, g.fed);
      }
    }
  }

  /** Any missing slot makes commonize return null. */
  lemma {:induction false} MissingSlotGivesNull<S, T>(step: (S, T) -> (bool, S), s: S, group: seq<Option<T>>, i: int)
    requires 0 <= i < |group| && group[i].None?
    ensures !FoldGroup(step, s, group).accepted
    decreases |group|
  {
    var init := group[..|group| - 1];
    if i < |group| - 1 {
      MissingSlotGivesNull(step, s, init, i);
    }
  }

  /** An empty group gives the untouched initial result, with nothing fed. */
  lemma EmptyGroup<S, T, R>(step: (S, T) -> (bool, S), result: S -> R, s: S)
    ensures FoldGroup(step, s, []) == Fold(true, s, [])
    ensures Commonized(step, result, s, []) == Some(result(s))
  {
  }

  /**
   * commonize(targetDeclarations, commonizer): feed the slots in order, returning null at the
   * first missing slot or rejection, and the commonizer's result when all were accepted.
   */
  method Commonize<S, T, R>(group: seq<Option<T>>, c: Commonizer<S, T, R>) returns (r: Option<R>)
    modifies c
    ensures c.state == FoldGroup(c.step, old(c.state), group).state
    ensures c.fed == old(c.fed) + FoldGroup(c.step, old(c.state), group).fed
    ensures r == Commonized(c.step, c.result, old(c.state), group)
  {
    ghost var s0 := c.state;
    ghost var h0 := c.fed;
    for k := 0 to |group|
      invariant FoldGroup(c.step, s0, group[..k]).accepted
      invariant c.state == FoldGroup(c.step, s0, group[..k]).state
      invariant c.fed == h0 + FoldGroup(c.step, s0, group[..k]).fed
    {
      assert group[..k + 1][..k] == group[..k];
      var slot := group[k];
      if slot.None? {
        FoldStops(c.step, s0, group, k + 1);
        return None;
      }
      var ok := c.CommonizeWith(slot.value);
      if !ok {
        FoldStops(c.step, s0, group, k + 1);
        return None;
      }
    }
    assert group[..|group|] == group;
    r := Some(c.Result());
  }

  /**
   * The condition-gated commonize: null without feeding anything when the condition
   * disallows commonization, the group fold otherwise.
   */
  method CommonizeIfAllowed<S, T, R>(allowCommonization: bool, group: seq<Option<T>>, c: Commonizer<S, T, R>)
    returns (r: Option<R>)
    modifies c
    ensures !allowCommonization ==> r == None && c.state == old(c.state) && c.fed == old(c.fed)
    ensures allowCommonization ==>
      && c.state == FoldGroup(c.step, old(c.state), group).state
      && c.fed == old(c.fed) + FoldGroup(c.step, old(c.state), group).fed
      && r == Commonized(c.step, c.result, old(c.state), group)
  {
    if allowCommonization {
      r := Commonize(group, c);
      return;
    }
    r := None;
  }
}
