/**
 * InstructionLivenessAnalyzer: which instructions of a JVM method body can be reached from
 * its first instruction through fall-through, jumps, switches and exception handlers, plus
 * the labels that local variables and try-catch blocks refer to.
 */
module InstructionLiveness {
  import opened Wrappers

  // Opcodes the analysis looks at (org.objectweb.asm.Opcodes).
  const GOTO: int := 167
  const JSR: int := 168
  const RET: int := 169
  const TABLESWITCH: int := 170
  const LOOKUPSWITCH: int := 171
  const IRETURN: int := 172
  const RETURN: int := 177
  const ATHROW: int := 191

  /**
   * An instruction node, reduced to what the analysis reads. Labels are given as the index
   * of their LabelNode in the instruction list.
   */
  datatype Insn =
    | PseudoInsn                                    // LabelNode, LineNumberNode or FrameNode
    | JumpInsn(opcode: int, target: int)             // JumpInsnNode
    | LookupSwitchInsn(lookupDflt: int, lookupLabels: seq<int>)
    | TableSwitchInsn(tableDflt: int, tableLabels: seq<int>)
    | OtherInsn(opcode: int)                        // any other node

  datatype TryCatchBlock = TryCatchBlock(start: int, end: int, handler: int)

  datatype LocalVariable = LocalVariable(start: int, end: int)

  datatype MethodNode = MethodNode(instructions: seq<Insn>, tryCatchBlocks: seq<TryCatchBlock>,
                                   localVariables: seq<LocalVariable>)

  datatype AnalyzerError =
    | SubroutinesDeprecated   // the AssertionError of checkAssertions
    | FallsOffEnd             // the last instruction falls through past the end of the array

  /** AbstractInsnNode.getOpcode: -1 for the pseudo-instructions. */
  function Opcode(insn: Insn): int
  {
    match insn
    case PseudoInsn => -1
    case JumpInsn(op, _) => op
    case LookupSwitchInsn(_, _) => LOOKUPSWITCH
    case TableSwitchInsn(_, _) => TABLESWITCH
    case OtherInsn(op) => op
  }

  /** Every target an instruction, try-catch block or local variable refers to is an index of the list. */
  predicate WellIndexed(m: MethodNode)
  {
    var n := |m.instructions|;
    && (forall i :: 0 <= i < n ==> InsnIndexed(m.instructions[i], n))
    && (forall t :: t in m.tryCatchBlocks ==> 0 <= t.start < n && 0 <= t.end < n && 0 <= t.handler < n)
    && (forall v :: v in m.localVariables ==> 0 <= v.start < n && 0 <= v.end < n)
  }

  predicate InsnIndexed(insn: Insn, n: int)
  {
    match insn
    case JumpInsn(_, target) => 0 <= target < n
    case LookupSwitchInsn(dflt, labels) => 0 <= dflt < n && InRange(labels, n)
    case TableSwitchInsn(dflt, labels) => 0 <= dflt < n && InRange(labels, n)
    case _ => true
  }

  // ---------------------------------------------------------------------------------------
  // The control-flow edges
  // ---------------------------------------------------------------------------------------

  /** Labels, lines, frames, ordinary instructions and conditional jumps go on to the next instruction. */
  predicate FallsThrough(insn: Insn)
  {
    match insn
    case PseudoInsn => true
    case JumpInsn(op, _) => op != GOTO && op != JSR
    case LookupSwitchInsn(_, _) => false
    case TableSwitchInsn(_, _) => false
    case OtherInsn(op) => op != ATHROW && (op < IRETURN || op > RETURN)
  }

  /**
   * The successors traverseCfg gives instruction i, in the order the visit methods merge them:
   * the next instruction, then a jump's target; a switch's default, then its labels (a table
   * switch takes them from last to first).
   */
  function Successors(m: MethodNode, i: int): seq<int>
    requires 0 <= i < |m.instructions|
  {
    match m.instructions[i]
    case PseudoInsn => [i + 1]
    case JumpInsn(op, target) => (if op != GOTO && op != JSR then [i + 1] else []) + [target]
    case LookupSwitchInsn(dflt, labels) => [dflt] + labels
    case TableSwitchInsn(dflt, labels) => [dflt] + Reversed(labels)
    case OtherInsn(op) => if op != ATHROW && (op < IRETURN || op > RETURN) then [i + 1] else []
  }

  /**
   * The successors of i are exactly: the next instruction when i falls through, a jump's
   * target, and a switch's default and labels. A return or ATHROW has none.
   */
  lemma SuccessorsCover(m: MethodNode, i: int, e: int)
    requires 0 <= i < |m.instructions|
    ensures e in Successors(m, i) <==>
      || (FallsThrough(m.instructions[i]) && e == i + 1)
      || (m.instructions[i].JumpInsn? && e == m.instructions[i].target)
      || (m.instructions[i].LookupSwitchInsn? && (e == m.instructions[i].lookupDflt || e in m.instructions[i].lookupLabels))
      || (m.instructions[i].TableSwitchInsn? && (e == m.instructions[i].tableDflt || e in m.instructions[i].tableLabels))
  {
  }

  /** In a well-indexed method every successor is an instruction, except a fall-through past the last one. */
  lemma SuccessorsInRange(m: MethodNode, i: int)
    requires WellIndexed(m) && 0 <= i < |m.instructions|
    ensures forall e :: e in Successors(m, i) ==>
      0 <= e < |m.instructions| || (e == i + 1 && FallsThrough(m.instructions[i]))
  {
    forall e | e in Successors(m, i)
      ensures 0 <= e < |m.instructions| || (e == i + 1 && FallsThrough(m.instructions[i]))
    {
      SuccessorsCover(m, i, e);
      assert InsnIndexed(m.instructions[i], |m.instructions|);
    }
  }

  /** A try-catch block covers the instructions from its start target up to, not including, its end target. */
  predicate Covers(t: TryCatchBlock, j: int)
  {
    t.start <= j < t.end
  }

  /** computeExceptionHandlersForEachInsn: the blocks covering instruction j, in declaration order. */
  function Handlers(tcbs: seq<TryCatchBlock>, j: int): seq<TryCatchBlock>
  {
    if tcbs == [] then []
    else Handlers(tcbs[..|tcbs| - 1], j) + (if Covers(tcbs[|tcbs| - 1], j) then [tcbs[|tcbs| - 1]] else [])
  }

  /** The blocks listed for an instruction are exactly the blocks that cover it. */
  lemma {:induction false} HandlersCover(tcbs: seq<TryCatchBlock>, j: int, t: TryCatchBlock)
    ensures t in Handlers(tcbs, j) <==> t in tcbs && Covers(t, j)
  {
    if tcbs != [] {
      var init := tcbs[..|tcbs| - 1];
      HandlersCover(init, j, t);
      assert tcbs == init + [tcbs[|tcbs| - 1]];
    }
  }

  /** The handler labels of a list of try-catch blocks. */
  function HandlerLabels(hs: seq<TryCatchBlock>): (r: seq<int>)
    ensures |r| == |hs| && forall k :: 0 <= k < |hs| ==> r[k] == hs[k].handler
  {
    if hs == [] then [] else HandlerLabels(hs[..|hs| - 1]) + [hs[|hs| - 1].handler]
  }

  /** Every edge out of instruction i: its successors, then the handlers of the blocks covering it. */
  function Edges(m: MethodNode, i: int): seq<int>
    requires 0 <= i < |m.instructions|
  {
    Successors(m, i) + HandlerLabels(Handlers(m.tryCatchBlocks, i))
  }

  /** Entering a handler is an edge from every instruction its block covers. */
  lemma HandlerIsEdge(m: MethodNode, i: int, t: TryCatchBlock)
    requires 0 <= i < |m.instructions| && t in m.tryCatchBlocks && Covers(t, i)
    ensures t.handler in Edges(m, i)
  {
    HandlersCover(m.tryCatchBlocks, i, t);
    var hs := Handlers(m.tryCatchBlocks, i);
    var k :| 0 <= k < |hs| && hs[k] == t;
    assert HandlerLabels(hs)[k] == t.handler;
  }

  /** Every edge stays within the instruction list, except a fall-through from the last instruction. */
  lemma EdgesInRange(m: MethodNode, i: int)
    requires WellIndexed(m) && 0 <= i < |m.instructions|
    ensures forall e :: e in Edges(m, i) ==>
      0 <= e < |m.instructions| || (e == i + 1 && FallsThrough(m.instructions[i]))
    ensures InRange(HandlerLabels(Handlers(m.tryCatchBlocks, i)), |m.instructions|)
  {
    SuccessorsInRange(m, i);
    var hs := Handlers(m.tryCatchBlocks, i);
    forall k | 0 <= k < |hs|
      ensures 0 <= HandlerLabels(hs)[k] < |m.instructions|
    {
      HandlersCover(m.tryCatchBlocks, i, hs[k]);
    }
  }

  /** A set that every edge out of its in-range members leads back into. */
  ghost predicate Closed(m: MethodNode, s: set<int>)
  {
    forall i :: i in s && 0 <= i < |m.instructions| ==> forall e :: e in Edges(m, i) ==> e in s
  }

  /** Reachable from instruction 0: a member of every closed set that holds 0. */
  ghost predicate Reachable(m: MethodNode, i: int)
  {
    forall s :: 0 in s && Closed(m, s) ==> i in s
  }

  /** The first instruction is reachable. */
  lemma FirstReachable(m: MethodNode)
    ensures Reachable(m, 0)
  {
  }

  /** Every edge out of a reachable instruction leads to a reachable one. */
  lemma ReachableStep(m: MethodNode, i: int, e: int)
    requires 0 <= i < |m.instructions| && Reachable(m, i) && e in Edges(m, i)
    ensures Reachable(m, e)
  {
    forall s | 0 in s && Closed(m, s)
      ensures e in s
    {
      assert i in s;
    }
  }

  /** reach holds exactly the reachable instructions. */
  ghost predicate IsReachableSet(m: MethodNode, reach: set<int>)
  {
    forall i :: i in reach <==> 0 <= i < |m.instructions| && Reachable(m, i)
  }

  /** Every edge out of a reachable instruction leads to a reachable instruction or past the end. */
  lemma EdgesFromReachable(m: MethodNode, reach: set<int>, i: int)
    requires WellIndexed(m) && IsReachableSet(m, reach) && i in reach
    ensures forall e :: e in Edges(m, i) ==> 0 <= e && (e < |m.instructions| ==> e in reach)
  {
    EdgesInRange(m, i);
    forall e | e in Edges(m, i)
      ensures Reachable(m, e)
    {
      ReachableStep(m, i, e);
    }
  }

  /**
   * A marking that holds instruction 0, follows every edge and marks only reachable
   * instructions marks exactly the reachable ones.
   */
  lemma LeastClosedMarking(m: MethodNode, live: seq<bool>)
    requires |live| == |m.instructions| > 0 && live[0]
    requires forall i :: 0 <= i < |live| && live[i] ==> forall e :: e in Edges(m, i) ==> 0 <= e < |live| && live[e]
    requires forall i :: 0 <= i < |live| && live[i] ==> Reachable(m, i)
    ensures forall i :: 0 <= i < |live| ==> (live[i] <==> Reachable(m, i))
  {
    var s := set i | 0 <= i < |live| && live[i];
    assert 0 in s;
    assert Closed(m, s);
  }

  // ---------------------------------------------------------------------------------------
  // checkAssertions and the labels that are always live
  // ---------------------------------------------------------------------------------------

  predicate IsSubroutineOpcode(op: int)
  {
    op == JSR || op == RET
  }

  /** checkAssertions: subroutines (JSR and RET) are refused before any analysis. */
  function CheckAssertions(insns: seq<Insn>): (o: Outcome<AnalyzerError>)
    ensures o.Fail? <==> exists i :: 0 <= i < |insns| && IsSubroutineOpcode(Opcode(insns[i]))
    ensures o.Fail? ==> o.error == SubroutinesDeprecated
  {
    if insns == [] then Pass
    else if IsSubroutineOpcode(Opcode(insns[0])) then Fail(SubroutinesDeprecated)
    else
      var rest := CheckAssertions(insns[1..]);
      assert forall i :: 1 <= i < |insns| ==> insns[i] == insns[1..][i - 1];
      rest
  }

  /** Instruction i is the start or end target of one of the local variables. */
  predicate IsLocalVariableLabel(vs: seq<LocalVariable>, i: int)
  {
    vs != [] && (IsLocalVariableLabel(vs[..|vs| - 1], i) || vs[|vs| - 1].start == i || vs[|vs| - 1].end == i)
  }

  /** Instruction i is the start, end or handler target of one of the try-catch blocks. */
  predicate IsTryCatchBlockLabel(ts: seq<TryCatchBlock>, i: int)
  {
    ts != [] && (IsTryCatchBlockLabel(ts[..|ts| - 1], i) || ts[|ts| - 1].start == i || ts[|ts| - 1].end == i || ts[|ts| - 1].handler == i)
  }

  /** The labels localVariableAndTryCatchBlockLabelsAreAlwaysLive marks. */
  predicate AlwaysLive(m: MethodNode, i: int)
  {
    IsLocalVariableLabel(m.localVariables, i) || IsTryCatchBlockLabel(m.tryCatchBlocks, i)
  }

  /** The labels of local variables are exactly their start and end labels. */
  lemma {:induction false} LocalVariableLabels(vs: seq<LocalVariable>, i: int)
    ensures IsLocalVariableLabel(vs, i) <==> exists v :: v in vs && (v.start == i || v.end == i)
  {
    if vs != [] {
      var init := vs[..|vs| - 1];
      LocalVariableLabels(init, i);
      assert vs == init + [vs[|vs| - 1]];
    }
  }

  /** The labels of try-catch blocks are exactly their start, end and handler labels. */
  lemma {:induction false} TryCatchBlockLabels(ts: seq<TryCatchBlock>, i: int)
    ensures IsTryCatchBlockLabel(ts, i) <==> exists t :: t in ts && (t.start == i || t.end == i || t.handler == i)
  {
    if ts != [] {
      var init := ts[..|ts| - 1];
      TryCatchBlockLabels(init, i);
      assert ts == init + [ts[|ts| - 1]];
    }
  }

  // ---------------------------------------------------------------------------------------
  // Counting marks
  // ---------------------------------------------------------------------------------------

  /** The number of set marks. */
  function CountTrue(s: seq<bool>): (r: nat)
    ensures r <= |s|
  {
    if s == [] then 0 else CountTrue(s[..|s| - 1]) + (if s[|s| - 1] then 1 else 0)
  }

  lemma {:induction false} CountTrueUpdate(s: seq<bool>, i: int, b: bool)
    requires 0 <= i < |s|
    ensures CountTrue(s[i := b]) == CountTrue(s) - (if s[i] then 1 else 0) + (if b then 1 else 0)
  {
    var t := s[i := b];
    if i == |s| - 1 {
      assert t[..|t| - 1] == s[..|s| - 1];
    } else {
      CountTrueUpdate(s[..|s| - 1], i, b);
      assert t[..|t| - 1] == s[..|s| - 1][i := b];
    }
  }

  lemma {:induction false} CountTrueZero(s: seq<bool>)
    ensures CountTrue(s) == 0 <==> forall i :: 0 <= i < |s| ==> !s[i]
  {
    if s != [] {
      CountTrueZero(s[..|s| - 1]);
      assert forall i :: 0 <= i < |s| - 1 ==> s[..|s| - 1][i] == s[i];
    }
  }

  // ---------------------------------------------------------------------------------------
  // The worklist
  // ---------------------------------------------------------------------------------------

  /**
   * A snapshot of the traversal state: the isLive and queued arrays, and the used part of the
   * queue array (queue[0 until top]), bottom first.
   */
  datatype Worklist = Worklist(live: seq<bool>, queued: seq<bool>, stack: seq<int>)

  /** Every target is an instruction index with its mark set. */
  predicate AllMarked(live: seq<bool>, targets: seq<int>)
  {
    forall e :: e in targets ==> 0 <= e < |live| && live[e]
  }

  /** Every edge out of instruction i leads to a marked instruction. */
  ghost predicate EdgesMarked(m: MethodNode, live: seq<bool>, i: int)
    requires 0 <= i < |m.instructions|
  {
    AllMarked(live, Edges(m, i))
  }

  /** Every target is an index into an array of length n. */
  predicate InRange(targets: seq<int>, n: int)
  {
    forall k :: 0 <= k < |targets| ==> 0 <= targets[k] < n
  }

  /** targets from last to first, the order of visitTableSwitchInsnNode's loop. */
  function Reversed(targets: seq<int>): (r: seq<int>)
    ensures |r| == |targets| && forall k :: 0 <= k < |r| ==> r[k] == targets[|targets| - 1 - k]
    ensures forall e :: e in r <==> e in targets
  {
    if targets == [] then [] else Reversed(targets[1..]) + [targets[0]]
  }

  /**
   * The part of the worklist invariant that keeps mergeControlFlowEdge inside the queue array:
   * the queue holds no more entries than there are live instructions, and only live
   * instructions are flagged as queued.
   */
  predicate Room(w: Worklist)
  {
    && |w.queued| == |w.live|
    && |w.stack| <= CountTrue(w.live)
    && forall i :: 0 <= i < |w.live| && w.queued[i] ==> w.live[i]
  }

  /**
   * The worklist invariant. The queue holds distinct live instructions, no more of them than
   * there are live instructions (so top stays within nInsns); every queued instruction is in
   * the queue; everything live is in reach; and every live instruction that has left the
   * queue, except the one being processed, has all its edges live.
   */
  ghost predicate WorklistInv(m: MethodNode, w: Worklist, except: int, reach: set<int>)
  {
    && |w.live| == |m.instructions|
    && Room(w)
    && (forall k :: 0 <= k < |w.stack| ==> 0 <= w.stack[k] < |w.live| && w.live[w.stack[k]])
    && (forall k1, k2 :: 0 <= k1 < k2 < |w.stack| ==> w.stack[k1] != w.stack[k2])
    && (forall i :: 0 <= i < |w.live| && w.queued[i] ==> i in w.stack)
    && (forall i :: 0 <= i < |w.live| && w.live[i] ==> i in reach)
    && (forall i {:trigger EdgesMarked(m, w.live, i)} ::
          0 <= i < |w.live| && w.live[i] && !w.queued[i] && i != except ==> EdgesMarked(m, w.live, i))
  }

  /**
   * mergeControlFlowEdge on a snapshot: mark j, and queue it when it was neither live nor
   * queued. An index outside the arrays changes nothing (the method fails on it instead).
   */
  function MergeEdge(w: Worklist, j: int): (r: Worklist)
    ensures 0 <= j < |w.live| == |w.queued| ==> r.live == w.live[j := true]
  {
    if !(0 <= j < |w.live| == |w.queued|) then w
    else if !w.live[j] && !w.queued[j] then Worklist(w.live[j := true], w.queued[j := true], w.stack + [j])
    else w.(live := w.live[j := true])
  }

  /** A merge keeps room in the queue. */
  lemma MergeEdgeKeepsRoom(w: Worklist, j: int)
    requires Room(w) && 0 <= j < |w.live|
    ensures Room(MergeEdge(w, j))
    ensures !w.live[j] ==> |w.stack| < |w.live|
  {
    CountTrueUpdate(w.live, j, true);
  }

  /** mergeControlFlowEdge for each of targets, in order. */
  function MergeAll(w: Worklist, targets: seq<int>): (r: Worklist)
    ensures |r.live| == |w.live|
    decreases |targets|
  {
    if targets == [] then w
    else MergeEdge(MergeAll(w, targets[..|targets| - 1]), targets[|targets| - 1])
  }

  /** Merging one more target after a sequence of them. */
  lemma MergeAllSnoc(w: Worklist, targets: seq<int>, j: int)
    ensures MergeAll(w, targets + [j]) == MergeEdge(MergeAll(w, targets), j)
  {
    assert (targets + [j])[..|targets|] == targets;
  }

  /** Merging no targets changes nothing. */
  lemma MergeAllNone(w: Worklist)
    ensures MergeAll(w, []) == w
  {
  }

  /** Merging a + b is merging a, then b. */
  lemma {:induction false} MergeAllConcat(w: Worklist, a: seq<int>, b: seq<int>)
    ensures MergeAll(w, a + b) == MergeAll(MergeAll(w, a), b)
    decreases |b|
  {
    if b != [] {
      var init := b[..|b| - 1];
      var last := b[|b| - 1];
      MergeAllConcat(w, a, init);
      assert (a + b)[..|a + b| - 1] == a + init;
    } else {
      assert a + b == a;
    }
  }

  /** One step of a loop over labels[..k], with head merged before the loop. */
  lemma MergePrefixStep(w: Worklist, head: seq<int>, labels: seq<int>, k: int)
    requires 0 <= k < |labels|
    ensures MergeAll(w, head + labels[..k + 1]) == MergeEdge(MergeAll(w, head + labels[..k]), labels[k])
  {
    assert head + labels[..k + 1] == head + labels[..k] + [labels[k]];
    MergeAllSnoc(w, head + labels[..k], labels[k]);
  }

  /** One step of a loop over labels from last to first, down to labels[k]. */
  lemma MergeReversedStep(w: Worklist, head: seq<int>, labels: seq<int>, k: int)
    requires 0 <= k < |labels|
    ensures MergeAll(w, head + Reversed(labels[k..])) == MergeEdge(MergeAll(w, head + Reversed(labels[k + 1..])), labels[k])
  {
    assert labels[k..][1..] == labels[k + 1..];
    assert head + Reversed(labels[k..]) == head + Reversed(labels[k + 1..]) + [labels[k]];
    MergeAllSnoc(w, head + Reversed(labels[k + 1..]), labels[k]);
  }

  /** The head of traverseCfg's loop on a snapshot: take the top entry off the queue. */
  function PopEntry(w: Worklist): Worklist
    requires |w.stack| > 0 && 0 <= w.stack[|w.stack| - 1] < |w.queued|
  {
    Worklist(w.live, w.queued[w.stack[|w.stack| - 1] := false], w.stack[..|w.stack| - 1])
  }

  /** Marks only get set, and the queue grows by exactly the number of instructions that became live. */
  ghost predicate Progressed(w0: Worklist, w1: Worklist)
  {
    && |w1.live| == |w0.live|
    && (forall i :: 0 <= i < |w0.live| && w0.live[i] ==> w1.live[i])
    && CountTrue(w0.live) <= CountTrue(w1.live)
    && |w1.stack| - CountTrue(w1.live) == |w0.stack| - CountTrue(w0.live)
  }

  lemma ProgressedTransitive(w0: Worklist, w1: Worklist, w2: Worklist)
    requires Progressed(w0, w1) && Progressed(w1, w2)
    ensures Progressed(w0, w2)
  {
  }

  /** Marks survive progress. */
  lemma ProgressedKeepsMarked(w0: Worklist, w1: Worklist, targets: seq<int>)
    requires Progressed(w0, w1) && AllMarked(w0.live, targets)
    ensures AllMarked(w1.live, targets)
  {
  }

  /**
   * Merging an edge to an instruction in reach keeps the worklist invariant: a newly live
   * instruction is queued once.
   */
  lemma MergeEdgeKeepsInv(m: MethodNode, w: Worklist, j: int, except: int, reach: set<int>)
    requires WorklistInv(m, w, except, reach) && 0 <= j < |w.live| && j in reach
    ensures WorklistInv(m, MergeEdge(w, j), except, reach) && Progressed(w, MergeEdge(w, j))
  {
    CountTrueUpdate(w.live, j, true);
    MergeEdgeKeepsRoom(w, j);
    var w1 := MergeEdge(w, j);
    if !w.live[j] {
      forall i | 0 <= i < |w.live| && w.live[i] && !w.queued[i] && i != except
        ensures EdgesMarked(m, w1.live, i)
      {
        assert EdgesMarked(m, w.live, i);
      }
    } else {
      assert w1.live == w.live;
    }
  }

  /**
   * Merging a sequence of edges to instructions in reach keeps the worklist invariant, and
   * leaves every one of them marked.
   */
  lemma {:induction false} MergeAllKeepsInv(m: MethodNode, w: Worklist, targets: seq<int>, except: int, reach: set<int>)
    requires WorklistInv(m, w, except, reach) && InRange(targets, |w.live|)
    requires forall k :: 0 <= k < |targets| ==> targets[k] in reach
    ensures WorklistInv(m, MergeAll(w, targets), except, reach)
    ensures Progressed(w, MergeAll(w, targets)) && AllMarked(MergeAll(w, targets).live, targets)
    decreases |targets|
  {
    if targets != [] {
      var init := targets[..|targets| - 1];
      var last := targets[|targets| - 1];
      MergeAllKeepsInv(m, w, init, except, reach);
      var v := MergeAll(w, init);
      MergeEdgeKeepsInv(m, v, last, except, reach);
      ProgressedTransitive(w, v, MergeEdge(v, last));
      ProgressedKeepsMarked(v, MergeEdge(v, last), init);
      assert targets == init + [last];
    }
  }

  /** Taking the top entry off the queue keeps the invariant, with that entry the one being processed. */
  lemma PopEntryKeepsInv(m: MethodNode, w: Worklist, reach: set<int>)
    requires WorklistInv(m, w, -1, reach) && |w.stack| > 0
    ensures 0 <= w.stack[|w.stack| - 1] < |w.live| && w.live[w.stack[|w.stack| - 1]]
    ensures WorklistInv(m, PopEntry(w), w.stack[|w.stack| - 1], reach)
  {
    var insn := w.stack[|w.stack| - 1];
    var w1 := PopEntry(w);
    assert w.stack == w1.stack + [insn];
    forall i | 0 <= i < |w.live| && w1.queued[i]
      ensures i in w1.stack
    {
      assert i != insn && w.queued[i];
    }
  }

  /** The body of traverseCfg's loop for instruction i on a snapshot: its successors, then its handlers. */
  function Visit(m: MethodNode, w: Worklist, i: int): Worklist
    requires 0 <= i < |m.instructions|
  {
    MergeAll(MergeAll(w, Successors(m, i)), HandlerLabels(Handlers(m.tryCatchBlocks, i)))
  }

  /**
   * Every edge out of a reachable instruction that does not fall off the end leads to an
   * instruction in reach.
   */
  lemma EdgesInReach(m: MethodNode, reach: set<int>, i: int)
    requires WellIndexed(m) && IsReachableSet(m, reach) && 0 <= i < |m.instructions| && i in reach
    requires !(i == |m.instructions| - 1 && FallsThrough(m.instructions[i]))
    ensures InRange(Edges(m, i), |m.instructions|)
    ensures forall k :: 0 <= k < |Edges(m, i)| ==> Edges(m, i)[k] in reach
  {
    EdgesInRange(m, i);
    EdgesFromReachable(m, reach, i);
  }

  /**
   * Visiting the instruction being processed, when its edges all lead to instructions in
   * reach, restores the full invariant: all its edges are now live.
   */
  lemma VisitKeepsInv(m: MethodNode, w: Worklist, i: int, reach: set<int>)
    requires 0 <= i < |m.instructions| && WorklistInv(m, w, i, reach)
    requires InRange(Edges(m, i), |m.instructions|)
    requires forall k :: 0 <= k < |Edges(m, i)| ==> Edges(m, i)[k] in reach
    ensures WorklistInv(m, Visit(m, w, i), -1, reach) && Progressed(w, Visit(m, w, i))
  {
    MergeAllConcat(w, Successors(m, i), HandlerLabels(Handlers(m.tryCatchBlocks, i)));
    MergeAllKeepsInv(m, w, Edges(m, i), i, reach);
    assert EdgesMarked(m, Visit(m, w, i).live, i);
  }

  /** The last instruction falling through has an edge past the end. */
  lemma FallThroughIsEdge(m: MethodNode, i: int)
    requires 0 <= i < |m.instructions| && FallsThrough(m.instructions[i])
    ensures i + 1 in Edges(m, i)
  {
    SuccessorsCover(m, i, i + 1);
  }

  /** With the queue empty, every live instruction has all its edges live. */
  lemma EmptyQueueClosed(m: MethodNode, w: Worklist, reach: set<int>)
    requires WorklistInv(m, w, -1, reach) && w.stack == []
    ensures forall i :: 0 <= i < |w.live| && w.live[i] ==> EdgesMarked(m, w.live, i)
  {
  }

  // ---------------------------------------------------------------------------------------
  // The analyzer
  // ---------------------------------------------------------------------------------------

  class InstructionLivenessAnalyzer {
    const methodNode: MethodNode
    const nInsns: int
    const isLive: array<bool>
    const handlers: array<seq<TryCatchBlock>>
    const queued: array<bool>
    const queue: array<int>
    var top: int
    /** The instructions reachable from the first one. */
    ghost const reachable: set<int>

    ghost predicate Valid()
      reads this
    {
      WellIndexed(methodNode) && Arrays()
    }

    /** One slot per instruction in every array, and isLive and queued kept apart. */
    ghost predicate Arrays()
      reads this
    {
      && nInsns == |methodNode.instructions|
      && 0 <= top <= nInsns
      && isLive.Length == nInsns && queued.Length == nInsns && queue.Length == nInsns && handlers.Length == nInsns
      && isLive != queued
    }

    /** The state right after construction: nothing live, nothing queued, no handlers listed. */
    ghost predicate Initial()
      reads this, isLive, queued, handlers
      requires Valid()
    {
      && IsReachableSet(methodNode, reachable)
      && Unmarked()
      && forall i :: 0 <= i < nInsns ==> handlers[i] == []
    }

    /** Nothing live, nothing queued. */
    ghost predicate Unmarked()
      reads this, isLive, queued
      requires Valid()
    {
      top == 0 && forall i :: 0 <= i < nInsns ==> !isLive[i] && !queued[i]
    }

    /** computeExceptionHandlersForEachInsn has run. */
    ghost predicate HandlersComputed()
      reads this, handlers
      requires Valid()
    {
      forall j :: 0 <= j < nInsns ==> handlers[j] == Handlers(methodNode.tryCatchBlocks, j)
    }

    ghost function State(): Worklist
      reads this, isLive, queued, queue
      requires Arrays()
    {
      Worklist(isLive[..], queued[..], queue[..top])
    }

    ghost predicate Inv(except: int)
      reads this, isLive, queued, queue
    {
      Valid() && WorklistInv(methodNode, State(), except, reachable)
    }

    constructor(m: MethodNode)
      requires WellIndexed(m)
      ensures methodNode == m && Valid() && Initial()
      ensures fresh(isLive) && fresh(handlers) && fresh(queued) && fresh(queue)
    {
      methodNode := m;
      nInsns := |m.instructions|;
      isLive := new bool[|m.instructions|](_ => false);
      handlers := new seq<TryCatchBlock>[|m.instructions|](_ => []);
      queued := new bool[|m.instructions|](_ => false);
      queue := new int[|m.instructions|](_ => 0);
      top := 0;
      reachable := set i | 0 <= i < |m.instructions| && Reachable(m, i);
    }

    /**
     * analyze: an empty method has nothing to analyze; subroutines are refused; otherwise
     * the result marks exactly the instructions reachable from the first one, plus the labels
     * of local variables and try-catch blocks, unless the last instruction is reachable and
     * falls through past the end.
     */
    method Analyze() returns (r: Result<array<bool>, AnalyzerError>)
      requires Valid() && Initial()
      modifies this`top, isLive, handlers, queued, queue
      ensures nInsns == 0 ==> r == Ok(isLive)
      ensures r.Err? && r.error == SubroutinesDeprecated <==>
        nInsns > 0 && CheckAssertions(methodNode.instructions).Fail?
      ensures r.Err? && r.error == FallsOffEnd <==>
        && nInsns > 0 && CheckAssertions(methodNode.instructions).Pass?
        && Reachable(methodNode, nInsns - 1) && nInsns in Edges(methodNode, nInsns - 1)
      ensures r.Ok? ==>
        && r.value == isLive
        && forall i :: 0 <= i < nInsns ==> (isLive[i] <==> Reachable(methodNode, i) || AlwaysLive(methodNode, i))
    {
      if nInsns == 0 {
        return Ok(isLive);
      }
      var check := CheckAssertions(methodNode.instructions);
      if check.Fail? {
        return Err(check.error);
      }
      ComputeExceptionHandlersForEachInsn();
      InitControlFlowAnalysis();
      var o := TraverseCfg();
      if o.Fail? {
        return Err(o.error);
      }
      ghost var traversed := isLive[..];
      LocalVariableAndTryCatchBlockLabelsAreAlwaysLive();
      if Reachable(methodNode, nInsns - 1) {
        assert traversed[nInsns - 1];
      }
      return Ok(isLive);
    }

    /** computeExceptionHandlersForEachInsn: list, for every instruction, the blocks covering it. */
    method ComputeExceptionHandlersForEachInsn()
      requires Valid() && forall j :: 0 <= j < nInsns ==> handlers[j] == []
      modifies handlers
      ensures HandlersComputed()
    {
      var tcbs := methodNode.tryCatchBlocks;
      for t := 0 to |tcbs|
        invariant forall j :: 0 <= j < nInsns ==> handlers[j] == Handlers(tcbs[..t], j)
      {
        var tcb := tcbs[t];
        assert tcb in tcbs;
        var begin, end := tcb.start, tcb.end;
        var j := begin;
        while j < end
          invariant j == begin || begin < j <= end
          invariant forall x :: 0 <= x < nInsns ==>
            handlers[x] == Handlers(tcbs[..t], x) + (if begin <= x < j then [tcb] else [])
        {
          handlers[j] := handlers[j] + [tcb];
          j := j + 1;
        }
        assert tcbs[..t + 1][..t] == tcbs[..t];
        forall x | 0 <= x < nInsns
          ensures handlers[x] == Handlers(tcbs[..t + 1], x)
        {
          assert Handlers(tcbs[..t + 1], x) == Handlers(tcbs[..t], x) + (if Covers(tcb, x) then [tcb] else []);
        }
      }
      assert tcbs[..|tcbs|] == tcbs;
    }

    /** initControlFlowAnalysis: instruction 0 is live. */
    method InitControlFlowAnalysis()
      requires Valid() && Unmarked() && IsReachableSet(methodNode, reachable) && nInsns > 0
      modifies this`top, isLive, queued, queue
      ensures Inv(-1) && isLive[0]
    {
      FirstReachable(methodNode);
      ghost var w := State();
      MergeEdgeKeepsInv(methodNode, w, 0, -1, reachable);
      var o := MergeControlFlowEdge(0);
    }

    /**
     * traverseCfg: pop an instruction and mark what follows it, until the queue is empty. It
     * fails, as the array access in the source does, when the last instruction falls through.
     */
    method TraverseCfg() returns (o: Outcome<AnalyzerError>)
      requires Inv(-1) && HandlersComputed() && IsReachableSet(methodNode, reachable) && nInsns > 0 && isLive[0]
      modifies this`top, isLive, queued, queue
      ensures Valid()
      ensures o.Pass? ==> forall i :: 0 <= i < nInsns ==> (isLive[i] <==> Reachable(methodNode, i))
      ensures o.Pass? ==> forall i :: 0 <= i < nInsns && isLive[i] ==> EdgesMarked(methodNode, isLive[..], i)
      ensures o.Fail? ==> o.error == FallsOffEnd && Reachable(methodNode, nInsns - 1) && nInsns in Edges(methodNode, nInsns - 1)
    {
      o := Pass;
      while top > 0
        invariant Inv(-1) && isLive[0] && o.Pass?
        decreases nInsns - CountTrue(isLive[..]), top
      {
        var insn := Pop();
        o := VisitInsn(insn);
        if o.Fail? {
          return;
        }
      }
      EmptyQueueClosed(methodNode, State(), reachable);
      LeastClosedMarking(methodNode, isLive[..]);
    }

    /** `val insn = queue[--top]; queued[insn] = false` */
    method Pop() returns (insn: int)
      requires Inv(-1) && top > 0
      modifies this`top, queued
      ensures Inv(insn) && 0 <= insn < nInsns && isLive[insn] && insn in reachable
      ensures State() == PopEntry(old(State()))
    {
      ghost var w := State();
      PopEntryKeepsInv(methodNode, w, reachable);
      top := top - 1;
      insn := queue[top];
      queued[insn] := false;
      assert State() == PopEntry(w);
      assert w.live[insn];
    }

    /**
     * The body of traverseCfg for one instruction: its successors by its kind, then the
     * handlers of the blocks covering it. Afterwards every edge out of it is live, unless it
     * is the last instruction and falls through, which fails.
     */
    method VisitInsn(insn: int) returns (o: Outcome<AnalyzerError>)
      requires Inv(insn) && HandlersComputed() && IsReachableSet(methodNode, reachable) && 0 <= insn < nInsns && insn in reachable
      modifies this`top, isLive, queued, queue
      ensures Valid()
      ensures o.Pass? ==> State() == Visit(methodNode, old(State()), insn)
      ensures o.Pass? ==> Inv(-1) && Progressed(old(State()), State())
      ensures o.Fail? ==> o.error == FallsOffEnd && Reachable(methodNode, nInsns - 1) && nInsns in Edges(methodNode, nInsns - 1)
    {
      ghost var w := State();
      EdgesInRange(methodNode, insn);
      o := VisitSuccessors(insn);
      if o.Fail? {
        FallThroughIsEdge(methodNode, insn);
        return;
      }
      o := MergeHandlers(insn);
      EdgesInReach(methodNode, reachable, insn);
      VisitKeepsInv(methodNode, w, insn, reachable);
    }

    /**
     * The successors of one instruction, by its kind (the `when` of traverseCfg), merged in
     * the order the visit methods take them. Only a fall-through past the last instruction
     * fails, and then nothing has been merged.
     */
    method VisitSuccessors(insn: int) returns (o: Outcome<AnalyzerError>)
      requires WellIndexed(methodNode) && Arrays() && Room(State()) && 0 <= insn < nInsns
      modifies this`top, isLive, queued, queue
      ensures Arrays() && Room(State())
      ensures o.Fail? <==> insn == nInsns - 1 && FallsThrough(methodNode.instructions[insn])
      ensures o.Pass? ==> State() == MergeAll(old(State()), Successors(methodNode, insn))
      ensures o.Fail? ==> o.error == FallsOffEnd && State() == old(State())
    {
      var node := methodNode.instructions[insn];
      assert InsnIndexed(node, nInsns);
      ghost var succ := Successors(methodNode, insn);
      match node
      case PseudoInsn =>
        assert succ == [insn + 1];
        o := VisitOpInsn(insn);
      case JumpInsn(opcode, target) =>
        assert succ == (if opcode != GOTO && opcode != JSR then [insn + 1] else []) + [target];
        o := VisitJumpInsnNode(target, insn, opcode);
      case LookupSwitchInsn(dflt, labels) =>
        assert succ == [dflt] + labels;
        o := VisitLookupSwitchInsnNode(dflt, labels);
      case TableSwitchInsn(dflt, labels) =>
        assert succ == [dflt] + Reversed(labels);
        o := VisitTableSwitchInsnNode(dflt, labels);
      case OtherInsn(opcode) =>
        if opcode != ATHROW && (opcode < IRETURN || opcode > RETURN) {
          assert succ == [insn + 1];
          o := VisitOpInsn(insn);
        } else {
          assert succ == [];
          o := Pass;
          MergeAllNone(State());
        }
    }

    /** handlers[insn]?.forEach { mergeControlFlowEdge(it.handler) } */
    method MergeHandlers(insn: int) returns (o: Outcome<AnalyzerError>)
      requires Arrays() && Room(State()) && 0 <= insn < nInsns
      requires InRange(HandlerLabels(handlers[insn]), nInsns)
      modifies this`top, isLive, queued, queue
      ensures Arrays() && Room(State()) && o.Pass?
      ensures State() == MergeAll(old(State()), HandlerLabels(handlers[insn]))
    {
      ghost var w0 := State();
      var hs := handlers[insn];
      ghost var labels := HandlerLabels(hs);
      o := Pass;
      for k := 0 to |hs|
        invariant Arrays() && Room(State()) && o.Pass?
        invariant State() == MergeAll(w0, [] + labels[..k])
      {
        assert labels[k] == hs[k].handler;
        MergePrefixStep(w0, [], labels, k);
        o := MergeControlFlowEdge(hs[k].handler);
      }
      assert [] + labels[..|hs|] == labels;
    }

    /** visitOpInsn: the next instruction. */
    method VisitOpInsn(insn: int) returns (o: Outcome<AnalyzerError>)
      requires Arrays() && Room(State()) && 0 <= insn < nInsns
      modifies this`top, isLive, queued, queue
      ensures Arrays() && Room(State())
      ensures o.Pass? <==> insn + 1 < nInsns
      ensures o.Pass? ==> State() == MergeAll(old(State()), [insn + 1])
      ensures o.Fail? ==> o.error == FallsOffEnd && State() == old(State())
    {
      ghost var w0 := State();
      o := ProcessControlFlowEdge(insn + 1);
      if o.Pass? {
        MergeAllSnoc(w0, [], insn + 1);
      }
    }

    /** visitTableSwitchInsnNode: the default, then the labels from last to first. */
    method VisitTableSwitchInsnNode(dflt: int, labels: seq<int>) returns (o: Outcome<AnalyzerError>)
      requires Arrays() && Room(State()) && 0 <= dflt < nInsns && InRange(labels, nInsns)
      modifies this`top, isLive, queued, queue
      ensures Arrays() && Room(State()) && o.Pass?
      ensures State() == MergeAll(old(State()), [dflt] + Reversed(labels))
    {
      ghost var w0 := State();
      var jump := dflt;
      o := ProcessControlFlowEdge(jump);
      MergeAllSnoc(w0, [], dflt);
      var k := |labels|;
      while k > 0
        invariant 0 <= k <= |labels|
        invariant Arrays() && Room(State()) && o.Pass?
        invariant State() == MergeAll(w0, [dflt] + Reversed(labels[k..]))
      {
        k := k - 1;
        jump := labels[k];
        MergeReversedStep(w0, [dflt], labels, k);
        o := ProcessControlFlowEdge(jump);
      }
    }

    /** visitLookupSwitchInsnNode: the default, then the labels in order. */
    method VisitLookupSwitchInsnNode(dflt: int, labels: seq<int>) returns (o: Outcome<AnalyzerError>)
      requires Arrays() && Room(State()) && 0 <= dflt < nInsns && InRange(labels, nInsns)
      modifies this`top, isLive, queued, queue
      ensures Arrays() && Room(State()) && o.Pass?
      ensures State() == MergeAll(old(State()), [dflt] + labels)
    {
      ghost var w0 := State();
      var jump := dflt;
      o := ProcessControlFlowEdge(jump);
      MergeAllSnoc(w0, [], dflt);
      var k := 0;
      while k < |labels|
        invariant 0 <= k <= |labels|
        invariant Arrays() && Room(State()) && o.Pass?
        invariant State() == MergeAll(w0, [dflt] + labels[..k])
      {
        jump := labels[k];
        MergePrefixStep(w0, [dflt], labels, k);
        o := ProcessControlFlowEdge(jump);
        k := k + 1;
      }
      assert labels[..k] == labels;
    }

    /** visitJumpInsnNode: the next instruction unless the jump is GOTO or JSR, then the target label. */
    method VisitJumpInsnNode(target: int, insn: int, insnOpcode: int) returns (o: Outcome<AnalyzerError>)
      requires Arrays() && Room(State()) && 0 <= insn < nInsns && 0 <= target < nInsns
      modifies this`top, isLive, queued, queue
      ensures Arrays() && Room(State())
      ensures o.Pass? <==> insnOpcode == GOTO || insnOpcode == JSR || insn + 1 < nInsns
      ensures o.Pass? ==> State() == MergeAll(old(State()), (if insnOpcode != GOTO && insnOpcode != JSR then [insn + 1] else []) + [target])
      ensures o.Fail? ==> o.error == FallsOffEnd && State() == old(State())
    {
      ghost var w0 := State();
      ghost var fallThrough: seq<int> := [];
      if insnOpcode != GOTO && insnOpcode != JSR {
        o := ProcessControlFlowEdge(insn + 1);
        if o.Fail? {
          return;
        }
        fallThrough := [insn + 1];
        MergeAllSnoc(w0, [], insn + 1);
      }
      var jump := target;
      MergeAllSnoc(w0, fallThrough, target);
      o := ProcessControlFlowEdge(jump);
    }

    /** processControlFlowEdge: an edge to jump. */
    method ProcessControlFlowEdge(jump: int) returns (o: Outcome<AnalyzerError>)
      requires Arrays() && Room(State()) && 0 <= jump
      modifies this`top, isLive, queued, queue
      ensures Arrays() && Room(State())
      ensures o.Pass? <==> jump < nInsns
      ensures o.Pass? ==> State() == MergeEdge(old(State()), jump)
      ensures o.Fail? ==> o.error == FallsOffEnd && State() == old(State())
    {
      o := MergeControlFlowEdge(jump);
    }

    /**
     * mergeControlFlowEdge: mark insn live, and queue it if it was not live before. An index
     * past the end of the arrays is the failure of the array access.
     */
    method MergeControlFlowEdge(insn: int) returns (o: Outcome<AnalyzerError>)
      requires Arrays() && Room(State()) && 0 <= insn
      modifies this`top, isLive, queued, queue
      ensures Arrays() && Room(State())
      ensures o.Pass? <==> insn < nInsns
      ensures o.Pass? ==> State() == MergeEdge(old(State()), insn)
      ensures o.Fail? ==> o.error == FallsOffEnd && State() == old(State())
    {
      if insn >= isLive.Length {
        return Fail(FallsOffEnd);
      }
      ghost var w := State();
      ghost var w1 := MergeEdge(w, insn);
      MergeEdgeKeepsRoom(w, insn);
      var changes := !isLive[insn];
      isLive[insn] := true;
      if changes && !queued[insn] {
        queued[insn] := true;
        queue[top] := insn;
        top := top + 1;
      }
      o := Pass;
      assert State() == w1;
    }

    /** localVariableAndTryCatchBlockLabelsAreAlwaysLive */
    method LocalVariableAndTryCatchBlockLabelsAreAlwaysLive()
      requires Valid()
      modifies isLive
      ensures forall i :: 0 <= i < nInsns ==> isLive[i] == (old(isLive[i]) || AlwaysLive(methodNode, i))
    {
      var vs := methodNode.localVariables;
      for k := 0 to |vs|
        invariant forall i :: 0 <= i < nInsns ==> isLive[i] == (old(isLive[i]) || IsLocalVariableLabel(vs[..k], i))
      {
        assert vs[k] in vs;
        isLive[vs[k].start] := true;
        isLive[vs[k].end] := true;
        assert vs[..k + 1][..k] == vs[..k];
      }
      assert vs[..|vs|] == vs;
      ghost var afterLocals := isLive[..];
      var ts := methodNode.tryCatchBlocks;
      for k := 0 to |ts|
        invariant forall i :: 0 <= i < nInsns ==> isLive[i] == (afterLocals[i] || IsTryCatchBlockLabel(ts[..k], i))
      {
        assert ts[k] in ts;
        isLive[ts[k].start] := true;
        isLive[ts[k].end] := true;
        isLive[ts[k].handler] := true;
        assert ts[..k + 1][..k] == ts[..k];
      }
      assert ts[..|ts|] == ts;
    }
  }
}
