// speakeasy/windows/seh64.py: __C_specific_handler, the language handler of MSVC __try blocks on x64.

module CSpecificHandler {
  import opened Options
  import opened Seh

  const EXCEPTION_EXECUTE_HANDLER: nat := 1

  // A SCOPE_TABLE record. handler is a filter, or a __finally block if target is 0.
  datatype Scope = Scope(begin: nat, end: nat, handler: nat, target: nat)

  predicate Covers(s: Scope, pc: int) {
    s.begin <= pc < s.end
  }

  // A compiler can split one __try block into several records with the same handler and target.
  predicate SameBlock(s: Scope, t: Scope) {
    s.handler == t.handler && s.target == t.target
  }

  predicate InBlock(scopes: seq<Scope>, s: Scope, pc: int) {
    exists t :: t in scopes && SameBlock(t, s) && Covers(t, pc)
  }

  // -- Phase one: filters

  datatype Verdict = ContinueSearch | ContinueExecution | Execute(scope: nat)

  predicate HasFilter(s: Scope, pc: int) {
    Covers(s, pc) && s.target != 0
  }

  // The verdict of scope i, where value is what its filter returns if it is called.
  function FilterVerdict(s: Scope, value: int): int {
    if s.handler == EXCEPTION_EXECUTE_HANDLER then 1 else AsLong(value)
  }

  // The first scope from i on whose filter decides. values gives the return value of the filter of each scope.
  function Search(scopes: seq<Scope>, pc: int, values: nat -> int, i: nat): (v: Verdict)
    ensures v.Execute? ==> i <= v.scope < |scopes| && HasFilter(scopes[v.scope], pc)
                           && FilterVerdict(scopes[v.scope], values(v.scope)) > 0
    ensures v.Execute? ==>
      forall j :: i <= j < v.scope && HasFilter(scopes[j], pc) ==> FilterVerdict(scopes[j], values(j)) == 0
    ensures v.ContinueSearch? <==>
              forall j :: i <= j < |scopes| && HasFilter(scopes[j], pc) ==> FilterVerdict(scopes[j], values(j)) == 0
    decreases |scopes| - i
  {
    if i >= |scopes| then ContinueSearch
    else if !HasFilter(scopes[i], pc) then Search(scopes, pc, values, i + 1)
    else
      var verdict := FilterVerdict(scopes[i], values(i));
      if verdict < 0 then ContinueExecution
      else if verdict > 0 then Execute(i)
      else Search(scopes, pc, values, i + 1)
  }

  // -- Phase two: __finally blocks

  // The __finally blocks that an unwind runs from scope i on. In the target frame it stops at a block that also
  // contains the target.
  function Finallys(scopes: seq<Scope>, pc: int, targetPc: int, targetUnwind: bool, i: nat): (runs: seq<nat>)
    ensures forall k :: 0 <= k < |runs| ==> i <= runs[k] < |scopes|
    decreases |scopes| - i
  {
    if i >= |scopes| then []
    else if !Covers(scopes[i], pc) then Finallys(scopes, pc, targetPc, targetUnwind, i + 1)
    else if targetUnwind && InBlock(scopes, scopes[i], targetPc) then []
    else if scopes[i].target == 0 then [i] + Finallys(scopes, pc, targetPc, targetUnwind, i + 1)
    else Finallys(scopes, pc, targetPc, targetUnwind, i + 1)
  }

  // Inner blocks come first: of two records that cover pc, the block of the later one contains that of the earlier.
  ghost predicate InnerFirst(scopes: seq<Scope>, pc: int) {
    forall i, j, q ::
      0 <= i < j < |scopes| && Covers(scopes[i], pc) && Covers(scopes[j], pc) && InBlock(scopes, scopes[i], q)
      ==> InBlock(scopes, scopes[j], q)
  }

  // Block j is left by the unwind.
  predicate Leaves(scopes: seq<Scope>, pc: int, targetPc: int, targetUnwind: bool, j: nat) {
    && j < |scopes| && Covers(scopes[j], pc) && scopes[j].target == 0
    && !(targetUnwind && InBlock(scopes, scopes[j], targetPc))
  }

  predicate Increasing(s: seq<nat>) {
    forall i, j :: 0 <= i < j < |s| ==> s[i] < s[j]
  }

  // The blocks run are exactly those that cover pc and that the unwind leaves, each once, inner first.
  lemma {:induction false} FinallysExact(scopes: seq<Scope>, pc: int, targetPc: int, targetUnwind: bool, i: nat)
    requires targetUnwind ==> InnerFirst(scopes, pc)
    ensures var runs := Finallys(scopes, pc, targetPc, targetUnwind, i);
            Increasing(runs) && forall j :: j in runs <==> i <= j && Leaves(scopes, pc, targetPc, targetUnwind, j)
    decreases |scopes| - i
  {
    if i < |scopes| {
      FinallysExact(scopes, pc, targetPc, targetUnwind, i + 1);
      hide InBlock;
    }
  }

  // Where the two phases meet: the search chose scope i, and its __except block is outside of its own __try block.
  // The unwind to it runs every __finally inside scope i, and no __finally that still holds at the __except block.
  lemma TwoPhases(scopes: seq<Scope>, pc: int, values: nat -> int, i: nat)
    requires InnerFirst(scopes, pc)
    requires Search(scopes, pc, values, 0) == Execute(i)
    requires !InBlock(scopes, scopes[i], scopes[i].target)
    ensures var runs := Finallys(scopes, pc, scopes[i].target, true, 0);
            && Increasing(runs)
            && (forall j :: 0 <= j < i && Covers(scopes[j], pc) && scopes[j].target == 0 ==> j in runs)
            && (forall j :: j in runs ==> j < |scopes| && !InBlock(scopes, scopes[j], scopes[i].target))
            && (forall j :: i < j < |scopes| && Covers(scopes[j], pc) && scopes[j].target == 0 && j !in runs ==>
                  InBlock(scopes, scopes[j], scopes[i].target))
  {
    FinallysExact(scopes, pc, scopes[i].target, true, 0);
    hide InBlock;
  }

  // A handler that is called with the saved scope index runs the rest of the blocks.
  lemma {:induction false} FinallysResume(
    scopes: seq<Scope>, pc: int, targetPc: int, targetUnwind: bool, i: nat, n: nat)
    requires n < |Finallys(scopes, pc, targetPc, targetUnwind, i)|
    ensures var runs := Finallys(scopes, pc, targetPc, targetUnwind, i);
            Finallys(scopes, pc, targetPc, targetUnwind, runs[n] + 1) == runs[n + 1..]
    decreases |scopes| - i
  {
    hide InBlock, Covers;
    var runs := Finallys(scopes, pc, targetPc, targetUnwind, i);
    var rest := Finallys(scopes, pc, targetPc, targetUnwind, i + 1);
    if runs == rest {
      FinallysResume(scopes, pc, targetPc, targetUnwind, i + 1, n);
    } else if n > 0 {
      FinallysResume(scopes, pc, targetPc, targetUnwind, i + 1, n - 1);
    }
  }

  // But each unwind gives the handler a new DISPATCHER_CONTEXT, with scope index 0. So when block n of an unwind
  // raises an exception, and a later unwind comes through the frame at the same pc, the block runs again. It does not
  // exactly when the later unwind goes to a target in this frame that the block contains.
  lemma RaisingBlockRunsAgain(
    scopes: seq<Scope>, pc: int, targetPc: int, targetUnwind: bool, n: nat, laterPc: int, laterUnwind: bool)
    requires targetUnwind || laterUnwind ==> InnerFirst(scopes, pc)
    requires n < |Finallys(scopes, pc, targetPc, targetUnwind, 0)|
    ensures var block := Finallys(scopes, pc, targetPc, targetUnwind, 0)[n];
            block in Finallys(scopes, pc, laterPc, laterUnwind, 0) <==>
              !(laterUnwind && InBlock(scopes, scopes[block], laterPc))
  {
    hide InBlock, Covers, InnerFirst;
    var first := Finallys(scopes, pc, targetPc, targetUnwind, 0);
    FinallysExact(scopes, pc, targetPc, targetUnwind, 0);
    FinallysExact(scopes, pc, laterPc, laterUnwind, 0);
    assert first[n] in first;
  }

  // A frame with one __finally block, which raises: an unwind through the frame, and then another
  lemma BlockRunsTwice()
    ensures var scopes := [Scope(0, 10, 100, 0)];
            Finallys(scopes, 5, 50, false, 0) == [0] && Finallys(scopes, 5, 60, false, 0) == [0]
  {
    var scopes := [Scope(0, 10, 100, 0)];
    assert Finallys(scopes, 5, 50, false, 1) == [] && Finallys(scopes, 5, 60, false, 1) == [];
  }

  // The DISPATCHER_CONTEXT of a frame, with the scope index that its handler saves before each guest call.
  class DispatcherContext {
    const scopes: seq<Scope>
    const pc: int
    const targetPc: int
    var scopeIndex: nat

    constructor (scopes: seq<Scope>, pc: int, targetPc: int)
      ensures this.scopes == scopes && this.pc == pc && this.targetPc == targetPc && scopeIndex == 0
    {
      this.scopes, this.pc, this.targetPc, scopeIndex := scopes, pc, targetPc, 0;
    }

    // Run the handler in phase two up to its next guest call, or to its end. The saved index is past the block before
    // the call, also if the call never returns.
    method NextFinally(targetUnwind: bool) returns (block: Option<nat>)
      modifies this
      ensures block.None? ==> Finallys(scopes, pc, targetPc, targetUnwind, old(scopeIndex)) == []
                              && scopeIndex == old(scopeIndex)
      ensures block.Some? ==> scopeIndex == block.value + 1
                              && Finallys(scopes, pc, targetPc, targetUnwind, old(scopeIndex))
                                 == [block.value] + Finallys(scopes, pc, targetPc, targetUnwind, scopeIndex)
    {
      hide InBlock, Covers;
      var index := scopeIndex;
      while index < |scopes|
        invariant scopeIndex == old(scopeIndex)
        invariant Finallys(scopes, pc, targetPc, targetUnwind, scopeIndex)
               == Finallys(scopes, pc, targetPc, targetUnwind, index)
      {
        var s := scopes[index];
        if !Covers(s, pc) {
          index := index + 1;
          continue;
        }
        if targetUnwind && InBlock(scopes, s, targetPc) {
          break;
        }
        if s.target == 0 {
          scopeIndex := index + 1;
          return Some(index);
        }
        index := index + 1;
      }
      return None;
    }

    // The search phase, from the saved scope index.
    method SearchScopes(values: nat -> int) returns (v: Verdict)
      ensures v == Search(scopes, pc, values, scopeIndex)
    {
      var index := scopeIndex;
      while index < |scopes|
        invariant Search(scopes, pc, values, scopeIndex) == Search(scopes, pc, values, index)
      {
        var s := scopes[index];
        if !(Covers(s, pc) && s.target != 0) {
          index := index + 1;
          continue;
        }
        var verdict := if s.handler == EXCEPTION_EXECUTE_HANDLER then 1 else AsLong(values(index));
        if verdict < 0 {
          return ContinueExecution;
        }
        if verdict > 0 {
          return Execute(index);
        }
        index := index + 1;
      }
      return ContinueSearch;
    }
  }
}
