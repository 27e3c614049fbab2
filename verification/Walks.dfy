/** Walks through a function, and which registers and spill cells a walk leaves written. */
module Walks {
  import opened Support
  import opened ForeignIr
  import opened UseIndex
  import opened Dataflow
  import opened Semantics

  // ---- Walks ----

  datatype Place = Place(block: nat, index: nat)

  function PlaceOf(s: State): Place {
    Place(s.block, s.index)
  }

  predicate HasPlace(f: Function, p: Place) {
    p.block < |f.blocks| && p.index < |f.blocks[p.block].insts|
  }

  function InstAt(f: Function, p: Place): Inst
    requires HasPlace(f, p)
  {
    f.blocks[p.block].insts[p.index]
  }

  /** Control may go from one place to the other in one step. */
  ghost predicate Goes(f: Function, p: Place, q: Place) {
    var s := State(p.block, p.index, map[], map[], {}, 0);
    if HasInst(f, s) then AllowedJump(f, s, q.block, q.index) else InBounds(f, s) && q.block < |f.blocks| && q.index == 0
  }

  ghost predicate GoesOn(f: Function, w: seq<Place>, i: nat)
    requires i + 1 < |w|
  {
    Goes(f, w[i], w[i + 1])
  }

  /** A walk from the entry; the last place has been reached but not executed. */
  ghost predicate Walk(f: Function, w: seq<Place>) {
    && f.blocks != [] && w != [] && w[0] == Place(0, 0)
    && forall i :: 0 <= i < |w| - 1 ==> GoesOn(f, w, i)
  }

  predicate At(f: Function, w: seq<Place>, inst: Inst) {
    w != [] && HasPlace(f, w[|w| - 1]) && InstAt(f, w[|w| - 1]) == inst
  }

  /** The walk stands before this instruction. */
  ghost predicate WalkTo(f: Function, w: seq<Place>, inst: Inst) {
    Walk(f, w) && At(f, w, inst)
  }

  lemma WalkPrefix(f: Function, w: seq<Place>, n: nat)
    requires Walk(f, w) && 0 < n <= |w|
    ensures Walk(f, w[..n])
  {
    forall i | 0 <= i < n - 1 ensures GoesOn(f, w[..n], i) {
      assert GoesOn(f, w, i);
    }
  }

  /** A walk may go on as another walk did from the same place. */
  lemma WalkSplice(f: Function, w: seq<Place>, v: seq<Place>, i: nat)
    requires Walk(f, w) && Walk(f, v) && i < |v| && w[|w| - 1] == v[i]
    ensures Walk(f, w + v[i + 1..])
  {
    var u := w + v[i + 1..];
    forall j | 0 <= j < |u| - 1 ensures GoesOn(f, u, j) {
      if j < |w| - 1 {
        assert GoesOn(f, w, j);
      } else {
        assert u[j] == v[i + 1 + j - |w|] && u[j + 1] == v[i + 1 + j - |w| + 1];
        assert GoesOn(f, v, i + 1 + j - |w|);
      }
    }
  }

  // ---- Walks are the traces of runs ----

  function Trace(r: Run, k: nat): seq<Place>
    requires k < |r.states|
  {
    seq(k + 1, i requires 0 <= i <= k => PlaceOf(r.states[i]))
  }

  lemma StepGoes(f: Function, s: State, c: Choice, t: State)
    requires Step(f, s, c, t)
    ensures Goes(f, PlaceOf(s), PlaceOf(t))
  {
  }

  lemma TraceIsWalk(f: Function, r: Run, k: nat)
    requires IsRun(f, r) && k < |r.states|
    ensures Walk(f, Trace(r, k))
  {
    RunStarts(f, r);
    forall i | 0 <= i < k ensures GoesOn(f, Trace(r, k), i) {
      RunSteps(f, r, i);
      StepGoes(f, r.states[i], r.choices[i], r.states[i + 1]);
    }
  }

  /** The run a walk is taken in when the environment always answers with null. */
  lemma {:induction false} WalkIsTrace(f: Function, w: seq<Place>) returns (r: Run)
    requires Walk(f, w)
    ensures IsRun(f, r) && |r.states| == |w| && Trace(r, |w| - 1) == w
    ensures forall index: nat :: TokenFree(f, r, index)
  {
    if |w| == 1 {
      r := Run([Initial(f)], []);
      assert RunsTo(f, r, 0);
    } else {
      var last := |w| - 1;
      WalkPrefix(f, w, last);
      var before := WalkIsTrace(f, w[..last]);
      assert GoesOn(f, w, last - 1);
      r := OneStepOn(f, before, w[last]);
      assert Trace(r, last) == w by {
        forall i | 0 <= i < |w| ensures Trace(r, last)[i] == w[i] {
          if i < last { assert Trace(before, last - 1)[i] == w[..last][i]; }
        }
      }
    }
  }

  lemma OneStepOn(f: Function, r: Run, q: Place) returns (next: Run)
    requires IsRun(f, r) && Goes(f, PlaceOf(r.states[|r.states| - 1]), q)
    requires forall index: nat :: TokenFree(f, r, index)
    ensures IsRun(f, next) && |next.states| == |r.states| + 1 && next.states[..|r.states|] == r.states
    ensures PlaceOf(next.states[|r.states|]) == q
    ensures forall index: nat :: TokenFree(f, next, index)
  {
    var s := r.states[|r.states| - 1];
    var c := Choice(NullPointer, map[], q.block, q.index);
    var t := if HasInst(f, s) then Execute(s, CurrentInst(f, s), c).(block := q.block, index := q.index)
             else s.(block := q.block, index := 0);
    next := Run(r.states + [t], r.choices + [c]);
    SameRunsTo(f, r, next, |r.choices|);
    assert Step(f, s, c, t);
    forall index: nat ensures TokenFree(f, next, index) {
      assert TokenFree(f, r, index);
      SameTokenFree(f, r, next, |r.choices|, index);
    }
  }

  lemma {:induction false} SameRunsTo(f: Function, r: Run, more: Run, k: nat)
    requires |r.states| <= |more.states| && |r.choices| <= |more.choices|
    requires more.states[..|r.states|] == r.states && more.choices[..|r.choices|] == r.choices
    requires k < |r.states| && k <= |r.choices| && RunsTo(f, r, k)
    ensures RunsTo(f, more, k)
  {
    assert more.states[k] == more.states[..|r.states|][k];
    if k > 0 {
      SameRunsTo(f, r, more, k - 1);
      assert more.states[k - 1] == more.states[..|r.states|][k - 1];
      assert more.choices[k - 1] == more.choices[..|r.choices|][k - 1];
    }
  }

  lemma {:induction false} SameTokenFree(f: Function, r: Run, more: Run, k: nat, index: nat)
    requires |r.states| <= |more.states| && |r.choices| <= |more.choices|
    requires more.states[..|r.states|] == r.states && more.choices[..|r.choices|] == r.choices
    requires k < |r.states| && k <= |r.choices| && TokenFreeTo(f, r, k, index)
    ensures TokenFreeTo(f, more, k, index)
  {
    if k > 0 {
      SameTokenFree(f, r, more, k - 1, index);
      assert more.states[k - 1] == more.states[..|r.states|][k - 1];
      assert more.choices[k - 1] == more.choices[..|r.choices|][k - 1];
    }
  }

  // ---- What a walk leaves written ----

  /** Registers with a definite copy, spill cells allocated, and spill cells whose current content is definite. */
  datatype Written = Written(registers: set<string>, live: set<string>, filled: set<string>)

  predicate OperandReady(facts: Written, operand: Operand) {
    operand.Null? || (operand.Local? && operand.name in facts.registers)
  }

  /** What the instruction copies is definite. */
  predicate CopyReady(code: Code, facts: Written, inst: Inst) {
    match inst.kind
    case Cast(src) => OperandReady(facts, src)
    case Load(src) => src.Local? && src.name in code.spills && src.name in facts.filled
    case _ => false
  }

  function Registers(code: Code, facts: Written, inst: Inst): set<string> {
    if inst.result.None? then facts.registers
    else if CopyReady(code, facts, inst) then facts.registers + {inst.result.value}
    else facts.registers - {inst.result.value}
  }

  function Filled(code: Code, facts: Written, inst: Inst): set<string> {
    match inst.kind
    case Alloca =>
      if inst.result.Some? && inst.result.value in code.spills then facts.filled - {inst.result.value} else facts.filled
    case Store(value, dest) =>
      if dest.Local? && dest.name in code.spills && dest.name in facts.live
      then if OperandReady(facts, value) then facts.filled + {dest.name} else facts.filled - {dest.name}
      else facts.filled
    case _ => facts.filled
  }

  function Live(code: Code, facts: Written, inst: Inst): set<string> {
    if inst.kind.Alloca? && inst.result.Some? && inst.result.value in code.spills
    then facts.live + {inst.result.value} else facts.live
  }

  function After(code: Code, facts: Written, inst: Inst): Written {
    Written(Registers(code, facts, inst), Live(code, facts, inst), Filled(code, facts, inst))
  }

  function Start(code: Code): Written {
    Written(set name | name in code.params && name != "", {}, {})
  }

  /** What is written when the walk stands before its place t. */
  function WrittenAt(f: Function, code: Code, w: seq<Place>, t: nat): Written
    requires t < |w|
  {
    if t == 0 then Start(code)
    else if HasPlace(f, w[t - 1]) then After(code, WrittenAt(f, code, w, t - 1), InstAt(f, w[t - 1]))
    else WrittenAt(f, code, w, t - 1)
  }

  lemma {:induction false} WrittenPrefix(f: Function, code: Code, w: seq<Place>, v: seq<Place>, t: nat)
    requires t < |w| && t < |v| && w[..t] == v[..t]
    ensures WrittenAt(f, code, w, t) == WrittenAt(f, code, v, t)
  {
    if t > 0 {
      assert w[t - 1] == w[..t][t - 1] && v[t - 1] == v[..t][t - 1];
      assert w[..t - 1] == w[..t][..t - 1] && v[..t - 1] == v[..t][..t - 1];
      WrittenPrefix(f, code, w, v, t - 1);
    }
  }
}
