/** The per-function analysis object: tables updated in place until a sweep changes nothing. */
module FunctionFlow {
  import opened Support
  import opened ForeignIr
  import opened UseIndex
  import opened Dataflow

  class FunctionFlow {
    const code: Code
    const uses: map<string, seq<nat>>
    var origins: map<string, ValueOrigin>
    var slots: map<string, SlotId>
    var callerOwned: set<string>

    function Contents(): Tables
      reads this
    {
      Tables(origins, slots, callerOwned)
    }

    /** The finished analysis of f: exact use lists and the solved tables. */
    ghost predicate Analyzes(m: IrModule, f: Function)
      reads this
    {
      && code == CodeOf(m, f)
      && IsUseIndex(code.insts, |code.insts|, uses)
      && Contents() == Solved(code)
    }

    constructor (m: IrModule, f: Function)
      ensures Analyzes(m, f)
    {
      var insts := Insts(f);
      var index := BuildUseIndex(insts);
      var spills := FindSpillAllocas(insts, index);
      code := Code(m.globals, f.params, insts, spills);
      uses := index;
      origins, slots, callerOwned := map[], map[], {};
      new;
      for k := 0 to |f.params|
        invariant code == CodeOf(m, f) && uses == index && slots == map[] && callerOwned == {}
        invariant origins == InitialOrigins(f.params[..k])
      {
        assert f.params[..k + 1][..k] == f.params[..k];
        if f.params[k] != "" {
          origins := origins[f.params[k] := Param(k)];
        }
      }
      assert f.params[..|f.params|] == f.params;
      Solve();
    }

    method SetSlot(name: string, slot: Option<SlotId>) returns (changed: bool)
      modifies `slots
      ensures Contents() == old(Contents()).WithSlot(name, slot)
      ensures changed <==> Contents() != old(Contents())
    {
      changed := slot.Some? && !(name in slots && slots[name] == slot.value);
      if changed {
        slots := slots[name := slot.value];
      }
    }

    method SetOwned(name: string, owned: bool) returns (changed: bool)
      modifies `callerOwned
      ensures Contents() == old(Contents()).WithOwned(name, owned)
      ensures changed <==> Contents() != old(Contents())
    {
      changed := owned && name !in callerOwned;
      if changed {
        callerOwned := callerOwned + {name};
      }
    }

    method SetOrigin(name: string, origin: ValueOrigin) returns (changed: bool)
      modifies `origins
      ensures Contents() == old(Contents()).WithOrigin(name, origin)
      ensures changed <==> Contents() != old(Contents())
    {
      changed := !(name in origins && origins[name] == origin);
      if changed {
        origins := origins[name := origin];
      }
    }

    /** Visits one instruction; reports whether any table really changed. */
    method Visit(inst: Inst) returns (changed: bool)
      modifies `origins, `slots, `callerOwned
      ensures Contents() == Apply(code, inst, old(Contents()))
      ensures !changed ==> Contents() == old(Contents())
    {
      changed := false;
      if inst.result.None? {
        return;
      }
      var name := inst.result.value;
      match inst.kind {
        case Gep(base, baseType, indices) =>
          var owned := Contents().BaseIsCallerOwned(base);
          var a := SetSlot(name, Contents().GepSlot(code, base, baseType, indices));
          var b := SetOwned(name, owned);
          changed := a || b;
        case Cast(src) =>
          var origin, owned := Contents().OriginOf(src), Contents().BaseIsCallerOwned(src);
          var a := SetSlot(name, Contents().PointerSlot(code, src));
          var b := SetOwned(name, owned);
          var c := SetOrigin(name, origin);
          changed := a || b || c;
        case Load(src) =>
          changed := SetOrigin(name, Contents().LoadOrigin(code, src));
        case Alloca =>
        case _ =>
          changed := SetOrigin(name, Unknown);
      }
    }

    /** Sweeps until nothing changes, at most once more than there are instructions. */
    method Solve()
      modifies `origins, `slots, `callerOwned
      ensures Contents() == Rounds(code, |code.insts| + 1, old(Contents()))
    {
      ghost var start := Contents();
      for round := 0 to |code.insts| + 1
        invariant Contents() == Rounds(code, round, start)
      {
        var changed := false;
        ghost var before := Contents();
        for index := 0 to |code.insts|
          invariant Contents() == Sweep(code, index, before)
          invariant !changed ==> Contents() == before
        {
          var updated := Visit(code.insts[index]);
          changed := changed || updated;
        }
        if !changed {
          FixpointStays(code, start, round, |code.insts| + 1);
          return;
        }
      }
    }
  }
}
