/** What a host that calls a compiled function observes. */
module EndToEnd {
  import opened Words
  import opened Wasm
  import opened Machine
  import opened Relation
  import opened Control
  import opened Simulation
  import opened CallSimulation
  import opened FunctionSimulation
  import opened Correctness
  import opened Overflow

  /** A host call: valid source, linked code, arguments of the declared types behind the return slots, no native
      frames. */
  ghost predicate HostCall(p: Program, m: Module, f: nat, s: State, args: seq<Val>) {
    && ValidModule(m) && Compiled(p, m) && f < |m|
    && s.Running? && s.pc == PC(f, 0, 0) && s.frames == []
    && TypesOf(args) == m[f].params && ArgsIn(s.mem, s.sp + |m[f].results|, args)
  }

  /** The machine stopped with exactly what the source computes, and changed nothing below its frame. */
  ghost predicate Agrees(s: State, t: State, o: CallOutcome)
    requires s.Running?
  {
    && t.Halted?
    && match o
       case Results(vs) => t.ret == Null && ResultsIn(t.final, s.sp, vs) && Below(s.sp, s.mem, t.final)
       case CallTraps(kind) => t.ret == Trap(kind)
       case CallOutOfFuel => false
       case CallStuck => false
  }

  /** A stopped machine stays as it is. */
  lemma StepsStopped(p: Program, m: nat, n: nat, s: State)
    requires m <= n && !Steps(p, m, s).Running?
    ensures Steps(p, n, s) == Steps(p, m, s)
  {
    StepsCompose(p, m, n - m, s);
  }

  /** Whatever the source does within some fuel the machine does, unless it reaches an activation that does not fit. */
  lemma SourceToMachine(p: Program, m: Module, f: nat, s: State, args: seq<Val>, fuel: nat) returns (n: nat)
    requires HostCall(p, m, f, s, args)
    ensures var t, o := Steps(p, n, s), Invoke(m, fuel, f, args);
      if RunsOut(p, s, n) then Overflowed(t)
      else if o.CallOutOfFuel? then n >= fuel && t.Running?
      else Agrees(s, t, o)
  {
    hide Compiled, ValidModule, ArgsIn, Invoke, ResultsIn, Below, RunsOut;
    var t: State;
    n, t := FunctionSim(p, m, f, s, args, fuel);
    InvokeSound(m, fuel, f, args);
    OverflowExact(p, s, n);
    var o := Invoke(m, fuel, f, args);
    if !Overflowed(t) && o.Results? {
      assert s.frames[..0] == [];
      var mem: Memory :| t == Unwind(Null, mem, s.frames[..|s.frames|]) && ResultsIn(mem, s.sp, o.vals)
          && Below(s.sp, s.mem, mem);
    }
  }

  /** Whatever the machine does, the source does: no fault, no loop id escaping to the host, no result of its own. */
  lemma MachineToSource(p: Program, m: Module, f: nat, s: State, args: seq<Val>, n: nat)
    requires HostCall(p, m, f, s, args)
    ensures var t := Steps(p, n, s);
      if RunsOut(p, s, n) then Overflowed(t)
      else t.Running? || exists fuel: nat :: Agrees(s, t, Invoke(m, fuel, f, args))
  {
    hide HostCall, Invoke, Agrees, RunsOut;
    CallRunning(p, m, f, s, args);
    var k := SourceToMachine(p, m, f, s, args, n + 1);
    var t, u := Steps(p, n, s), Steps(p, k, s);
    OverflowExact(p, s, n);
    OverflowExact(p, s, k);
    if !t.Running? {
      if n <= k {
        StepsStopped(p, n, k, s);
      } else {
        if !u.Running? {
          StepsStopped(p, k, n, s);
        }
      }
    }
    AgreesHalted(s, u, Invoke(m, n + 1, f, args));
  }

  lemma CallRunning(p: Program, m: Module, f: nat, s: State, args: seq<Val>)
    requires HostCall(p, m, f, s, args)
    ensures s.Running? && f < |m|
  {
  }

  lemma AgreesHalted(s: State, t: State, o: CallOutcome)
    requires s.Running?
    ensures Agrees(s, t, o) ==> t.Halted?
  {
  }

  /** Every activation the run reaches fits. */
  ghost predicate EnoughRoom(p: Program, s: State) {
    forall k: nat :: !DoesNotFit(p, Steps(p, k, s))
  }

  lemma NeverOut(p: Program, s: State, n: nat)
    requires EnoughRoom(p, s)
    ensures !RunsOut(p, s, n)
  {
  }

  /** With enough room every outcome of the source is the machine's, whatever the fuel it takes. */
  lemma OutcomePreserved(p: Program, m: Module, f: nat, s: State, args: seq<Val>, fuel: nat)
    requires HostCall(p, m, f, s, args) && EnoughRoom(p, s)
    requires f < |m| && !Invoke(m, fuel, f, args).CallOutOfFuel?
    ensures s.Running? && exists n: nat :: Agrees(s, Steps(p, n, s), Invoke(m, fuel, f, args))
  {
    hide HostCall, Invoke, RunsOut, EnoughRoom;
    CallRunning(p, m, f, s, args);
    var n := SourceToMachine(p, m, f, s, args, fuel);
    NeverOut(p, s, n);
  }

  /** With enough room the compiled program terminates exactly when the source program does. */
  lemma TerminationPreserved(p: Program, m: Module, f: nat, s: State, args: seq<Val>)
    requires HostCall(p, m, f, s, args) && EnoughRoom(p, s)
    ensures (exists n: nat :: !Steps(p, n, s).Running?) <==>
            (exists fuel: nat :: f < |m| && !Invoke(m, fuel, f, args).CallOutOfFuel?)
  {
    hide HostCall, Invoke, RunsOut, EnoughRoom;
    CallRunning(p, m, f, s, args);
    if n: nat :| !Steps(p, n, s).Running? {
      NeverOut(p, s, n);
      MachineToSource(p, m, f, s, args, n);
      var fuel: nat :| Agrees(s, Steps(p, n, s), Invoke(m, fuel, f, args));
      assert !Invoke(m, fuel, f, args).CallOutOfFuel?;
    }
    if fuel: nat :| !Invoke(m, fuel, f, args).CallOutOfFuel? {
      OutcomePreserved(p, m, f, s, args, fuel);
      var n: nat :| Agrees(s, Steps(p, n, s), Invoke(m, fuel, f, args));
      AgreesHalted(s, Steps(p, n, s), Invoke(m, fuel, f, args));
    }
  }
}
