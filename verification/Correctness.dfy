// What compiling a program organisation unit guarantees about the code it emits.

module Correctness {
  import opened Ir
  import opened StructuredText
  import opened Plan
  import opened Faithful
  import opened GotoCode
  import opened Machines
  import opened Simulation
  import opened PouCompiler

  ghost predicate Terminates(env: Env, body: seq<Stmt>, st: State, t: State) {
    exists fuel: nat :: ExecList(env, body, st, fuel) == Some(t)
  }

  // The source takes st to t iff the emitted code, started after the entry label, reaches the exit
  // label with t.
  lemma {:induction false} CompiledBodyCorrect(env: Env, entries: map<string, int>, body: seq<Stmt>, m: Module,
        st: State, t: State)
    requires ModuleOk(entries, body, m) && WellFormedList(body)
    ensures Reaches(env, m.code, m.entry + 1, st, m.exit, t) <==> Terminates(env, body, st, t)
  {
    CompiledBodyRuns(env, entries, body, m, st, t);
    var plan := PlanList(entries, body);
    if PlanTerminates(env, plan, st, t) {
      var fuel: nat :| Final(RunList(env, plan, st, fuel)) == Some(t);
      ListEffect(env, entries, body, st, fuel);
    }
    if Terminates(env, body, st, t) {
      var fuel: nat :| ExecList(env, body, st, fuel) == Some(t);
      ListEffect(env, entries, body, st, fuel);
      assert Final(RunList(env, plan, st, fuel)) == Some(t);
    }
  }

  // For every supported body, well-formed or not: the code does what the plan does.
  lemma {:induction false} CompiledBodyRuns(env: Env, entries: map<string, int>, body: seq<Stmt>, m: Module,
        st: State, t: State)
    requires ModuleOk(entries, body, m)
    ensures Reaches(env, m.code, m.entry + 1, st, m.exit, t)
            <==> PlanTerminates(env, PlanList(entries, body), st, t)
  {
    CodeMatchesPlan(env, m.code, PlanList(entries, body), m.entry + 1, m.exit, st, t);
  }

  // Backpatching is complete: no placeholder is left, and every jump leads to the exit or to an
  // instruction of the same module that is not itself a goto.
  lemma {:induction false} NoPlaceholderLeft(entries: map<string, int>, body: seq<Stmt>, m: Module)
    requires ModuleOk(entries, body, m)
    ensures Closed(m.code, Window(m.entry + 1, m.exit, m.exit), m.entry + 1, m.exit)
    ensures Bounded(m.code, m.entry + 1)
    ensures forall l | l in m.code :: m.entry < l < m.exit
  {
    var w := Window(m.entry + 1, m.exit, m.exit);
    CodedListClosed(m.code, w, PlanList(entries, body), m.entry + 1, m.exit);
    forall l | l in m.code ensures TargetsFrom(m.code[l], m.entry + 1) {
      assert ClosedAt(m.code, w, m.entry + 1, m.exit, l);
    }
  }
}
