// Running the goto code of a plan does what the plan does: the code reaches its continuation with a
// state iff the plan takes the start state there.

module Simulation {
  import opened Ir
  import opened Plan
  import opened GotoCode
  import opened Machines

  // ---------- more fuel does not change a result ----------

  lemma {:induction false} FuelRun(env: Env, c: Core, st: State, fuel: nat, more: nat)
    requires fuel <= more && Run(env, c, st, fuel).Some?
    ensures Run(env, c, st, more) == Run(env, c, st, fuel)
    decreases fuel, c, 0
  {
    match c
    case CIf(cond, thn, els) =>
      if Holds(env, cond, st) {
        FuelList(env, thn, st, fuel, more);
        var mid := RunList(env, thn, st, fuel).value;
        if els != [] && mid.Fell? { FuelList(env, els, mid.st, fuel, more); }
      }
      else if els == [] { FuelResumeList(env, thn, st, fuel, more); }
      else { FuelList(env, els, st, fuel, more); }
    case CUnless(cond, body) =>
      if Holds(env, cond, st) { FuelResumeList(env, body, st, fuel, more); }
      else { FuelList(env, body, st, fuel, more); }
    case CCopy(cond, thn, other) =>
      if Holds(env, cond, st) {
        FuelList(env, thn, st, fuel, more);
        var mid := RunList(env, thn, st, fuel).value;
        if mid.Fell? { FuelCopy(env, thn, other, mid.st, fuel, more); }
      } else {
        FuelCopy(env, thn, other, st, fuel, more);
      }
    case CWhile(cond, body) =>
      if Holds(env, cond, st) {
        FuelList(env, body, st, fuel - 1, more - 1);
        var mid := RunList(env, body, st, fuel - 1).value;
        if mid.Done? { FuelRun(env, c, mid.st, fuel - 1, more - 1); }
      }
    case _ =>
  }

  lemma {:induction false} FuelCopy(env: Env, thn: seq<Core>, other: Expr, st: State, fuel: nat, more: nat)
    requires fuel <= more && RunCopy(env, thn, other, st, fuel).Some?
    ensures RunCopy(env, thn, other, st, more) == RunCopy(env, thn, other, st, fuel)
    decreases fuel, thn, 2
  {
    if !Holds(env, other, st) {
      var f, g := if Falls(thn) then fuel - 1 else fuel, if Falls(thn) then more - 1 else more;
      FuelResumeList(env, thn, st, f, g);
      var mid := ResumeList(env, thn, st, f).value;
      if mid.Fell? { FuelCopy(env, thn, other, mid.st, fuel - 1, more - 1); }
    }
  }

  lemma {:induction false} FuelList(env: Env, cs: seq<Core>, st: State, fuel: nat, more: nat)
    requires fuel <= more && RunList(env, cs, st, fuel).Some?
    ensures RunList(env, cs, st, more) == RunList(env, cs, st, fuel)
    decreases fuel, cs, 0
  {
    if cs != [] {
      FuelRun(env, cs[0], st, fuel, more);
      if |cs| > 1 {
        FuelList(env, cs[1..], Run(env, cs[0], st, fuel).value.st, fuel, more);
      }
    }
  }

  lemma {:induction false} FuelResume(env: Env, c: Core, st: State, fuel: nat, more: nat)
    requires fuel <= more && Resume(env, c, st, fuel).Some?
    ensures Resume(env, c, st, more) == Resume(env, c, st, fuel)
    decreases fuel, c, 1
  {
    match c
    case CIf(_, thn, els) => FuelResumeList(env, if EndingOfList(els) == Nothing then thn else els, st, fuel, more);
    case CUnless(_, body) => FuelResumeList(env, body, st, fuel, more);
    case CWhile(_, body) =>
      FuelResumeList(env, body, st, fuel, more);
      var mid := ResumeList(env, body, st, fuel).value;
      if mid.Done? { FuelRun(env, c, mid.st, fuel, more); }
    case _ =>
  }

  lemma {:induction false} FuelResumeList(env: Env, cs: seq<Core>, st: State, fuel: nat, more: nat)
    requires fuel <= more && ResumeList(env, cs, st, fuel).Some?
    ensures ResumeList(env, cs, st, more) == ResumeList(env, cs, st, fuel)
    decreases fuel, cs, 1
  {
    if cs == [] {
    } else if |cs| == 1 || EndingOfList(cs[1..]) == Nothing {
      FuelResume(env, cs[0], st, fuel, more);
    } else {
      FuelResumeList(env, cs[1..], st, fuel, more);
    }
  }

  // ---------- from the plan to the code ----------

  // The code gets from label `from` with state st to label `to` with state t.
  ghost predicate Reaches(env: Env, code: Code, from: int, st: State, to: int, t: State) {
    exists n: nat :: Steps(env, code, Config(from, st), n) == Config(to, t)
  }

  lemma {:induction false} ReachesArrives(env: Env, code: Code, from: int, st: State, to: int, t: State)
    ensures Reaches(env, code, from, st, to, t) <==> Arrives(CodeStep(env, code), Config(from, st), Config(to, t))
  {
    if Reaches(env, code, from, st, to, t) {
      var n: nat :| Steps(env, code, Config(from, st), n) == Config(to, t);
      StepsIterate(env, code, Config(from, st), n);
      assert Iterate(CodeStep(env, code), Config(from, st), n) == Config(to, t);
    }
    if Arrives(CodeStep(env, code), Config(from, st), Config(to, t)) {
      var n: nat :| Iterate(CodeStep(env, code), Config(from, st), n) == Config(to, t);
      StepsIterate(env, code, Config(from, st), n);
    }
  }

  lemma {:induction false} Here(env: Env, code: Code, l: int, st: State)
    ensures Reaches(env, code, l, st, l, st)
  {
    assert Steps(env, code, Config(l, st), 0) == Config(l, st);
  }

  lemma {:induction false} Then(env: Env, code: Code, a: int, s: State, b: int, t: State, c: int, u: State)
    requires Reaches(env, code, a, s, b, t) && Reaches(env, code, b, t, c, u)
    ensures Reaches(env, code, a, s, c, u)
  {
    var m: nat :| Steps(env, code, Config(a, s), m) == Config(b, t);
    var n: nat :| Steps(env, code, Config(b, t), n) == Config(c, u);
    StepsAdd(env, code, Config(a, s), m, n);
  }

  lemma {:induction false} First(env: Env, code: Code, a: int, s: State, b: int, t: State, c: int, u: State)
    requires Step(env, code, Config(a, s)) == Config(b, t) && Reaches(env, code, b, t, c, u)
    ensures Reaches(env, code, a, s, c, u)
  {
    var n: nat :| Steps(env, code, Config(b, t), n) == Config(c, u);
    assert Steps(env, code, Config(a, s), n + 1) == Config(c, u);
  }

  // Where code with this outcome goes on, if its continuation is `next` and it ends before `hi`.
  function After(o: Outcome, next: int, hi: int): int {
    if o.Done? then next else hi
  }

  lemma {:induction false} RunReaches(env: Env, code: Code, c: Core, lo: int, next: int, st: State, fuel: nat,
        o: Outcome)
    requires Coded(code, c, lo, next) && Run(env, c, st, fuel) == Some(o)
    ensures Reaches(env, code, lo, st, After(o, next, lo + Size(c)), o.st)
    decreases fuel, c, 1
  {
    var end := After(o, next, lo + Size(c));
    match c
    case CAssign(v, e) =>
      Here(env, code, next, o.st);
      First(env, code, lo + 1, o.st, next, o.st, next, o.st);
      First(env, code, lo, st, lo + 1, o.st, next, o.st);
    case CCall(f, pou, entry) =>
      Here(env, code, next, o.st);
      First(env, code, lo, st, next, o.st, next, o.st);
    case CSkip =>
      Here(env, code, lo, st);
    case CIf(_, _, _) =>
      IfReaches(env, code, c, lo, next, st, fuel, o);
    case CUnless(cond, body) =>
      if Holds(env, cond, st) {
        ResumeListReaches(env, code, body, lo + 1, next, st, fuel, o);
        First(env, code, lo, st, LastTargetList(body, lo + 1, next), st, end, o.st);
      } else {
        RunListReaches(env, code, body, lo + 1, next, st, fuel, o);
        First(env, code, lo, st, lo + 1, st, end, o.st);
      }
    case CCopy(_, _, _) =>
      CopyReaches(env, code, c, lo, next, st, fuel, o);
    case CWhile(cond, body) =>
      if !Holds(env, cond, st) {
        Here(env, code, next, st);
        First(env, code, lo, st, next, st, next, st);
      } else {
        var mid := RunList(env, body, st, fuel - 1).value;
        RunListReaches(env, code, body, lo + 1, lo, st, fuel - 1, mid);
        var after := After(mid, lo, lo + Size(c));
        First(env, code, lo, st, lo + 1, st, after, mid.st);
        if mid.Done? {
          RunReaches(env, code, c, lo, next, mid.st, fuel - 1, o);
          Then(env, code, lo, st, lo, mid.st, end, o.st);
        }
      }
  }

  lemma {:induction false} IfReaches(env: Env, code: Code, c: Core, lo: int, next: int, st: State, fuel: nat,
        o: Outcome)
    requires c.CIf? && Coded(code, c, lo, next) && Run(env, c, st, fuel) == Some(o)
    ensures Reaches(env, code, lo, st, After(o, next, lo + Size(c)), o.st)
    decreases fuel, c, 0
  {
    var CIf(cond, thn, els) := c;
    var lmid, end := lo + 1 + SizeList(thn), After(o, next, lo + Size(c));
    if Holds(env, cond, st) {
      var mid := RunList(env, thn, st, fuel).value;
      var after := After(mid, next, lmid);
      RunListReaches(env, code, thn, lo + 1, next, st, fuel, mid);
      First(env, code, lo, st, lo + 1, st, after, mid.st);
      if els != [] && mid.Fell? {
        RunListReaches(env, code, els, lmid, next, mid.st, fuel, o);
        Then(env, code, lo, st, lmid, mid.st, end, o.st);
      } else {
        assert o == mid && (els == [] ==> SizeList(els) == 0);
      }
    } else if els == [] {
      ResumeListReaches(env, code, thn, lo + 1, next, st, fuel, o);
      First(env, code, lo, st, LastTargetList(thn, lo + 1, next), st, end, o.st);
    } else {
      RunListReaches(env, code, els, lmid, next, st, fuel, o);
      First(env, code, lo, st, lmid, st, end, o.st);
    }
  }

  lemma {:induction false} CopyReaches(env: Env, code: Code, c: Core, lo: int, next: int, st: State, fuel: nat,
        o: Outcome)
    requires c.CCopy? && Coded(code, c, lo, next) && Run(env, c, st, fuel) == Some(o)
    ensures Reaches(env, code, lo, st, After(o, next, lo + Size(c)), o.st)
    decreases fuel, c, 0
  {
    var CCopy(cond, thn, other) := c;
    var lmid, end := lo + 1 + SizeList(thn), After(o, next, lo + Size(c));
    if Holds(env, cond, st) {
      var mid := RunList(env, thn, st, fuel).value;
      RunListReaches(env, code, thn, lo + 1, next, st, fuel, mid);
      First(env, code, lo, st, lo + 1, st, After(mid, next, lmid), mid.st);
      if mid.Fell? {
        SecondReaches(env, code, thn, other, lo, next, mid.st, fuel, o);
        Then(env, code, lo, st, lmid, mid.st, end, o.st);
      }
    } else {
      SecondReaches(env, code, thn, other, lo, next, st, fuel, o);
      First(env, code, lo, st, lmid, st, end, o.st);
    }
  }

  // The second condition of a CCopy at lo.
  lemma {:induction false} SecondReaches(env: Env, code: Code, thn: seq<Core>, other: Expr, lo: int, next: int,
        st: State, fuel: nat, o: Outcome)
    requires thn != [] && CodedList(code, thn, lo + 1, next) && RunCopy(env, thn, other, st, fuel) == Some(o)
    requires SecondAt(code, thn, other, lo, next)
    ensures Reaches(env, code, lo + 1 + SizeList(thn), st, After(o, next, lo + 2 + SizeList(thn)), o.st)
    decreases fuel, thn, 2
  {
    var mid, end := lo + 1 + SizeList(thn), After(o, next, lo + 2 + SizeList(thn));
    if Holds(env, other, st) {
      Here(env, code, mid + 1, st);
      First(env, code, mid, st, mid + 1, st, end, st);
    } else {
      var f := if Falls(thn) then fuel - 1 else fuel;
      var back := ResumeList(env, thn, st, f).value;
      ResumeListReaches(env, code, thn, lo + 1, next, st, f, back);
      First(env, code, mid, st, LastTargetList(thn, lo + 1, next), st, After(back, next, mid), back.st);
      if back.Fell? {
        SecondReaches(env, code, thn, other, lo, next, back.st, fuel - 1, o);
        Then(env, code, mid, st, mid, back.st, end, o.st);
      }
    }
  }

  predicate SecondAt(code: Code, thn: seq<Core>, other: Expr, lo: int, next: int) {
    var mid := lo + 1 + SizeList(thn);
    mid in code && code[mid] == IfGoto(other, mid + 1, LastTargetList(thn, lo + 1, next))
  }

  lemma {:induction false} RunListReaches(env: Env, code: Code, cs: seq<Core>, lo: int, next: int, st: State,
        fuel: nat, o: Outcome)
    requires CodedList(code, cs, lo, next) && RunList(env, cs, st, fuel) == Some(o)
    ensures Reaches(env, code, lo, st, After(o, next, lo + SizeList(cs)), o.st)
    decreases fuel, cs, 0
  {
    if cs == [] {
      Here(env, code, lo, st);
    } else {
      var mid := Run(env, cs[0], st, fuel).value;
      var after := lo + Size(cs[0]);
      RunReaches(env, code, cs[0], lo, if |cs| == 1 then next else after, st, fuel, mid);
      if |cs| > 1 {
        RunListReaches(env, code, cs[1..], after, next, mid.st, fuel, o);
        Then(env, code, lo, st, after, mid.st, After(o, next, lo + SizeList(cs)), o.st);
      } else {
        SizeOne(cs[0]);
        assert cs == [cs[0]];
      }
    }
  }

  lemma {:induction false} ResumeReaches(env: Env, code: Code, c: Core, lo: int, next: int, st: State, fuel: nat,
        o: Outcome)
    requires Coded(code, c, lo, next) && Resume(env, c, st, fuel) == Some(o)
    ensures Reaches(env, code, LastTarget(c, lo, next), st, After(o, next, lo + Size(c)), o.st)
    decreases fuel, c, 2
  {
    match c
    case CIf(_, thn, els) =>
      SizeEndingList(els);
      if EndingOfList(els) == Nothing { ResumeListReaches(env, code, thn, lo + 1, next, st, fuel, o); }
      else { ResumeListReaches(env, code, els, lo + 1 + SizeList(thn), next, st, fuel, o); }
    case CUnless(_, body) => ResumeListReaches(env, code, body, lo + 1, next, st, fuel, o);
    case CWhile(_, body) =>
      var mid := ResumeList(env, body, st, fuel).value;
      ResumeListReaches(env, code, body, lo + 1, lo, st, fuel, mid);
      if mid.Done? {
        RunReaches(env, code, c, lo, next, mid.st, fuel, o);
        Then(env, code, LastTarget(c, lo, next), st, lo, mid.st, After(o, next, lo + Size(c)), o.st);
      }
    case _ => Here(env, code, next, st);
  }

  lemma {:induction false} ResumeListReaches(env: Env, code: Code, cs: seq<Core>, lo: int, next: int, st: State,
        fuel: nat, o: Outcome)
    requires cs != [] && CodedList(code, cs, lo, next) && ResumeList(env, cs, st, fuel) == Some(o)
    ensures Reaches(env, code, LastTargetList(cs, lo, next), st, After(o, next, lo + SizeList(cs)), o.st)
    decreases fuel, cs, 1
  {
    SizeEndingList(cs[1..]);
    if |cs| == 1 {
      assert cs[1..] == [];
      ResumeReaches(env, code, cs[0], lo, next, st, fuel, o);
    } else if EndingOfList(cs[1..]) == Nothing {
      var mid := Resume(env, cs[0], st, fuel).value;
      ResumeReaches(env, code, cs[0], lo, lo + Size(cs[0]), st, fuel, mid);
    } else {
      ResumeListReaches(env, code, cs[1..], lo + Size(cs[0]), next, st, fuel, o);
    }
  }

  // ---------- from the code to the plan ----------

  // A run of n steps from `from` that ends in the halted configuration x.
  predicate Halts(env: Env, code: Code, from: int, st: State, n: nat, x: Config) {
    Steps(env, code, Config(from, st), n) == x && x.pc !in code
  }

  lemma {:induction false} HaltsStep(env: Env, code: Code, from: int, st: State, n: nat, x: Config)
    requires Halts(env, code, from, st, n, x) && from in code
    ensures n > 0
    ensures var c := Step(env, code, Config(from, st)); Halts(env, code, c.pc, c.st, n - 1, x)
  {
    var c := Step(env, code, Config(from, st));
    assert c == Config(c.pc, c.st);
  }

  // If the code halts, it passed on the way the place where it hands over, with the plan's outcome.
  lemma {:induction false} HaltsRun(env: Env, code: Code, c: Core, lo: int, next: int, st: State, n: nat, x: Config)
      returns (o: Outcome, m: nat)
    requires Coded(code, c, lo, next) && Halts(env, code, lo, st, n, x)
    ensures Run(env, c, st, n) == Some(o) && m <= n && Halts(env, code, After(o, next, lo + Size(c)), o.st, m, x)
    decreases n, c, 1
  {
    match c
    case CAssign(v, e) =>
      HaltsStep(env, code, lo, st, n, x);
      o, m := Done(Update(env, v, e, st)), n - 2;
      HaltsStep(env, code, lo + 1, o.st, n - 1, x);
    case CCall(f, pou, entry) =>
      HaltsStep(env, code, lo, st, n, x);
      o, m := Done(env.callee(f, st)), n - 1;
    case CSkip =>
      o, m := Fell(st), n;
    case CIf(_, _, _) =>
      o, m := HaltsIf(env, code, c, lo, next, st, n, x);
    case CUnless(cond, body) =>
      HaltsStep(env, code, lo, st, n, x);
      if Holds(env, cond, st) {
        o, m := HaltsResumeList(env, code, body, lo + 1, next, st, n - 1, x);
        FuelResumeList(env, body, st, n - 1, n);
      } else {
        o, m := HaltsRunList(env, code, body, lo + 1, next, st, n - 1, x);
        FuelList(env, body, st, n - 1, n);
      }
    case CCopy(_, _, _) =>
      o, m := HaltsCopy(env, code, c, lo, next, st, n, x);
    case CWhile(cond, body) =>
      o, m := HaltsWhile(env, code, c, lo, next, st, n, x);
  }

  lemma {:induction false} HaltsIf(env: Env, code: Code, c: Core, lo: int, next: int, st: State, n: nat, x: Config)
      returns (o: Outcome, m: nat)
    requires c.CIf? && Coded(code, c, lo, next) && Halts(env, code, lo, st, n, x)
    ensures Run(env, c, st, n) == Some(o) && m <= n && Halts(env, code, After(o, next, lo + Size(c)), o.st, m, x)
    decreases n, c, 0
  {
    var CIf(cond, thn, els) := c;
    var lmid := lo + 1 + SizeList(thn);
    HaltsStep(env, code, lo, st, n, x);
    if Holds(env, cond, st) {
      o, m := HaltsRunList(env, code, thn, lo + 1, next, st, n - 1, x);
      FuelList(env, thn, st, n - 1, n);
      if els != [] && o.Fell? {
        var k, mid := m, o.st;
        o, m := HaltsRunList(env, code, els, lmid, next, mid, k, x);
        FuelList(env, els, mid, k, n);
      }
    } else if els == [] {
      o, m := HaltsResumeList(env, code, thn, lo + 1, next, st, n - 1, x);
      FuelResumeList(env, thn, st, n - 1, n);
    } else {
      o, m := HaltsRunList(env, code, els, lmid, next, st, n - 1, x);
      FuelList(env, els, st, n - 1, n);
    }
  }

  lemma {:induction false} HaltsCopy(env: Env, code: Code, c: Core, lo: int, next: int, st: State, n: nat, x: Config)
      returns (o: Outcome, m: nat)
    requires c.CCopy? && Coded(code, c, lo, next) && Halts(env, code, lo, st, n, x)
    ensures Run(env, c, st, n) == Some(o) && m <= n && Halts(env, code, After(o, next, lo + Size(c)), o.st, m, x)
    decreases n, c, 0
  {
    var CCopy(cond, thn, other) := c;
    HaltsStep(env, code, lo, st, n, x);
    if Holds(env, cond, st) {
      o, m := HaltsRunList(env, code, thn, lo + 1, next, st, n - 1, x);
      FuelList(env, thn, st, n - 1, n);
      if o.Fell? {
        var k, mid := m, o.st;
        o, m := HaltsSecond(env, code, thn, other, lo, next, mid, k, x);
        FuelCopy(env, thn, other, mid, k, n);
      }
    } else {
      o, m := HaltsSecond(env, code, thn, other, lo, next, st, n - 1, x);
      FuelCopy(env, thn, other, st, n - 1, n);
    }
  }

  lemma {:induction false} HaltsSecond(env: Env, code: Code, thn: seq<Core>, other: Expr, lo: int, next: int,
        st: State, n: nat, x: Config)
      returns (o: Outcome, m: nat)
    requires thn != [] && CodedList(code, thn, lo + 1, next) && SecondAt(code, thn, other, lo, next)
    requires Halts(env, code, lo + 1 + SizeList(thn), st, n, x)
    ensures RunCopy(env, thn, other, st, n) == Some(o) && m <= n
    ensures Halts(env, code, After(o, next, lo + 2 + SizeList(thn)), o.st, m, x)
    decreases n, thn, 2
  {
    HaltsStep(env, code, lo + 1 + SizeList(thn), st, n, x);
    if Holds(env, other, st) {
      o, m := Fell(st), n - 1;
    } else {
      o, m := HaltsResumeList(env, code, thn, lo + 1, next, st, n - 1, x);
      FuelResumeList(env, thn, st, n - 1, n);
      if o.Fell? {
        var k, mid := m, o.st;
        o, m := HaltsSecond(env, code, thn, other, lo, next, mid, k, x);
        FuelCopy(env, thn, other, mid, k, n - 1);
      }
    }
  }

  lemma {:induction false} HaltsWhile(env: Env, code: Code, c: Core, lo: int, next: int, st: State, n: nat, x: Config)
      returns (o: Outcome, m: nat)
    requires c.CWhile? && Coded(code, c, lo, next) && Halts(env, code, lo, st, n, x)
    ensures Run(env, c, st, n) == Some(o) && m <= n && Halts(env, code, After(o, next, lo + Size(c)), o.st, m, x)
    decreases n, c, 0
  {
    var CWhile(cond, body) := c;
    HaltsStep(env, code, lo, st, n, x);
    if !Holds(env, cond, st) {
      o, m := Done(st), n - 1;
    } else {
      o, m := HaltsRunList(env, code, body, lo + 1, lo, st, n - 1, x);
      if o.Done? {
        var k, mid := m, o.st;
        o, m := HaltsRun(env, code, c, lo, next, mid, k, x);
        FuelRun(env, c, mid, k, n - 1);
      }
    }
  }

  lemma {:induction false} HaltsRunList(env: Env, code: Code, cs: seq<Core>, lo: int, next: int, st: State, n: nat,
        x: Config)
      returns (o: Outcome, m: nat)
    requires CodedList(code, cs, lo, next) && Halts(env, code, lo, st, n, x)
    ensures RunList(env, cs, st, n) == Some(o) && m <= n
    ensures Halts(env, code, After(o, next, lo + SizeList(cs)), o.st, m, x)
    decreases n, cs, 0
  {
    if cs == [] {
      o, m := Done(st), n;
    } else {
      var after := lo + Size(cs[0]);
      o, m := HaltsRun(env, code, cs[0], lo, if |cs| == 1 then next else after, st, n, x);
      if |cs| == 1 {
        assert cs[1..] == [];
      } else {
        var k, mid := m, o.st;
        o, m := HaltsRunList(env, code, cs[1..], after, next, mid, k, x);
        FuelList(env, cs[1..], mid, k, n);
      }
    }
  }

  lemma {:induction false} HaltsResume(env: Env, code: Code, c: Core, lo: int, next: int, st: State, n: nat, x: Config)
      returns (o: Outcome, m: nat)
    requires Coded(code, c, lo, next) && Halts(env, code, LastTarget(c, lo, next), st, n, x)
    ensures Resume(env, c, st, n) == Some(o) && m <= n && Halts(env, code, After(o, next, lo + Size(c)), o.st, m, x)
    decreases n, c, 2
  {
    match c
    case CIf(_, thn, els) =>
      SizeEndingList(els);
      if EndingOfList(els) == Nothing { o, m := HaltsResumeList(env, code, thn, lo + 1, next, st, n, x); }
      else { o, m := HaltsResumeList(env, code, els, lo + 1 + SizeList(thn), next, st, n, x); }
    case CUnless(_, body) => o, m := HaltsResumeList(env, code, body, lo + 1, next, st, n, x);
    case CWhile(_, body) =>
      o, m := HaltsResumeList(env, code, body, lo + 1, lo, st, n, x);
      if o.Done? {
        var k, mid := m, o.st;
        o, m := HaltsRun(env, code, c, lo, next, mid, k, x);
        FuelRun(env, c, mid, k, n);
      }
    case _ => o, m := Done(st), n;
  }

  lemma {:induction false} HaltsResumeList(env: Env, code: Code, cs: seq<Core>, lo: int, next: int, st: State,
        n: nat, x: Config)
      returns (o: Outcome, m: nat)
    requires cs != [] && CodedList(code, cs, lo, next) && Halts(env, code, LastTargetList(cs, lo, next), st, n, x)
    ensures ResumeList(env, cs, st, n) == Some(o) && m <= n
    ensures Halts(env, code, After(o, next, lo + SizeList(cs)), o.st, m, x)
    decreases n, cs, 1
  {
    SizeEndingList(cs[1..]);
    if |cs| == 1 {
      assert cs[1..] == [];
      o, m := HaltsResume(env, code, cs[0], lo, next, st, n, x);
    } else if EndingOfList(cs[1..]) == Nothing {
      o, m := HaltsResume(env, code, cs[0], lo, lo + Size(cs[0]), st, n, x);
      o := Fell(o.st);
    } else {
      o, m := HaltsResumeList(env, code, cs[1..], lo + Size(cs[0]), next, st, n, x);
    }
  }

  // The state a plan ends with, wherever it hands over.
  function Final(o: Option<Outcome>): Option<State> {
    if o.None? then None else Some(o.value.st)
  }

  ghost predicate PlanTerminates(env: Env, cs: seq<Core>, st: State, t: State) {
    exists fuel: nat :: Final(RunList(env, cs, st, fuel)) == Some(t)
  }

  // The whole of a plan, laid out up to a label without an instruction.
  lemma {:induction false} CodeMatchesPlan(env: Env, code: Code, cs: seq<Core>, lo: int, exit: int, st: State, t: State)
    requires CodedList(code, cs, lo, exit) && exit == lo + SizeList(cs) && exit !in code
    ensures Reaches(env, code, lo, st, exit, t) <==> PlanTerminates(env, cs, st, t)
  {
    if PlanTerminates(env, cs, st, t) {
      var fuel: nat :| Final(RunList(env, cs, st, fuel)) == Some(t);
      RunListReaches(env, code, cs, lo, exit, st, fuel, RunList(env, cs, st, fuel).value);
    }
    if Reaches(env, code, lo, st, exit, t) {
      var n: nat :| Steps(env, code, Config(lo, st), n) == Config(exit, t);
      var o, m := HaltsRunList(env, code, cs, lo, exit, st, n, Config(exit, t));
      HaltedStays(env, code, Config(exit, o.st), m);
      assert Final(RunList(env, cs, st, n)) == Some(t);
    }
  }
}
