// Labelled goto code: how it runs, and what it means for a stretch of labels to hold the code of a plan.

module GotoCode {
  import opened Ir
  import opened Plan
  import opened Machines

  // ---------- running labelled code ----------

  // One instruction; a label without an instruction (the exit label) is where execution halts.
  function Step(env: Env, code: Code, c: Config): Config {
    if c.pc !in code then c
    else
      match code[c.pc]
      case Assign(v, e) => Config(c.pc + 1, AssignUpdate(env, v, e, c.st))
      case Havoc(v) => Config(c.pc + 1, HavocUpdate(env, v, c.st))
      case Call(f, _, intra, _) => Config(intra, env.callee(f, c.st))
      case Goto(l) => Config(l, c.st)
      case IfGoto(e, t, f) => Config(if Holds(env, e, c.st) then t else f, c.st)
      case WhileGoto(e, b, x) => Config(if Holds(env, e, c.st) then b else x, c.st)
  }

  function CodeStep(env: Env, code: Code): Config -> Config {
    c => Step(env, code, c)
  }

  function Steps(env: Env, code: Code, c: Config, n: nat): Config
    decreases n
  {
    if n == 0 then c else Steps(env, code, Step(env, code, c), n - 1)
  }

  lemma {:induction false} StepsAdd(env: Env, code: Code, c: Config, m: nat, n: nat)
    ensures Steps(env, code, c, m + n) == Steps(env, code, Steps(env, code, c, m), n)
    decreases m
  {
    if m > 0 {
      StepsAdd(env, code, Step(env, code, c), m - 1, n);
    }
  }

  lemma {:induction false} StepsIterate(env: Env, code: Code, c: Config, n: nat)
    ensures Steps(env, code, c, n) == Iterate(CodeStep(env, code), c, n)
    decreases n
  {
    if n > 0 {
      StepsIterate(env, code, Step(env, code, c), n - 1);
    }
  }

  lemma {:induction false} HaltedStays(env: Env, code: Code, c: Config, n: nat)
    requires c.pc !in code
    ensures Steps(env, code, c, n) == c
  {
    if n > 0 {
      HaltedStays(env, code, c, n - 1);
    }
  }

  // ---------- layout ----------

  function Size(c: Core): nat {
    match c
    case CAssign(_, _) => 2
    case CCall(_, _, _) => 1
    case CSkip => 0
    case CIf(_, thn, els) => 1 + SizeList(thn) + SizeList(els)
    case CUnless(_, body) => 1 + SizeList(body)
    case CCopy(_, thn, _) => 2 + SizeList(thn)
    case CWhile(_, body) => 1 + SizeList(body)
  }

  function SizeList(cs: seq<Core>): nat {
    if cs == [] then 0 else Size(cs[0]) + SizeList(cs[1..])
  }

  function OfAssignment(v: string, e: Expr): Instr {
    if e.NondeterministicConstant? then Havoc(v) else Assign(v, e)
  }

  // Nothing is emitted exactly for plans without code.
  lemma {:induction false} SizeEnding(c: Core)
    ensures EndingOf(c) == Nothing <==> Size(c) == 0
    decreases c, 0
  {
  }

  lemma {:induction false} SizeEndingList(cs: seq<Core>)
    ensures EndingOfList(cs) == Nothing <==> SizeList(cs) == 0
    decreases cs, 1
  {
    if cs != [] {
      SizeEnding(cs[0]);
      SizeEndingList(cs[1..]);
    }
  }

  // The label that the last emitted jump of `c` leads to, if `c` is laid out from lo and continues at next.
  function LastTarget(c: Core, lo: int, next: int): int
    decreases c, 0
  {
    match c
    case CIf(_, thn, els) =>
      if EndingOfList(els) == Nothing then LastTargetList(thn, lo + 1, next)
      else LastTargetList(els, lo + 1 + SizeList(thn), next)
    case CUnless(_, body) => LastTargetList(body, lo + 1, next)
    case CWhile(_, body) => LastTargetList(body, lo + 1, lo)
    case _ => next
  }

  function LastTargetList(cs: seq<Core>, lo: int, next: int): int
    decreases cs, 1
  {
    if cs == [] then next
    else if |cs| == 1 then LastTarget(cs[0], lo, next)
    else if EndingOfList(cs[1..]) == Nothing then LastTarget(cs[0], lo, lo + Size(cs[0]))
    else LastTargetList(cs[1..], lo + Size(cs[0]), next)
  }

  // The labels from lo hold the code of `c`, which continues at `next` when it is done.
  predicate Coded(code: Code, c: Core, lo: int, next: int)
    decreases c, 0
  {
    match c
    case CSkip => true
    case CAssign(v, e) =>
      lo in code && code[lo] == OfAssignment(v, e) && lo + 1 in code && code[lo + 1] == Goto(next)
    case CCall(f, pou, entry) => lo in code && code[lo] == Call(f, pou, next, entry)
    case CIf(cond, thn, els) =>
      var mid := lo + 1 + SizeList(thn);
      && thn != [] && lo in code
      && code[lo] == IfGoto(cond, lo + 1, if els == [] then LastTargetList(thn, lo + 1, next) else mid)
      && CodedList(code, thn, lo + 1, next)
      && (els != [] ==> CodedList(code, els, mid, next))
    case CUnless(cond, body) =>
      && body != [] && lo in code
      && code[lo] == IfGoto(cond, LastTargetList(body, lo + 1, next), lo + 1)
      && CodedList(code, body, lo + 1, next)
    case CCopy(cond, thn, other) =>
      var mid := lo + 1 + SizeList(thn);
      && EndingOfList(thn) == InGoto && lo in code && code[lo] == IfGoto(cond, lo + 1, mid)
      && CodedList(code, thn, lo + 1, next)
      && mid in code && code[mid] == IfGoto(other, mid + 1, LastTargetList(thn, lo + 1, next))
    case CWhile(cond, body) =>
      && body != [] && lo in code
      && code[lo] == WhileGoto(cond, lo + 1, next)
      && CodedList(code, body, lo + 1, lo)
  }

  // Each element but the last continues at the next element; an empty list has no room to jump.
  predicate CodedList(code: Code, cs: seq<Core>, lo: int, next: int)
    decreases cs, 1
  {
    if cs == [] then next == lo
    else if |cs| == 1 then Coded(code, cs[0], lo, next)
    else Coded(code, cs[0], lo, lo + Size(cs[0])) && CodedList(code, cs[1..], lo + Size(cs[0]), next)
  }

  lemma {:induction false} SizeAppend(a: seq<Core>, b: seq<Core>)
    ensures SizeList(a + b) == SizeList(a) + SizeList(b)
  {
    if a == [] {
      assert a + b == b;
    } else {
      assert (a + b)[1..] == a[1..] + b;
      SizeAppend(a[1..], b);
    }
  }

  lemma {:induction false} CodedAppend(code: Code, a: seq<Core>, b: seq<Core>, lo: int, next: int)
    requires CodedList(code, a, lo, lo + SizeList(a))
    requires CodedList(code, b, lo + SizeList(a), next)
    ensures CodedList(code, a + b, lo, next)
    decreases a
  {
    if a == [] {
      assert a + b == b;
    } else if b == [] {
      assert a + b == a;
    } else {
      assert (a + b)[0] == a[0] && (a + b)[1..] == a[1..] + b;
      assert |a| == 1 ==> a[1..] == [] && SizeList(a) == Size(a[0]);
      CodedAppend(code, a[1..], b, lo + Size(a[0]), next);
    }
  }

  // A layout only depends on the instructions in its own stretch of labels.
  predicate Agree(a: Code, b: Code, lo: int, hi: int) {
    forall l | lo <= l < hi && l in a :: l in b && a[l] == b[l]
  }

  lemma {:induction false} CodedFrame(a: Code, b: Code, c: Core, lo: int, next: int)
    requires Coded(a, c, lo, next) && Agree(a, b, lo, lo + Size(c))
    ensures Coded(b, c, lo, next)
    decreases c, 0
  {
    match c
    case CIf(_, thn, els) =>
      CodedListFrame(a, b, thn, lo + 1, next);
      if els != [] { CodedListFrame(a, b, els, lo + 1 + SizeList(thn), next); }
    case CUnless(_, body) => CodedListFrame(a, b, body, lo + 1, next);
    case CCopy(_, thn, _) => CodedListFrame(a, b, thn, lo + 1, next);
    case CWhile(_, body) => CodedListFrame(a, b, body, lo + 1, lo);
    case _ =>
  }

  lemma {:induction false} CodedListFrame(a: Code, b: Code, cs: seq<Core>, lo: int, next: int)
    requires CodedList(a, cs, lo, next) && Agree(a, b, lo, lo + SizeList(cs))
    ensures CodedList(b, cs, lo, next)
    decreases cs, 1
  {
    if cs != [] {
      CodedFrame(a, b, cs[0], lo, if |cs| == 1 then next else lo + Size(cs[0]));
      if |cs| > 1 { CodedListFrame(a, b, cs[1..], lo + Size(cs[0]), next); }
    }
  }

  // The last label of a stretch holds the jump that LastTarget describes.
  predicate JumpsTo(i: Instr, ending: Ending, target: int) {
    match ending
    case InGoto => i == Goto(target)
    case InCall => i.Call? && i.intraprocedural == target
    case _ => true
  }

  // Where a goto or a call goes on in its own module.
  function JumpOf(i: Instr): int
    requires i.Goto? || i.Call?
  {
    if i.Goto? then i.target else i.intraprocedural
  }

  lemma {:induction false} LastJump(code: Code, c: Core, lo: int, next: int)
    requires Coded(code, c, lo, next) && EndingOf(c) in {InGoto, InCall}
    ensures Size(c) > 0 && lo + Size(c) - 1 in code
    ensures JumpsTo(code[lo + Size(c) - 1], EndingOf(c), LastTarget(c, lo, next))
    decreases c, 0
  {
    match c
    case CIf(_, thn, els) =>
      SizeEndingList(els);
      if EndingOfList(els) == Nothing { LastJumpList(code, thn, lo + 1, next); }
      else { LastJumpList(code, els, lo + 1 + SizeList(thn), next); }
    case CUnless(_, body) => LastJumpList(code, body, lo + 1, next);
    case CWhile(_, body) => LastJumpList(code, body, lo + 1, lo);
    case _ =>
  }

  lemma {:induction false} LastJumpList(code: Code, cs: seq<Core>, lo: int, next: int)
    requires CodedList(code, cs, lo, next) && EndingOfList(cs) in {InGoto, InCall}
    ensures SizeList(cs) > 0 && lo + SizeList(cs) - 1 in code
    ensures JumpsTo(code[lo + SizeList(cs) - 1], EndingOfList(cs), LastTargetList(cs, lo, next))
    decreases cs, 1
  {
    SizeEndingList(cs[1..]);
    if |cs| == 1 {
      assert cs[1..] == [];
      LastJump(code, cs[0], lo, next);
    } else if EndingOfList(cs[1..]) == Nothing {
      LastJump(code, cs[0], lo, lo + Size(cs[0]));
    } else {
      LastJumpList(code, cs[1..], lo + Size(cs[0]), next);
    }
  }

  // ---------- backpatching ----------

  function PatchTarget(l: int, placeholder: int, next: int): int {
    if l == placeholder then next else l
  }

  function PatchInstr(i: Instr, placeholder: int, next: int): Instr {
    match i
    case IfGoto(e, t, f) => IfGoto(e, PatchTarget(t, placeholder, next), PatchTarget(f, placeholder, next))
    case WhileGoto(e, b, x) => WhileGoto(e, b, PatchTarget(x, placeholder, next))
    case Call(f, pou, intra, inter) => Call(f, pou, PatchTarget(intra, placeholder, next), inter)
    case Goto(l) => Goto(PatchTarget(l, placeholder, next))
    case _ => i
  }

  function Patch(code: Code, placeholder: int, next: int): (r: Code)
    ensures r.Keys == code.Keys
  {
    map l | l in code :: PatchInstr(code[l], placeholder, next)
  }

  // Patching a placeholder turns code that continues at the placeholder into code that continues at
  // the patched label, and leaves every other layout alone.
  lemma {:induction false} CodedPatch(code: Code, c: Core, lo: int, next: int, placeholder: int, target: int)
    requires placeholder < 0 <= lo && Coded(code, c, lo, next)
    ensures Coded(Patch(code, placeholder, target), c, lo, PatchTarget(next, placeholder, target))
    ensures LastTarget(c, lo, PatchTarget(next, placeholder, target)) ==
            PatchTarget(LastTarget(c, lo, next), placeholder, target)
    decreases c, 0
  {
    match c
    case CIf(_, thn, els) =>
      CodedListPatch(code, thn, lo + 1, next, placeholder, target);
      if els != [] { CodedListPatch(code, els, lo + 1 + SizeList(thn), next, placeholder, target); }
    case CUnless(_, body) => CodedListPatch(code, body, lo + 1, next, placeholder, target);
    case CCopy(_, thn, _) => CodedListPatch(code, thn, lo + 1, next, placeholder, target);
    case CWhile(_, body) => CodedListPatch(code, body, lo + 1, lo, placeholder, target);
    case _ =>
  }

  lemma {:induction false} CodedListPatch(code: Code, cs: seq<Core>, lo: int, next: int, placeholder: int, target: int)
    requires placeholder < 0 <= lo && CodedList(code, cs, lo, next)
    ensures CodedList(Patch(code, placeholder, target), cs, lo, PatchTarget(next, placeholder, target))
    ensures LastTargetList(cs, lo, PatchTarget(next, placeholder, target)) ==
            PatchTarget(LastTargetList(cs, lo, next), placeholder, target)
    decreases cs, 1
  {
    if cs != [] {
      CodedPatch(code, cs[0], lo, if |cs| == 1 then next else lo + Size(cs[0]), placeholder, target);
      if |cs| > 1 { CodedListPatch(code, cs[1..], lo + Size(cs[0]), next, placeholder, target); }
    }
  }

  // ---------- jumps stay inside ----------

  // The window of labels a jump may land in, and the one label outside of it.
  datatype Window = Window(lo: int, hi: int, exit: int)

  // A jump lands on the exit, behind the window, or on an instruction of it that is not itself a goto.
  predicate Lands(code: Code, w: Window, target: int) {
    target == w.exit || target == w.hi || (w.lo <= target < w.hi && target in code && !code[target].Goto?)
  }

  predicate JumpsLand(code: Code, w: Window, i: Instr) {
    match i
    case IfGoto(_, t, f) => Lands(code, w, t) && Lands(code, w, f)
    case WhileGoto(_, b, x) => Lands(code, w, b) && Lands(code, w, x)
    case Call(_, _, intra, _) => Lands(code, w, intra)
    case Goto(l) => Lands(code, w, l)
    case _ => true
  }

  // Every label of the stretch holds an instruction whose jumps land, and gotos follow exactly the
  // assignments.
  predicate Closed(code: Code, w: Window, lo: int, hi: int) {
    forall l {:trigger ClosedAt(code, w, lo, hi, l)} | lo <= l < hi :: ClosedAt(code, w, lo, hi, l)
  }

  predicate ClosedAt(code: Code, w: Window, lo: int, hi: int, l: int) {
    && l in code
    && JumpsLand(code, w, code[l])
    && (code[l].Goto? ==> lo < l && l - 1 in code && (code[l - 1].Assign? || code[l - 1].Havoc?))
    && (code[l].Assign? || code[l].Havoc? ==> l + 1 < hi && l + 1 in code && code[l + 1].Goto?)
  }

  lemma {:induction false} ClosedConcat(code: Code, w: Window, lo: int, mid: int, hi: int)
    requires lo <= mid <= hi && Closed(code, w, lo, mid) && Closed(code, w, mid, hi)
    ensures Closed(code, w, lo, hi)
  {
    forall l {:trigger ClosedAt(code, w, lo, hi, l)} | lo <= l < hi ensures ClosedAt(code, w, lo, hi, l) {
      if l < mid { assert ClosedAt(code, w, lo, mid, l); } else { assert ClosedAt(code, w, mid, hi, l); }
    }
  }

  // A closed body behind a branching instruction.
  lemma {:induction false} HeadClosed(code: Code, w: Window, lo: int, hi: int)
    requires lo < hi && lo in code && !code[lo].Goto? && !code[lo].Assign? && !code[lo].Havoc?
    requires JumpsLand(code, w, code[lo]) && Closed(code, w, lo + 1, hi)
    ensures Closed(code, w, lo, hi)
  {
    assert ClosedAt(code, w, lo, lo + 1, lo);
    ClosedConcat(code, w, lo, lo + 1, hi);
  }

  // Code with a continuation and an end that can be jumped to can be jumped to itself, and so can
  // the target of its last jump.
  lemma {:induction false} CodedClosed(code: Code, w: Window, c: Core, lo: int, next: int)
    requires Coded(code, c, lo, next) && w.lo <= lo && lo + Size(c) <= w.hi
    requires Lands(code, w, next) && Lands(code, w, lo + Size(c))
    ensures Closed(code, w, lo, lo + Size(c))
    ensures Lands(code, w, lo) && Lands(code, w, LastTarget(c, lo, next))
    decreases c, 1
  {
    match c
    case CIf(_, _, _) => IfClosed(code, w, c, lo, next);
    case CUnless(_, _) => BodyClosed(code, w, c, lo, next);
    case CCopy(_, _, _) => CopyClosed(code, w, c, lo, next);
    case CWhile(_, _) => BodyClosed(code, w, c, lo, next);
    case CAssign(_, _) =>
    case CCall(_, _, _) =>
    case CSkip =>
  }

  lemma {:induction false} IfClosed(code: Code, w: Window, c: Core, lo: int, next: int)
    requires c.CIf? && Coded(code, c, lo, next) && w.lo <= lo && lo + Size(c) <= w.hi
    requires Lands(code, w, next) && Lands(code, w, lo + Size(c))
    ensures Closed(code, w, lo, lo + Size(c))
    ensures Lands(code, w, lo) && Lands(code, w, LastTarget(c, lo, next))
    decreases c, 0
  {
    var CIf(_, thn, els) := c;
    var mid, hi := lo + 1 + SizeList(thn), lo + Size(c);
    if els != [] {
      CodedListClosed(code, w, els, mid, next);
    }
    CodedListClosed(code, w, thn, lo + 1, next);
    if els != [] {
      ClosedConcat(code, w, lo + 1, mid, hi);
    }
    HeadClosed(code, w, lo, hi);
  }

  lemma {:induction false} BodyClosed(code: Code, w: Window, c: Core, lo: int, next: int)
    requires (c.CUnless? || c.CWhile?) && Coded(code, c, lo, next) && w.lo <= lo && lo + Size(c) <= w.hi
    requires Lands(code, w, next) && Lands(code, w, lo + Size(c))
    ensures Closed(code, w, lo, lo + Size(c))
    ensures Lands(code, w, lo) && Lands(code, w, LastTarget(c, lo, next))
    decreases c, 0
  {
    CodedListClosed(code, w, c.body, lo + 1, if c.CWhile? then lo else next);
    HeadClosed(code, w, lo, lo + Size(c));
  }

  lemma {:induction false} CopyClosed(code: Code, w: Window, c: Core, lo: int, next: int)
    requires c.CCopy? && Coded(code, c, lo, next) && w.lo <= lo && lo + Size(c) <= w.hi
    requires Lands(code, w, next) && Lands(code, w, lo + Size(c))
    ensures Closed(code, w, lo, lo + Size(c))
    ensures Lands(code, w, lo) && Lands(code, w, LastTarget(c, lo, next))
    decreases c, 0
  {
    var CCopy(_, thn, _) := c;
    var mid, hi := lo + 1 + SizeList(thn), lo + Size(c);
    CodedListClosed(code, w, thn, lo + 1, next);
    HeadClosed(code, w, mid, hi);
    ClosedConcat(code, w, lo + 1, mid, hi);
    HeadClosed(code, w, lo, hi);
  }

  lemma {:induction false} CodedListClosed(code: Code, w: Window, cs: seq<Core>, lo: int, next: int)
    requires CodedList(code, cs, lo, next) && w.lo <= lo && lo + SizeList(cs) <= w.hi
    requires Lands(code, w, next) && Lands(code, w, lo + SizeList(cs))
    ensures Closed(code, w, lo, lo + SizeList(cs))
    ensures Lands(code, w, lo) && Lands(code, w, LastTargetList(cs, lo, next))
    decreases cs, 2
  {
    if |cs| == 1 {
      assert cs[1..] == [];
      CodedClosed(code, w, cs[0], lo, next);
    } else if |cs| > 1 {
      var mid, hi := lo + Size(cs[0]), lo + SizeList(cs);
      CodedListClosed(code, w, cs[1..], mid, next);
      CodedClosed(code, w, cs[0], lo, mid);
      ClosedConcat(code, w, lo, mid, hi);
    }
  }

  // ---------- an IF with ELSIF, arm by arm ----------

  function SizeArms(arms: seq<CoreArm>): nat {
    if arms == [] then 0 else 1 + SizeList(arms[0].body) + SizeArms(arms[1..])
  }

  // Every arm's condition, if false, goes on to the label after the arm.
  predicate ArmsLaid(code: Code, arms: seq<CoreArm>, lo: int, next: int) {
    arms == [] ||
    var mid := lo + 1 + SizeList(arms[0].body);
    && arms[0].body != []
    && lo in code && code[lo] == IfGoto(arms[0].cond, lo + 1, mid)
    && CodedList(code, arms[0].body, lo + 1, next)
    && ArmsLaid(code, arms[1..], mid, next)
  }

  lemma {:induction false} SizeArm(arm: CoreArm)
    ensures [arm][1..] == [] && SizeArms([arm]) == 1 + SizeList(arm.body)
  {
    assert [arm][1..] == [];
    assert SizeArms([]) == 0;
  }

  lemma {:induction false} ArmsSnoc(code: Code, arms: seq<CoreArm>, arm: CoreArm, lo: int, next: int)
    requires ArmsLaid(code, arms, lo, next) && ArmsLaid(code, [arm], lo + SizeArms(arms), next)
    ensures ArmsLaid(code, arms + [arm], lo, next)
    ensures SizeArms(arms + [arm]) == SizeArms(arms) + 1 + SizeList(arm.body)
  {
    if arms == [] {
      assert arms + [arm] == [arm];
      assert [arm][1..] == [];
    } else {
      assert (arms + [arm])[1..] == arms[1..] + [arm];
      ArmsSnoc(code, arms[1..], arm, lo + 1 + SizeList(arms[0].body), next);
    }
  }

  lemma {:induction false} ArmsSplit(code: Code, arms: seq<CoreArm>, arm: CoreArm, lo: int, next: int)
    requires ArmsLaid(code, arms + [arm], lo, next)
    ensures ArmsLaid(code, arms, lo, next) && ArmsLaid(code, [arm], lo + SizeArms(arms), next)
    ensures SizeArms(arms + [arm]) == SizeArms(arms) + 1 + SizeList(arm.body)
  {
    if arms == [] {
      assert arms + [arm] == [arm];
      assert [arm][1..] == [];
    } else {
      assert (arms + [arm])[1..] == arms[1..] + [arm];
      ArmsSplit(code, arms[1..], arm, lo + 1 + SizeList(arms[0].body), next);
    }
  }

  lemma {:induction false} ArmsFrame(a: Code, b: Code, arms: seq<CoreArm>, lo: int, next: int)
    requires ArmsLaid(a, arms, lo, next) && Agree(a, b, lo, lo + SizeArms(arms))
    ensures ArmsLaid(b, arms, lo, next)
  {
    if arms != [] {
      CodedListFrame(a, b, arms[0].body, lo + 1, next);
      ArmsFrame(a, b, arms[1..], lo + 1 + SizeList(arms[0].body), next);
    }
  }

  // Arms followed by the code of `els` are the code of the nested IF.
  lemma {:induction false} ArmsNest(code: Code, arms: seq<CoreArm>, els: seq<Core>, lo: int, next: int)
    requires ArmsLaid(code, arms, lo, next)
    requires els != [] && CodedList(code, els, lo + SizeArms(arms), next)
    ensures CodedList(code, Nest(arms, els), lo, next)
    ensures SizeList(Nest(arms, els)) == SizeArms(arms) + SizeList(els)
  {
    if arms != [] {
      ArmsNest(code, arms[1..], els, lo + 1 + SizeList(arms[0].body), next);
      SizeOne(CIf(arms[0].cond, arms[0].body, Nest(arms[1..], els)));
    }
  }

  lemma {:induction false} SizeOne(c: Core)
    ensures SizeList([c]) == Size(c)
  {
    assert [c][1..] == [];
  }

  lemma {:induction false} NestSnoc(arms: seq<CoreArm>, arm: CoreArm, els: seq<Core>)
    requires !Copies(arms + [arm], els)
    ensures Nest(arms + [arm], els) == Nest(arms, [CIf(arm.cond, arm.body, els)])
  {
    if arms == [] {
      assert arms + [arm] == [arm];
      assert [arm][1..] == [];
      assert Nest([], els) == els;
    } else {
      assert (arms + [arm])[1..] == arms[1..] + [arm];
      NestSnoc(arms[1..], arm, els);
    }
  }

  // The same for a last arm without code, which forms one element with the arm before it.
  lemma {:induction false} NestCopy(arms: seq<CoreArm>, last: CoreArm, arm: CoreArm)
    requires EndingOfList(arm.body) == Nothing && EndingOfList(last.body) != Nothing
    ensures Nest(arms + [last] + [arm], []) == Nest(arms, [CCopy(last.cond, last.body, arm.cond)])
  {
    var all := arms + [last] + [arm];
    if arms == [] {
      assert all == [last, arm];
    } else {
      assert all[1..] == arms[1..] + [last] + [arm];
      NestCopy(arms[1..], last, arm);
    }
  }
}
