// The compiler from statements to labelled goto code with backpatching
// (ahorn/src/compiler/compiler.cpp, Compiler::PouCompiler).

module PouCompiler {
  import opened Ir
  import opened StructuredText
  import opened Plan
  import opened GotoCode
  import opened Machines
  import opened CaseExpression

  // `before` grew into `after` by the code of `plan`, laid out in the labels from lo up to hi.
  ghost predicate Grown(before: Code, lo: int, after: Code, hi: int, plan: seq<Core>, next: int) {
    && hi == lo + SizeList(plan)
    && Extends(before, after)
    && (forall l | l in after :: l in before || lo <= l < hi)
    && CodedList(after, plan, lo, next)
  }

  ghost predicate Extends(before: Code, after: Code) {
    forall l | l in before :: l in after && after[l] == before[l]
  }

  lemma {:induction false} GrownNothing(code: Code, lo: int)
    ensures Grown(code, lo, code, lo, [], lo)
  {
  }

  lemma {:induction false} GrownSkip(code: Code, lo: int, next: int)
    ensures Grown(code, lo, code, lo, [CSkip], next)
  {
    SizeOne(CSkip);
  }

  lemma {:induction false} GrownUnchanged(before: Code, lo: int, after: Code, hi: int, plan: seq<Core>, next: int)
    requires Grown(before, lo, after, hi, plan, next) && EndingOfList(plan) == Nothing
    ensures after == before && hi == lo
  {
    SizeEndingList(plan);
    forall l
      ensures l in after <==> l in before
      ensures l in before ==> after[l] == before[l]
    {
    }
    assert after.Keys == before.Keys;
  }

  lemma {:induction false} GrownAppend(a: Code, lo: int, b: Code, mid: int, p: seq<Core>, c: Code, hi: int,
        q: seq<Core>, next: int)
    requires Grown(a, lo, b, mid, p, mid) && Grown(b, mid, c, hi, q, next)
    ensures Grown(a, lo, c, hi, p + q, next)
  {
    SizeAppend(p, q);
    CodedListFrame(b, c, p, lo, mid);
    CodedAppend(c, p, q, lo, next);
  }

  // No jump of the instruction goes to a label below `bound`.
  predicate TargetsFrom(i: Instr, bound: int) {
    match i
    case IfGoto(_, t, f) => bound <= t && bound <= f
    case WhileGoto(_, b, x) => bound <= b && bound <= x
    case Call(_, _, intra, _) => bound <= intra
    case Goto(l) => bound <= l
    case _ => true
  }

  predicate Bounded(code: Code, bound: int) {
    forall l | l in code :: TargetsFrom(code[l], bound)
  }

  predicate Below(code: Code, hi: int) {
    forall l | l in code :: 0 <= l < hi
  }

  // Backpatching a placeholder that is newer than every jump in `before` changes new code only.
  lemma {:induction false} GrownPatch(before: Code, lo: int, after: Code, hi: int, plan: seq<Core>, next: int,
        placeholder: int, target: int)
    requires Grown(before, lo, after, hi, plan, next) && placeholder < 0 <= lo
    requires Bounded(before, placeholder + 1)
    ensures Grown(before, lo, Patch(after, placeholder, target), hi, plan, PatchTarget(next, placeholder, target))
  {
    CodedListPatch(after, plan, lo, next, placeholder, target);
  }

  lemma {:induction false} PatchNothing(code: Code, placeholder: int, target: int)
    requires Bounded(code, placeholder + 1)
    ensures Patch(code, placeholder, target) == code
  {
    forall l | l in code ensures PatchInstr(code[l], placeholder, target) == code[l] {
      assert TargetsFrom(code[l], placeholder + 1);
    }
  }

  lemma {:induction false} CallLaid(before: Code, lo: int, after: Code, hi: int, call: Core, post: seq<Core>, next: int)
    requires call.CCall? && lo !in after
    requires if post == [] then after == before && hi == lo + 1 else Grown(before, lo + 1, after, hi, post, next)
    ensures var i := Call(call.instance, call.pou, if post == [] then next else lo + 1, call.entry);
            Grown(before, lo, after[lo := i], hi, [call] + post, next)
  {
    var code := after[lo := Call(call.instance, call.pou, if post == [] then next else lo + 1, call.entry)];
    SizeOne(call);
    SizeAppend([call], post);
    if post == [] {
      assert [call] + post == [call];
      assert Coded(code, call, lo, next);
    } else {
      CodedListFrame(after, code, post, lo + 1, next);
      assert Coded(code, call, lo, lo + 1);
      CodedAppend(code, [call], post, lo, next);
    }
  }

  lemma {:induction false} LoopLaid(before: Code, lo: int, after: Code, hi: int, cond: Expr, plan: seq<Core>, exit: int)
    requires plan != [] && Grown(before, lo + 1, after, hi, plan, lo) && lo !in after
    ensures Grown(before, lo, after[lo := WhileGoto(cond, lo + 1, exit)], hi, [CWhile(cond, plan)], exit)
  {
    var code := after[lo := WhileGoto(cond, lo + 1, exit)];
    CodedListFrame(after, code, plan, lo + 1, lo);
    SizeOne(CWhile(cond, plan));
    assert Coded(code, CWhile(cond, plan), lo, exit);
  }

  // ---------- laying out an IF arm by arm ----------

  ghost predicate GrownArms(before: Code, lo: int, after: Code, hi: int, arms: seq<CoreArm>, next: int) {
    && hi == lo + SizeArms(arms)
    && Extends(before, after)
    && (forall l | l in after :: l in before || lo <= l < hi)
    && ArmsLaid(after, arms, lo, next)
  }

  lemma {:induction false} ArmLaid(before: Code, lo: int, after: Code, hi: int, arm: CoreArm, next: int)
    requires arm.body != [] && Grown(before, lo + 1, after, hi, arm.body, next) && lo !in after
    ensures GrownArms(before, lo, after[lo := IfGoto(arm.cond, lo + 1, hi)], hi, [arm], next)
  {
    var code := after[lo := IfGoto(arm.cond, lo + 1, hi)];
    CodedListFrame(after, code, arm.body, lo + 1, next);
    SizeArm(arm);
    assert ArmsLaid(code, [arm], lo, next);
  }

  lemma {:induction false} IfLaid(before: Code, lo: int, after: Code, hi: int, cond: Expr, plan: seq<Core>, next: int)
    requires plan != [] && Grown(before, lo + 1, after, hi, plan, next) && lo !in after
    ensures Grown(before, lo, after[lo := IfGoto(cond, lo + 1, LastTargetList(plan, lo + 1, next))], hi,
            [CIf(cond, plan, [])], next)
  {
    var code := after[lo := IfGoto(cond, lo + 1, LastTargetList(plan, lo + 1, next))];
    CodedListFrame(after, code, plan, lo + 1, next);
    SizeOne(CIf(cond, plan, []));
    assert Coded(code, CIf(cond, plan, []), lo, next);
  }

  lemma {:induction false} UnlessLaid(before: Code, lo: int, after: Code, hi: int, cond: Expr, plan: seq<Core>,
        next: int)
    requires plan != [] && Grown(before, lo + 1, after, hi, plan, next) && lo !in after
    ensures Grown(before, lo, after[lo := IfGoto(cond, LastTargetList(plan, lo + 1, next), lo + 1)], hi,
            [CUnless(cond, plan)], next)
  {
    var code := after[lo := IfGoto(cond, LastTargetList(plan, lo + 1, next), lo + 1)];
    CodedListFrame(after, code, plan, lo + 1, next);
    SizeOne(CUnless(cond, plan));
    assert Coded(code, CUnless(cond, plan), lo, next);
  }

  lemma {:induction false} ArmsGrow(a: Code, lo: int, b: Code, mid: int, arms: seq<CoreArm>, c: Code, hi: int,
        arm: CoreArm, next: int)
    requires GrownArms(a, lo, b, mid, arms, next) && GrownArms(b, mid, c, hi, [arm], next)
    ensures GrownArms(a, lo, c, hi, arms + [arm], next)
  {
    ArmsFrame(b, c, arms, lo, next);
    ArmsSnoc(c, arms, arm, lo, next);
    SizeArm(arm);
  }

  // The false branch of a last arm without code leads where the arm before it does.
  lemma {:induction false} CopyLaid(a: Code, lo: int, b: Code, mid: int, front: seq<CoreArm>, p: CoreArm, arm: CoreArm,
        code: Code, next: int)
    requires GrownArms(a, lo, b, mid, front + [p], next) && mid !in b
    requires EndingOfList(arm.body) == Nothing && EndingOfList(p.body) == InGoto
    requires code == b[mid := IfGoto(arm.cond, mid + 1, LastTargetList(p.body, mid - SizeList(p.body), next))]
    ensures Grown(a, lo, code, mid + 1, Nest(front + [p] + [arm], []), next)
  {
    var copy, at := CCopy(p.cond, p.body, arm.cond), lo + SizeArms(front);
    ArmsFrame(b, code, front + [p], lo, next);
    ArmsSplit(code, front, p, lo, next);
    CopyCoded(code, p, arm.cond, at, mid, next);
    SizeOne(copy);
    ArmsNest(code, front, [copy], lo, next);
    NestCopy(front, p, arm);
  }

  lemma {:induction false} CopyCoded(code: Code, p: CoreArm, other: Expr, at: int, mid: int, next: int)
    requires ArmsLaid(code, [p], at, next) && mid == at + 1 + SizeList(p.body) && EndingOfList(p.body) == InGoto
    requires mid in code
            && code[mid] == IfGoto(other, mid + 1, LastTargetList(p.body, mid - SizeList(p.body), next))
    ensures CodedList(code, [CCopy(p.cond, p.body, other)], at, next)
    ensures Size(CCopy(p.cond, p.body, other)) == 2 + SizeList(p.body)
  {
    assert [p][0] == p;
  }

  // Where the last jump in front of a last arm's header is found: in its list, or in the list before.
  function LastList(prior: seq<CoreArm>, plan: seq<Core>): seq<Core> {
    if EndingOfList(plan) == Nothing && prior != [] then prior[|prior| - 1].body else plan
  }

  lemma {:induction false} LastListLaid(a: Code, lo: int, b: Code, mid: int, prior: seq<CoreArm>, c: Code, hi: int,
        plan: seq<Core>, next: int)
    requires GrownArms(a, lo, b, mid, prior, next) && Grown(b, mid + 1, c, hi, plan, next)
    requires Below(a, lo) && 0 <= lo && EndingOfList(LastList(prior, plan)) != Nothing
    ensures var list := LastList(prior, plan);
            var from := if list == plan then mid + 1 else mid - SizeList(list);
            && 0 <= from && CodedList(c, list, from, next) && (forall k | k in c :: k < from + SizeList(list))
  {
    SizeEndingList(plan);
    if LastList(prior, plan) != plan {
      var front, p := prior[..|prior| - 1], prior[|prior| - 1];
      assert prior == front + [p];
      GrownUnchanged(b, mid + 1, c, hi, plan, next);
      ArmsSplit(c, front, p, lo, next);
    }
  }

  lemma {:induction false} ArmsClose(a: Code, lo: int, b: Code, mid: int, arms: seq<CoreArm>, c: Code, hi: int,
        arm: CoreArm, next: int)
    requires GrownArms(a, lo, b, mid, arms, next)
    requires Grown(b, mid, c, hi, [CIf(arm.cond, arm.body, [])], next) && !Copies(arms + [arm], [])
    ensures Grown(a, lo, c, hi, Nest(arms + [arm], []), next)
  {
    ArmsFrame(b, c, arms, lo, next);
    ArmsNest(c, arms, [CIf(arm.cond, arm.body, [])], lo, next);
    NestSnoc(arms, arm, []);
    SizeOne(CIf(arm.cond, arm.body, []));
  }

  lemma {:induction false} LastArmLaid(a: Code, lo: int, b: Code, mid: int, prior: seq<CoreArm>, c: Code, hi: int,
        arm: CoreArm, next: int, target: int, code: Code)
    requires GrownArms(a, lo, b, mid, prior, next) && Grown(b, mid + 1, c, hi, arm.body, next)
    requires arm.body != [] && mid !in c
    requires EndingOfList(LastList(prior, arm.body)) == InGoto || EndingOfList(arm.body) != Nothing
    requires var list := LastList(prior, arm.body);
            target == LastTargetList(list, if list == arm.body then mid + 1 else mid - SizeList(list), next)
    requires code == c[mid := IfGoto(arm.cond, mid + 1, target)]
    ensures Grown(a, lo, code, hi, Nest(prior + [arm], []), next)
  {
    if EndingOfList(arm.body) == Nothing {
      var front, p := prior[..|prior| - 1], prior[|prior| - 1];
      assert prior == front + [p];
      GrownUnchanged(b, mid + 1, c, hi, arm.body, next);
      CopyLaid(a, lo, b, mid, front, p, arm, code, next);
    } else {
      IfLaid(b, mid, c, hi, arm.cond, arm.body, next);
      ArmsClose(a, lo, b, mid, prior, code, hi, arm, next);
    }
  }

  // The first k of the planned arms are there; with the last one the selection is closed, unless ELSE follows.
  ghost predicate ArmsSoFar(before: Code, lo: int, after: Code, hi: int, prior: seq<CoreArm>, planned: seq<CoreArm>,
        k: nat, elseFollows: bool, next: int)
    requires k <= |planned|
  {
    if k < |planned| || elseFollows then GrownArms(before, lo, after, hi, prior + planned[..k], next)
    else Grown(before, lo, after, hi, Nest(prior + planned, []), next)
  }

  // The stack inside a selection, which was `stack` in front of it: the last statement of a nested list
  // uses the placeholder on top, any other one has a placeholder that no jump in `before` refers to.
  ghost predicate Entered(placeholders: seq<int>, stack: seq<int>, last: bool, before: Code) {
    && placeholders != []
    && if last then placeholders == stack
       else
         var n := |placeholders| - 1;
         placeholders[..n] == stack && Bounded(before, placeholders[n] + 1)
  }

  // The statements are parts of `owner`, so that compiling them terminates.
  ghost predicate Inside(body: seq<Stmt>, owner: Stmt) {
    forall i | 0 <= i < |body| :: body[i] < owner
  }

  predicate SelectionParts(thn: seq<Stmt>, elifs: seq<Arm>, els: seq<Stmt>, entries: map<string, int>) {
    && SelectionSupported(entries, thn, ArmBodies(elifs), els)
    && SupportedList(entries, thn) && SupportedList(entries, els)
    && (forall i | 0 <= i < |elifs| :: SupportedList(entries, elifs[i].body))
  }

  ghost predicate PartsInside(thn: seq<Stmt>, elifs: seq<Arm>, els: seq<Stmt>, owner: Stmt) {
    Inside(thn, owner) && Inside(els, owner) && forall i | 0 <= i < |elifs| :: Inside(elifs[i].body, owner)
  }

  function PlanParts(cond: Expr, thn: seq<Stmt>, elifs: seq<Arm>, els: seq<Stmt>,
        entries: map<string, int>): seq<Core> {
    PlanSelection(cond, PlanList(entries, thn), PlanArms(entries, elifs), PlanList(entries, els))
  }

  // The last instruction in front of the end of a last ELSIF list is a goto.
  predicate LeadsBehind(prior: seq<CoreArm>, plan: seq<Core>) {
    EndingOfList(LastList(prior, plan)) == InGoto
  }

  // The last instruction of the plan of a list is a goto.
  predicate LeadsOn(entries: map<string, int>, body: seq<Stmt>) {
    EndingOfList(PlanList(entries, body)) == InGoto
  }

  lemma {:induction false} ArmsSupported(thn: seq<Stmt>, elifs: seq<Arm>, els: seq<Stmt>, entries: map<string, int>)
    requires SelectionParts(thn, elifs, els, entries) && !AllEmpty(ArmBodies(elifs))
    ensures elifs != [] && forall i | 0 <= i < |elifs| :: elifs[i].body != []
    ensures els == [] ==> LastLeads(entries, thn, elifs)
  {
    var bodies, n := ArmBodies(elifs), |elifs| - 1;
    forall i | 0 <= i < |elifs| ensures elifs[i].body != [] {
      assert bodies[i] == elifs[i].body;
    }
    assert n > 0 ==> bodies[n - 1] == elifs[n - 1].body;
  }

  // For the last of the arms, with the THEN list, if there is one, in front of them.
  predicate LastLeads(entries: map<string, int>, thn: seq<Stmt>, elifs: seq<Arm>)
    requires elifs != []
  {
    var n := |elifs| - 1;
    Behind(EndingOfList(PlanList(entries, if n > 0 then elifs[n - 1].body else thn)),
           EndingOfList(PlanList(entries, elifs[n].body))) == InGoto
  }

  lemma {:induction false} ArmsLead(entries: map<string, int>, thn: seq<Stmt>, elifs: seq<Arm>, prior: seq<CoreArm>,
        planned: seq<CoreArm>, n: int)
    requires elifs != [] && n == |elifs| - 1 && planned == PlanArms(entries, elifs) && LastLeads(entries, thn, elifs)
    requires if thn == [] then prior == [] else |prior| == 1 && prior[0].body == PlanList(entries, thn)
    ensures LeadsBehind(prior + planned[..n], planned[n].body)
  {
    var all := prior + planned[..n];
    if n > 0 {
      assert all[|all| - 1] == planned[n - 1];
    } else {
      assert all == prior;
    }
  }

  // What compiling the k-th ELSIF needs: its list is supported, and the last one leads on if no ELSE follows.
  ghost predicate ElseIfOk(entries: map<string, int>, elifs: seq<Arm>, k: int, elseFollows: bool, prior: seq<CoreArm>,
        owner: Stmt)
    requires 0 <= k < |elifs|
  {
    && elifs[k].body != [] && SupportedList(entries, elifs[k].body) && Inside(elifs[k].body, owner)
    && (k + 1 == |elifs| && !elseFollows ==>
          LeadsBehind(prior + PlanArms(entries, elifs)[..k], PlanList(entries, elifs[k].body)))
  }

  lemma {:induction false} ElseIfsOk(entries: map<string, int>, thn: seq<Stmt>, elifs: seq<Arm>, els: seq<Stmt>,
        elseFollows: bool, prior: seq<CoreArm>, owner: Stmt)
    requires elseFollows <==> els != []
    requires SelectionParts(thn, elifs, els, entries) && PartsInside(thn, elifs, els, owner) && elifs != []
    requires (forall i | 0 <= i < |elifs| :: elifs[i].body != []) && (els == [] ==> LastLeads(entries, thn, elifs))
    requires if thn == [] then prior == [] else |prior| == 1 && prior[0].body == PlanList(entries, thn)
    ensures forall k {:trigger ElseIfOk(entries, elifs, k, elseFollows, prior, owner)} | 0 <= k < |elifs| ::
              ElseIfOk(entries, elifs, k, elseFollows, prior, owner)
  {
    if els == [] {
      ArmsLead(entries, thn, elifs, prior, PlanArms(entries, elifs), |elifs| - 1);
    }
  }

  lemma {:induction false} PlanNothing(cond: Expr, thn: seq<Stmt>, elifs: seq<Arm>, els: seq<Stmt>,
        entries: map<string, int>)
    ensures thn == [] && AllEmpty(ArmBodies(elifs)) && els == [] <==>
            PlanParts(cond, thn, elifs, els, entries) == [CSkip]
  {
    PlanNoCode(entries, elifs);
  }

  // The plan of a selection as one chain of arms.
  lemma {:induction false} PlanChain(cond: Expr, thn: seq<Stmt>, elifs: seq<Arm>, els: seq<Stmt>,
        entries: map<string, int>)
    ensures var arm, planned := CoreArm(cond, PlanList(entries, thn)), PlanArms(entries, elifs);
            var otherwise := PlanList(entries, els);
            var plan := PlanParts(cond, thn, elifs, els, entries);
            && (thn != [] && AllEmpty(ArmBodies(elifs)) ==> plan == Nest([arm], otherwise))
            && (thn != [] && !AllEmpty(ArmBodies(elifs)) ==> plan == Nest([arm] + planned, otherwise))
            && (thn == [] && !AllEmpty(ArmBodies(elifs)) ==> plan == Nest(planned, otherwise))
            && (thn == [] && AllEmpty(ArmBodies(elifs)) && els != [] ==>
                  plan == [CUnless(if elifs != [] then elifs[|elifs| - 1].cond else cond, otherwise)])
  {
    PlanNoCode(entries, elifs);
    var arm, planned := CoreArm(cond, PlanList(entries, thn)), PlanArms(entries, elifs);
    assert [arm] + [] == [arm] && [] + planned == planned;
  }

  datatype Module = Module(code: Code, entry: int, exit: int)

  // A program organisation unit: the types of its instance variables, and its statements.
  datatype Pou = Pou(callees: seq<string>, body: seq<Stmt>)

  function EntriesOf(modules: map<string, Module>): map<string, int> {
    map m | m in modules :: modules[m].entry
  }

  function CalleeEntries(callees: seq<string>): map<string, int> {
    map c | c in callees :: 0
  }

  // No unit calls itself, directly or not, and a unit only invokes the types of its variables.
  ghost predicate Acyclic(project: map<string, Pou>, rank: map<string, nat>) {
    forall n | n in project ::
      && n in rank
      && CalleesRanked(project, rank, project[n].callees, rank[n])
      && SupportedList(CalleeEntries(project[n].callees), project[n].body)
  }

  ghost predicate CalleesRanked(project: map<string, Pou>, rank: map<string, nat>, callees: seq<string>, bound: nat) {
    forall k | 0 <= k < |callees| :: callees[k] in project && callees[k] in rank && rank[callees[k]] < bound
  }

  // What compiling a unit adds is the unit and units ranked below it.
  ghost predicate AddedUpTo(before: map<string, Module>, after: map<string, Module>, rank: map<string, nat>,
        bound: int) {
    forall n | n in after && n !in before :: n in rank && rank[n] <= bound
  }

  ghost predicate Extended(before: map<string, Module>, after: map<string, Module>) {
    forall n | n in before :: n in after && after[n] == before[n]
  }

  ghost predicate CompiledUpTo(callees: seq<string>, n: nat, modules: map<string, Module>)
    requires n <= |callees|
  {
    forall k | 0 <= k < n :: callees[k] in modules
  }

  lemma {:induction false} OneMoreCompiled(callees: seq<string>, n: nat, before: map<string, Module>,
        after: map<string, Module>)
    requires n < |callees| && CompiledUpTo(callees, n, before) && Extended(before, after) && callees[n] in after
    ensures CompiledUpTo(callees, n + 1, after)
  {
  }

  // The module holds the code of the body between its entry and its exit label.
  ghost predicate ModuleOk(entries: map<string, int>, body: seq<Stmt>, m: Module) {
    && 0 <= m.entry < m.exit
    && (forall l | l in m.code :: m.entry < l < m.exit)
    && SupportedList(entries, body)
    && m.exit == m.entry + 1 + SizeList(PlanList(entries, body))
    && CodedList(m.code, PlanList(entries, body), m.entry + 1, m.exit)
  }

  // Every module is laid out in labels of its own, after the modules it calls.
  ghost predicate ModulesOk(project: map<string, Pou>, modules: map<string, Module>, freeLabel: int) {
    && (forall n | n in modules :: ModuleAt(project, modules, EntriesOf(modules), n))
    && (forall n | n in modules :: modules[n].exit < freeLabel)
    && (forall a, b | a in modules && b in modules && a != b :: Apart(modules[a], modules[b]))
  }

  ghost predicate ModuleAt(project: map<string, Pou>, modules: map<string, Module>, entries: map<string, int>,
        n: string)
    requires n in modules
  {
    && n in project
    && ModuleOk(entries, project[n].body, modules[n])
    && CalleesBelow(project[n].callees, modules, modules[n].entry)
  }

  predicate Apart(a: Module, b: Module) {
    a.exit < b.entry || b.exit < a.entry
  }

  ghost predicate CalleesBelow(callees: seq<string>, modules: map<string, Module>, entry: int) {
    forall k | 0 <= k < |callees| :: callees[k] in modules && modules[callees[k]].exit < entry
  }

  // How a plan ends does not depend on the entry labels.
  lemma {:induction false} PlanEnding(a: map<string, int>, b: map<string, int>, ss: seq<Stmt>)
    ensures EndingOfList(PlanList(a, ss)) == EndingOfList(PlanList(b, ss))
    decreases ss, 1
  {
    if ss != [] {
      PlanEndingOne(a, b, ss[0]);
      PlanEnding(a, b, ss[1..]);
      EndingAppend(PlanOf(a, ss[0]), PlanList(a, ss[1..]));
      EndingAppend(PlanOf(b, ss[0]), PlanList(b, ss[1..]));
    }
  }

  lemma {:induction false} PlanEndingOne(a: map<string, int>, b: map<string, int>, s: Stmt)
    ensures EndingOfList(PlanOf(a, s)) == EndingOfList(PlanOf(b, s))
    decreases s, 0
  {
    match s
    case If(c, thn, elifs, els) =>
      PlanEnding(a, b, thn);
      PlanEnding(a, b, els);
      forall k | 0 <= k < |elifs|
        ensures SameEnding(PlanArms(a, elifs)[k].body, PlanArms(b, elifs)[k].body)
      {
        PlanEnding(a, b, elifs[k].body);
      }
      SelectionEnding(c, PlanList(a, thn), PlanArms(a, elifs), PlanList(a, els), PlanList(b, thn),
            PlanArms(b, elifs), PlanList(b, els));
    case While(_, body) => PlanEnding(a, b, body);
    case Case(sel, arms, els) =>
      if arms != [] {
        var rest, c := arms[1..], CaseCondition(sel, arms[0].values);
        PlanEnding(a, b, arms[0].body);
        PlanEnding(a, b, els);
        forall k | 0 <= k < |rest|
          ensures SameEnding(PlanCaseArms(a, sel, rest)[k].body, PlanCaseArms(b, sel, rest)[k].body)
        {
          PlanEnding(a, b, rest[k].body);
        }
        SelectionEnding(c, PlanList(a, arms[0].body), PlanCaseArms(a, sel, rest), PlanList(a, els),
                        PlanList(b, arms[0].body), PlanCaseArms(b, sel, rest), PlanList(b, els));
      }
    case Invocation(f, pou, pre, post) =>
      var calla, callb := CCall(f, pou, if pou in a then a[pou] else -1),
            CCall(f, pou, if pou in b then b[pou] else -1);
      CallEnding(PlanBindings(pre), calla, callb, PlanBindings(post));
    case _ =>
  }

  lemma {:induction false} CallEnding(pre: seq<Core>, a: Core, b: Core, post: seq<Core>)
    requires EndingOf(a) == EndingOf(b)
    ensures EndingOfList(pre + [a] + post) == EndingOfList(pre + [b] + post)
  {
    EndingAppend(pre + [a], post);
    EndingAppend(pre + [b], post);
    EndingAppend(pre, [a]);
    EndingAppend(pre, [b]);
    EndingOne(a);
    EndingOne(b);
  }

  predicate SameEnding(a: seq<Core>, b: seq<Core>) {
    (a == [] <==> b == []) && EndingOfList(a) == EndingOfList(b)
  }

  lemma {:induction false} SelectionEnding(cond: Expr, thn: seq<Core>, arms: seq<CoreArm>, els: seq<Core>,
        thn2: seq<Core>, arms2: seq<CoreArm>, els2: seq<Core>)
    requires SameEnding(thn, thn2) && SameEnding(els, els2) && |arms| == |arms2|
    requires forall k | 0 <= k < |arms| :: SameEnding(arms[k].body, arms2[k].body)
    ensures EndingOfList(PlanSelection(cond, thn, arms, els)) == EndingOfList(PlanSelection(cond, thn2, arms2, els2))
  {
    assert NoCode(arms) <==> NoCode(arms2) by {
      assert forall k | 0 <= k < |arms| :: arms[k].body == [] <==> arms2[k].body == [];
    }
    NestEnding(ArmsWithCode(cond, thn, arms), els, ArmsWithCode(cond, thn2, arms2), els2);
    var a, b := PlanSelection(cond, thn, arms, els), PlanSelection(cond, thn2, arms2, els2);
    if ArmsWithCode(cond, thn, arms) == [] {
      assert |a| == 1 && |b| == 1;
      EndingOne(a[0]);
      EndingOne(b[0]);
    }
  }

  lemma {:induction false} NestEnding(arms: seq<CoreArm>, els: seq<Core>, arms2: seq<CoreArm>, els2: seq<Core>)
    requires SameEnding(els, els2) && |arms| == |arms2|
    requires forall k | 0 <= k < |arms| :: SameEnding(arms[k].body, arms2[k].body)
    ensures SameEnding(Nest(arms, els), Nest(arms2, els2))
  {
    if arms != [] {
      NestEnding(arms[1..], els, arms2[1..], els2);
      EndingOne(Nest(arms, els)[0]);
      EndingOne(Nest(arms2, els2)[0]);
    }
  }

  lemma {:induction false} SupportedMore(few: map<string, int>, more: map<string, int>, ss: seq<Stmt>)
    requires few.Keys <= more.Keys && SupportedList(few, ss)
    ensures SupportedList(more, ss)
    decreases ss, 1
  {
    forall i | 0 <= i < |ss| ensures Supported(more, ss[i]) {
      assert Supported(few, ss[i]);
      SupportedMoreOne(few, more, ss[i]);
    }
  }

  lemma {:induction false} SupportedMoreOne(few: map<string, int>, more: map<string, int>, s: Stmt)
    requires few.Keys <= more.Keys && Supported(few, s)
    ensures Supported(more, s)
    decreases s, 0
  {
    match s
    case If(_, thn, elifs, els) =>
      SupportedMore(few, more, thn);
      SupportedMore(few, more, els);
      forall k | 0 <= k < |elifs|
        ensures SupportedList(more, elifs[k].body)
      {
        SupportedMore(few, more, elifs[k].body);
      }
      SelectionMore(few, more, thn, ArmBodies(elifs), els);
    case While(_, body) => SupportedMore(few, more, body);
    case Case(_, arms, els) =>
      SupportedMore(few, more, els);
      forall k | 0 <= k < |arms| ensures SupportedList(more, arms[k].body) { SupportedMore(few, more, arms[k].body); }
      SelectionMore(few, more, arms[0].body, CaseBodies(arms[1..]), els);
    case _ =>
  }

  lemma {:induction false} SelectionMore(few: map<string, int>, more: map<string, int>, thn: seq<Stmt>,
        elifs: seq<seq<Stmt>>, els: seq<Stmt>)
    requires SelectionSupported(few, thn, elifs, els)
    ensures SelectionSupported(more, thn, elifs, els)
  {
    PlanEnding(few, more, thn);
    PlanEnding(few, more, els);
    if elifs != [] {
      PlanEnding(few, more, elifs[|elifs| - 1]);
    }
    if |elifs| > 1 {
      PlanEnding(few, more, elifs[|elifs| - 2]);
    }
  }

  // A plan only depends on the entry labels of the modules it calls.
  lemma {:induction false} PlanMore(few: map<string, int>, more: map<string, int>, ss: seq<Stmt>)
    requires forall n | n in few :: n in more && more[n] == few[n]
    requires SupportedList(few, ss)
    ensures PlanList(more, ss) == PlanList(few, ss)
    decreases ss, 1
  {
    if ss != [] {
      PlanMoreOne(few, more, ss[0]);
      PlanMore(few, more, ss[1..]);
    }
  }

  lemma {:induction false} PlanMoreOne(few: map<string, int>, more: map<string, int>, s: Stmt)
    requires forall n | n in few :: n in more && more[n] == few[n]
    requires Supported(few, s)
    ensures PlanOf(more, s) == PlanOf(few, s)
    decreases s, 0
  {
    match s
    case If(_, thn, elifs, els) =>
      PlanMore(few, more, thn);
      PlanMore(few, more, els);
      forall k | 0 <= k < |elifs|
        ensures PlanArms(more, elifs)[k] == PlanArms(few, elifs)[k]
      {
        PlanMore(few, more, elifs[k].body);
      }
      assert PlanArms(more, elifs) == PlanArms(few, elifs);
    case While(_, body) => PlanMore(few, more, body);
    case Case(sel, arms, els) =>
      var rest := arms[1..];
      PlanMore(few, more, arms[0].body);
      PlanMore(few, more, els);
      forall k | 0 <= k < |rest|
        ensures PlanCaseArms(more, sel, rest)[k] == PlanCaseArms(few, sel, rest)[k]
      {
        PlanMore(few, more, rest[k].body);
      }
      assert PlanCaseArms(more, sel, rest) == PlanCaseArms(few, sel, rest);
    case _ =>
  }

  lemma {:induction false} CalleesDone(project: map<string, Pou>, modules: map<string, Module>, freeLabel: int,
        name: string)
    requires ModulesOk(project, modules, freeLabel) && name in project
    requires forall k | 0 <= k < |project[name].callees| :: project[name].callees[k] in modules
    ensures CalleesBelow(project[name].callees, modules, freeLabel)
  {
  }

  lemma {:induction false} MoreArms(prior: seq<CoreArm>, planned: seq<CoreArm>, k: nat)
    requires k < |planned|
    ensures prior + planned[..k + 1] == prior + planned[..k] + [planned[k]]
    ensures k + 1 == |planned| ==> prior + planned == prior + planned[..k] + [planned[k]]
  {
    assert planned[..k + 1] == planned[..k] + [planned[k]];
    assert k + 1 == |planned| ==> planned == planned[..k + 1];
  }

  // Every module, the new one included, still fits its body when the entries of the new one are known.
  lemma {:induction false} ModuleStays(project: map<string, Pou>, modules: map<string, Module>,
        after: map<string, Module>, n: string, at: Module, entry: int, name: string, m: Module)
    requires ModulesOk(project, modules, entry) && name in project && name !in modules
    requires ModuleOk(EntriesOf(modules), project[name].body, m)
    requires CalleesBelow(project[name].callees, modules, entry) && m.entry == entry
    requires after == modules[name := m] && n in after && at == after[n]
    ensures ModuleAt(project, after, EntriesOf(after), n)
  {
    if n != name { assert ModuleAt(project, modules, EntriesOf(modules), n); }
    ModuleMore(EntriesOf(modules), EntriesOf(after), project[n].body, at);
  }

  lemma {:induction false} ModuleMore(few: map<string, int>, more: map<string, int>, body: seq<Stmt>, m: Module)
    requires ModuleOk(few, body, m) && forall n | n in few :: n in more && more[n] == few[n]
    ensures ModuleOk(more, body, m)
  {
    SupportedMore(few, more, body);
    PlanMore(few, more, body);
  }

  lemma {:induction false} ModuleAdded(project: map<string, Pou>, modules: map<string, Module>, entry: int,
        name: string, m: Module, freeLabel: int)
    requires ModulesOk(project, modules, entry) && name in project && name !in modules
    requires ModuleOk(EntriesOf(modules), project[name].body, m) && m.entry == entry && m.exit < freeLabel
    requires CalleesBelow(project[name].callees, modules, entry)
    ensures ModulesOk(project, modules[name := m], freeLabel)
  {
    var after := modules[name := m];
    forall n | n in after ensures ModuleAt(project, after, EntriesOf(after), n) {
      ModuleStays(project, modules, after, n, after[n], entry, name, m);
    }
    forall a, b | a in after && b in after && a != b ensures Apart(after[a], after[b]) {
      if a != name && b != name { assert Apart(modules[a], modules[b]); }
    }
  }

  class PouCompiler {
    var nameToModule: map<string, Module>
    var labelToInstruction: Code
    var freeLabel: int
    var nextLabelPlaceholder: int
    var nextLabelPlaceholders: seq<int>   // a stack, the top is the last element
    var lastStatement: bool

    ghost predicate Valid()
      reads this
    {
      && 0 <= freeLabel && nextLabelPlaceholder < 0
      && Below(labelToInstruction, freeLabel) && Bounded(labelToInstruction, nextLabelPlaceholder)
      && (forall i | 0 <= i < |nextLabelPlaceholders| :: nextLabelPlaceholder <= nextLabelPlaceholders[i] < 0)
      && (lastStatement ==> nextLabelPlaceholders != [])
    }

    function Entries(): map<string, int>
      reads this
    {
      EntriesOf(nameToModule)
    }

    // Where a statement compiled now continues: the placeholder on top of the stack if it is the last
    // one of a nested list, else the next free label.
    function Continuation(last: bool, free: int): int
      reads this
      requires last ==> nextLabelPlaceholders != []
    {
      if last then nextLabelPlaceholders[|nextLabelPlaceholders| - 1] else free
    }

    constructor ()
      ensures Valid() && !lastStatement && freeLabel == 0
      ensures nameToModule == map[] && labelToInstruction == map[] && nextLabelPlaceholders == []
    {
      nameToModule, labelToInstruction := map[], map[];
      freeLabel, nextLabelPlaceholder, nextLabelPlaceholders := 0, -1, [];
      lastStatement := false;
    }

    method Emplace(l: int, i: Instr)
      requires l !in labelToInstruction
      modifies `labelToInstruction
      ensures labelToInstruction == old(labelToInstruction)[l := i]
    {
      labelToInstruction := labelToInstruction[l := i];
    }

    method VisitAssignment(v: string, e: Expr)
      requires Valid()
      modifies `labelToInstruction, `freeLabel
      ensures Valid()
      ensures Grown(old(labelToInstruction), old(freeLabel), labelToInstruction, freeLabel, [CAssign(v, e)],
                    Continuation(lastStatement, freeLabel))
    {
      if e.NondeterministicConstant? {
        Emplace(freeLabel, Havoc(v));
        freeLabel := freeLabel + 1;
      } else {
        Emplace(freeLabel, Assign(v, e));
        freeLabel := freeLabel + 1;
      }
      if lastStatement {
        Emplace(freeLabel, Goto(nextLabelPlaceholders[|nextLabelPlaceholders| - 1]));
        freeLabel := freeLabel + 1;
      } else {
        var l := freeLabel;
        freeLabel := freeLabel + 1;
        Emplace(l, Goto(freeLabel));
      }
      SizeOne(CAssign(v, e));
    }

    // Reroutes every jump to `placeholder` to the label `next`, walking the instructions in label order.
    method BackPatch(placeholder: int, next: int)
      requires 0 <= freeLabel && Below(labelToInstruction, freeLabel)
      modifies `labelToInstruction
      ensures labelToInstruction == Patch(old(labelToInstruction), placeholder, next)
    {
      for l := 0 to freeLabel
        invariant labelToInstruction.Keys == old(labelToInstruction).Keys
        invariant forall k | k in labelToInstruction ::
                    labelToInstruction[k] == if k < l then PatchInstr(old(labelToInstruction)[k], placeholder, next)
                                             else old(labelToInstruction)[k]
      {
        if l in labelToInstruction {
          var instruction := labelToInstruction[l];
          if instruction.IfGoto? {
            if instruction.thenLabel == placeholder {
              instruction := instruction.(thenLabel := next);
            }
            if instruction.elseLabel == placeholder {
              instruction := instruction.(elseLabel := next);
            }
          }
          if instruction.WhileGoto? && instruction.whileExit == placeholder {
            instruction := instruction.(whileExit := next);
          }
          if instruction.Call? && instruction.intraprocedural == placeholder {
            instruction := instruction.(intraprocedural := next);
          }
          if instruction.Goto? && instruction.target == placeholder {
            instruction := instruction.(target := next);
          }
          labelToInstruction := labelToInstruction[l := instruction];
        }
      }
    }

    // The instruction at the highest label.
    method LastInstruction(ghost highest: int) returns (i: Instr)
      requires highest in labelToInstruction && 0 <= highest < freeLabel
      requires forall k | k in labelToInstruction :: k <= highest
      ensures i == labelToInstruction[highest]
    {
      var l := freeLabel - 1;
      while l !in labelToInstruction
        invariant highest <= l
        decreases l
      {
        l := l - 1;
      }
      i := labelToInstruction[l];
    }

    method VisitBindings(bs: seq<Binding>, last: bool)
      requires Valid() && !lastStatement && (last ==> nextLabelPlaceholders != [])
      modifies `labelToInstruction, `freeLabel, `lastStatement
      ensures Valid() && lastStatement == (last && bs != [])
      ensures Grown(old(labelToInstruction), old(freeLabel), labelToInstruction, freeLabel, PlanBindings(bs),
                    Continuation(last && bs != [], freeLabel))
    {
      GrownNothing(labelToInstruction, freeLabel);
      for i := 0 to |bs|
        invariant Valid() && lastStatement == (last && i == |bs| && bs != [])
        invariant Grown(old(labelToInstruction), old(freeLabel), labelToInstruction, freeLabel, PlanBindings(bs[..i]),
                        Continuation(lastStatement, freeLabel))
      {
        ghost var before, mid := labelToInstruction, freeLabel;
        if i + 1 == |bs| {
          // the target of the parent, in case the invocation is the last statement
          lastStatement := last;
        }
        VisitAssignment(bs[i].v, bs[i].e);
        assert PlanBindings(bs[..i + 1]) == PlanBindings(bs[..i]) + [CAssign(bs[i].v, bs[i].e)];
        GrownAppend(old(labelToInstruction), old(freeLabel), before, mid, PlanBindings(bs[..i]),
                    labelToInstruction, freeLabel, [CAssign(bs[i].v, bs[i].e)], Continuation(lastStatement, freeLabel));
      }
      assert bs[..|bs|] == bs;
    }

    method VisitInvocation(instance: string, pou: string, pre: seq<Binding>, post: seq<Binding>)
      requires Valid() && pou in nameToModule
      modifies `labelToInstruction, `freeLabel, `lastStatement
      ensures Valid() && lastStatement == old(lastStatement)
      ensures Grown(old(labelToInstruction), old(freeLabel), labelToInstruction, freeLabel,
                    PlanBindings(pre) + [CCall(instance, pou, nameToModule[pou].entry)] + PlanBindings(post),
                    Continuation(lastStatement, freeLabel))
    {
      var last := lastStatement;
      if last { lastStatement := false; }
      VisitBindings(pre, false);
      ghost var before, mid := labelToInstruction, freeLabel;
      ghost var rest := [CCall(instance, pou, nameToModule[pou].entry)] + PlanBindings(post);
      VisitCall(instance, pou, post, last);
      GrownAppend(old(labelToInstruction), old(freeLabel), before, mid, PlanBindings(pre),
                  labelToInstruction, freeLabel, rest, Continuation(last, freeLabel));
      assert PlanBindings(pre) + rest ==
             PlanBindings(pre) + [CCall(instance, pou, nameToModule[pou].entry)] + PlanBindings(post);
    }

    // The call and the result assignments.
    method VisitCall(instance: string, pou: string, post: seq<Binding>, last: bool)
      requires Valid() && !lastStatement && pou in nameToModule && (last ==> nextLabelPlaceholders != [])
      modifies `labelToInstruction, `freeLabel, `lastStatement
      ensures Valid() && lastStatement == last
      ensures Grown(old(labelToInstruction), old(freeLabel), labelToInstruction, freeLabel,
                    [CCall(instance, pou, nameToModule[pou].entry)] + PlanBindings(post), Continuation(last, freeLabel))
    {
      ghost var before, call := labelToInstruction, CCall(instance, pou, nameToModule[pou].entry);
      var callLabel := freeLabel;
      freeLabel := freeLabel + 1;
      if post == [] {
        lastStatement := last;
        var next := if lastStatement then nextLabelPlaceholders[|nextLabelPlaceholders| - 1] else freeLabel;
        CallLaid(before, callLabel, labelToInstruction, freeLabel, call, [], next);
        Emplace(callLabel, Call(instance, pou, next, nameToModule[pou].entry));
        assert PlanBindings(post) == [];
      } else {
        var intraprocedural := freeLabel;
        VisitBindings(post, last);
        CallLaid(before, callLabel, labelToInstruction, freeLabel, call, PlanBindings(post),
              Continuation(last, freeLabel));
        Emplace(callLabel, Call(instance, pou, intraprocedural, nameToModule[pou].entry));
      }
    }

    method Visit(s: Stmt, ghost entries: map<string, int>)
      requires Valid() && entries == Entries() && Supported(entries, s)
      modifies this
      ensures Valid() && nameToModule == old(nameToModule) && nextLabelPlaceholders == old(nextLabelPlaceholders)
      ensures nextLabelPlaceholder <= old(nextLabelPlaceholder)
      ensures lastStatement == (old(lastStatement) && PlanOf(entries, s) != [CSkip])
      ensures Grown(old(labelToInstruction), old(freeLabel), labelToInstruction, freeLabel, PlanOf(entries, s),
                    Continuation(old(lastStatement), freeLabel))
      decreases s, 8
    {
      match s
      case Assignment(v, e) => VisitAssignment(v, e);
      case Invocation(f, pou, pre, post) => VisitInvocation(f, pou, pre, post);
      case If(c, thn, elifs, els) => VisitIf(c, thn, elifs, els, entries, s);
      case While(c, body) => VisitWhile(c, body, entries, s);
      case Case(sel, arms, els) => VisitCase(sel, arms, els, entries, s);
    }

    // The statements of a nested list; the last one continues where the enclosing statement does.
    method VisitBranch(body: seq<Stmt>, ghost entries: map<string, int>, ghost owner: Stmt)
      requires Valid() && !lastStatement && nextLabelPlaceholders != [] && entries == Entries()
      requires body != [] && SupportedList(entries, body)
      requires Inside(body, owner)
      modifies this
      ensures Valid() && nameToModule == old(nameToModule) && nextLabelPlaceholders == old(nextLabelPlaceholders)
      ensures nextLabelPlaceholder <= old(nextLabelPlaceholder) && !lastStatement
      ensures Grown(old(labelToInstruction), old(freeLabel), labelToInstruction, freeLabel, PlanList(entries, body),
                    Continuation(true, freeLabel))
      ensures PlanList(entries, body) != []
      decreases owner, 1
    {
      VisitAll(body[..|body| - 1], entries, owner);
      ghost var before, mid := labelToInstruction, freeLabel;
      VisitLast(body[|body| - 1], entries);
      PlanSnoc(entries, body);
      GrownAppend(old(labelToInstruction), old(freeLabel), before, mid, PlanList(entries, body[..|body| - 1]),
                  labelToInstruction, freeLabel, PlanOf(entries, body[|body| - 1]), Continuation(true, freeLabel));
    }

    // The last statement of a nested list.
    method VisitLast(s: Stmt, ghost entries: map<string, int>)
      requires Valid() && !lastStatement && nextLabelPlaceholders != [] && entries == Entries()
      requires Supported(entries, s)
      modifies this
      ensures Valid() && nameToModule == old(nameToModule) && nextLabelPlaceholders == old(nextLabelPlaceholders)
      ensures nextLabelPlaceholder <= old(nextLabelPlaceholder) && !lastStatement
      ensures Grown(old(labelToInstruction), old(freeLabel), labelToInstruction, freeLabel, PlanOf(entries, s),
                    Continuation(true, freeLabel))
      decreases s, 9
    {
      lastStatement := true;
      Visit(s, entries);
      lastStatement := false;
    }

    // Statements that all continue at the statement after them.
    method VisitAll(body: seq<Stmt>, ghost entries: map<string, int>, ghost owner: Stmt)
      requires Valid() && !lastStatement && entries == Entries() && SupportedList(entries, body)
      requires Inside(body, owner)
      modifies this
      ensures Valid() && nameToModule == old(nameToModule) && nextLabelPlaceholders == old(nextLabelPlaceholders)
      ensures nextLabelPlaceholder <= old(nextLabelPlaceholder) && !lastStatement
      ensures Grown(old(labelToInstruction), old(freeLabel), labelToInstruction, freeLabel, PlanList(entries, body),
              freeLabel)
      decreases owner, 0
    {
      GrownNothing(labelToInstruction, freeLabel);
      for i := 0 to |body|
        invariant Valid() && nameToModule == old(nameToModule) && nextLabelPlaceholders == old(nextLabelPlaceholders)
        invariant nextLabelPlaceholder <= old(nextLabelPlaceholder) && !lastStatement
        invariant SupportedList(entries, body[..i])
        invariant Grown(old(labelToInstruction), old(freeLabel), labelToInstruction, freeLabel,
                PlanList(entries, body[..i]), freeLabel)
      {
        ghost var before, mid := labelToInstruction, freeLabel;
        Visit(body[i], entries);
        assert body[..i + 1][..i] == body[..i];
        PlanSnoc(entries, body[..i + 1]);
        GrownAppend(old(labelToInstruction), old(freeLabel), before, mid, PlanList(entries, body[..i]),
                    labelToInstruction, freeLabel, PlanOf(entries, body[i]), freeLabel);
      }
      assert body[..|body|] == body;
    }

    method VisitCase(sel: Expr, arms: seq<CaseArm>, els: seq<Stmt>, ghost entries: map<string, int>, ghost owner: Stmt)
      requires Valid() && entries == Entries() && owner == Case(sel, arms, els) && Supported(entries, owner)
      modifies this
      ensures Valid() && nameToModule == old(nameToModule) && nextLabelPlaceholders == old(nextLabelPlaceholders)
      ensures nextLabelPlaceholder <= old(nextLabelPlaceholder)
      ensures lastStatement == (old(lastStatement) && PlanOf(entries, owner) != [CSkip])
      ensures Grown(old(labelToInstruction), old(freeLabel), labelToInstruction, freeLabel, PlanOf(entries, owner),
                    Continuation(old(lastStatement), freeLabel))
      decreases owner, 7
    {
      var condition := CompileCaseExpression(sel, arms[0].values);
      var elseIfs: seq<Arm> := [];
      for i := 1 to |arms|
        invariant unchanged(this) && |elseIfs| == i - 1
        invariant forall k | 0 <= k < i - 1 :: elseIfs[k] == Arm(CaseCondition(sel, arms[k + 1].values),
                arms[k + 1].body)
      {
        var elseIfCondition := CompileCaseExpression(sel, arms[i].values);
        elseIfs := elseIfs + [Arm(elseIfCondition, arms[i].body)];
      }
      assert ArmBodies(elseIfs) == CaseBodies(arms[1..]);
      assert PlanArms(entries, elseIfs) == PlanCaseArms(entries, sel, arms[1..]);
      VisitIf(condition, arms[0].body, elseIfs, els, entries, owner);
    }

    method VisitWhile(cond: Expr, body: seq<Stmt>, ghost entries: map<string, int>, ghost owner: Stmt)
      requires Valid() && entries == Entries() && owner == While(cond, body) && Supported(entries, owner)
      modifies this
      ensures Valid() && nameToModule == old(nameToModule) && nextLabelPlaceholders == old(nextLabelPlaceholders)
      ensures nextLabelPlaceholder <= old(nextLabelPlaceholder)
      ensures lastStatement == (old(lastStatement) && PlanOf(entries, owner) != [CSkip])
      ensures Grown(old(labelToInstruction), old(freeLabel), labelToInstruction, freeLabel, PlanOf(entries, owner),
                    Continuation(old(lastStatement), freeLabel))
      decreases owner, 7
    {
      var last := lastStatement;
      if last {
        lastStatement := false;
      }
      if body == [] {
        GrownSkip(labelToInstruction, freeLabel, Continuation(last, freeLabel));
        return;
      }
      ghost var before, plan := labelToInstruction, PlanList(entries, body);
      var header := VisitLoopBody(body, entries, owner);
      lastStatement := last;
      var whileExit := if lastStatement then nextLabelPlaceholders[|nextLabelPlaceholders| - 1] else freeLabel;
      LoopLaid(before, header, labelToInstruction, freeLabel, cond, plan, whileExit);
      Emplace(header, WhileGoto(cond, header + 1, whileExit));
    }

    // Reserves the header label and compiles the body, which always continues at the header.
    method VisitLoopBody(body: seq<Stmt>, ghost entries: map<string, int>, ghost owner: Stmt) returns (header: int)
      requires Valid() && !lastStatement && entries == Entries()
      requires body != [] && SupportedList(entries, body) && Inside(body, owner)
      modifies this
      ensures Valid() && nameToModule == old(nameToModule) && nextLabelPlaceholders == old(nextLabelPlaceholders)
      ensures nextLabelPlaceholder <= old(nextLabelPlaceholder) && !lastStatement
      ensures header == old(freeLabel) && PlanList(entries, body) != []
      ensures Grown(old(labelToInstruction), header + 1, labelToInstruction, freeLabel, PlanList(entries, body), header)
      decreases owner, 2
    {
      ghost var before := labelToInstruction;
      PushPlaceholder();
      header := freeLabel;
      freeLabel := freeLabel + 1;
      VisitBranch(body, entries, owner);
      PatchAndPop(before, header + 1, PlanList(entries, body), header);
    }

    // A placeholder that no jump emitted so far refers to.
    method PushPlaceholder()
      requires Valid()
      modifies `nextLabelPlaceholder, `nextLabelPlaceholders
      ensures Valid() && nextLabelPlaceholder == old(nextLabelPlaceholder) - 1
      ensures nextLabelPlaceholders == old(nextLabelPlaceholders) + [nextLabelPlaceholder]
      ensures Bounded(labelToInstruction, nextLabelPlaceholder + 1)
    {
      nextLabelPlaceholder := nextLabelPlaceholder - 1;
      nextLabelPlaceholders := nextLabelPlaceholders + [nextLabelPlaceholder];
    }

    // Resolves the placeholder on top of the stack, which was pushed after `before` was emitted.
    method PatchAndPop(ghost before: Code, ghost lo: int, ghost plan: seq<Core>, next: int)
      requires Valid() && !lastStatement && nextLabelPlaceholders != [] && 0 <= lo && 0 <= next
      requires Grown(before, lo, labelToInstruction, freeLabel, plan, Continuation(true, 0))
      requires Bounded(before, Continuation(true, 0) + 1)
      modifies `labelToInstruction, `nextLabelPlaceholders
      ensures Valid() && nextLabelPlaceholders == old(nextLabelPlaceholders[..|nextLabelPlaceholders| - 1])
      ensures Grown(before, lo, labelToInstruction, freeLabel, plan, next)
    {
      ghost var after, top := labelToInstruction, nextLabelPlaceholders[|nextLabelPlaceholders| - 1];
      BackPatch(nextLabelPlaceholders[|nextLabelPlaceholders| - 1], next);
      GrownPatch(before, lo, after, freeLabel, plan, top, top, next);
      nextLabelPlaceholders := nextLabelPlaceholders[..|nextLabelPlaceholders| - 1];
    }

    // A selection behind which statements follow gets a placeholder of its own; the last one of a nested
    // list continues at the placeholder on top.
    method EnterSelection() returns (last: bool)
      requires Valid()
      modifies `lastStatement, `nextLabelPlaceholder, `nextLabelPlaceholders
      ensures Valid() && last == old(lastStatement) && !lastStatement && nextLabelPlaceholders != []
      ensures nextLabelPlaceholder <= old(nextLabelPlaceholder)
      ensures Entered(nextLabelPlaceholders, old(nextLabelPlaceholders), last, labelToInstruction)
    {
      last := lastStatement;
      if last {
        lastStatement := false;
      } else {
        PushPlaceholder();
      }
    }

    method VisitIf(cond: Expr, thn: seq<Stmt>, elifs: seq<Arm>, els: seq<Stmt>, ghost entries: map<string, int>,
          ghost owner: Stmt)
      requires Valid() && entries == Entries() && SelectionParts(thn, elifs, els, entries)
              && PartsInside(thn, elifs, els, owner)
      modifies this
      ensures Valid() && nameToModule == old(nameToModule) && nextLabelPlaceholders == old(nextLabelPlaceholders)
      ensures nextLabelPlaceholder <= old(nextLabelPlaceholder)
      ensures var plan := PlanParts(cond, thn, elifs, els, entries);
              && lastStatement == (old(lastStatement) && plan != [CSkip])
              && Grown(old(labelToInstruction), old(freeLabel), labelToInstruction, freeLabel, plan,
                       Continuation(old(lastStatement), freeLabel))
      decreases owner, 6
    {
      ghost var before, lo, plan := labelToInstruction, freeLabel, PlanParts(cond, thn, elifs, els, entries);
      ghost var stack := nextLabelPlaceholders;
      PlanNothing(cond, thn, elifs, els, entries);
      var last := EnterSelection();
      var nonEmpty := NonEmptyElseIfs(elifs);
      if thn == [] && nonEmpty == [] && els == [] {
        DropStatement(last, stack);
        return;
      }
      VisitBranches(cond, thn, elifs, nonEmpty, els, entries, owner);
      LeaveSelection(last, before, lo, plan, stack);
    }

    // Everything of a selection is emitted: without an enclosing list that it ends, its placeholder
    // becomes the next label.
    method LeaveSelection(last: bool, ghost before: Code, ghost lo: int, ghost plan: seq<Core>, ghost stack: seq<int>)
      requires Valid() && !lastStatement && nextLabelPlaceholders != [] && 0 <= lo
      requires Grown(before, lo, labelToInstruction, freeLabel, plan, Continuation(true, 0))
      requires Entered(nextLabelPlaceholders, stack, last, before)
      modifies `labelToInstruction, `nextLabelPlaceholders, `lastStatement
      ensures Valid() && lastStatement == last && nextLabelPlaceholders == stack
      ensures Grown(before, lo, labelToInstruction, freeLabel, plan, Continuation(last, freeLabel))
    {
      if !last {
        PatchAndPop(before, lo, plan, freeLabel);
      } else {
        lastStatement := last;
      }
    }

    // An IF without ELSIF and ELSE whose THEN list has no code: the false branch copies the jump of the
    // instruction in front of the statement, and anything but a goto or a call there is an error.
    method VisitSilentIf(cond: Expr, thn: seq<Stmt>, ghost entries: map<string, int>, ghost owner: Stmt,
          ghost highest: int)
        returns (accepted: bool)
      requires Valid() && entries == Entries() && thn != [] && SupportedList(entries, thn) && Inside(thn, owner)
      requires EndingOfList(PlanList(entries, thn)) == Nothing
      requires highest in labelToInstruction && forall k | k in labelToInstruction :: k <= highest
      modifies this
      ensures accepted <==> old(labelToInstruction)[highest].Goto? || old(labelToInstruction)[highest].Call?
      ensures accepted ==> Valid() && nameToModule == old(nameToModule) && lastStatement == old(lastStatement)
      ensures accepted ==> nextLabelPlaceholders == old(nextLabelPlaceholders) && freeLabel == old(freeLabel) + 1
      ensures accepted ==> labelToInstruction == old(labelToInstruction)[old(freeLabel) :=
                             IfGoto(cond, old(freeLabel) + 1, JumpOf(old(labelToInstruction)[highest]))]
      decreases owner, 6
    {
      ghost var stack := nextLabelPlaceholders;
      var last := EnterSelection();
      var ifLabel := freeLabel;
      freeLabel := freeLabel + 1;
      var gotoThen := freeLabel;
      VisitSilentList(thn, entries, owner);
      var instruction := LastInstruction(highest);
      if !instruction.Goto? && !instruction.Call? {
        return false;
      }
      Emplace(ifLabel, IfGoto(cond, gotoThen, JumpOf(instruction)));
      LeaveUnchanged(last, stack);
      accepted := true;
    }

    method VisitSilentList(body: seq<Stmt>, ghost entries: map<string, int>, ghost owner: Stmt)
      requires Valid() && !lastStatement && nextLabelPlaceholders != [] && entries == Entries()
      requires body != [] && SupportedList(entries, body) && Inside(body, owner)
      requires EndingOfList(PlanList(entries, body)) == Nothing
      modifies this
      ensures Valid() && nameToModule == old(nameToModule) && nextLabelPlaceholders == old(nextLabelPlaceholders)
      ensures nextLabelPlaceholder <= old(nextLabelPlaceholder) && !lastStatement
      ensures labelToInstruction == old(labelToInstruction) && freeLabel == old(freeLabel)
      decreases owner, 2
    {
      ghost var before, lo := labelToInstruction, freeLabel;
      VisitBranch(body, entries, owner);
      GrownUnchanged(before, lo, labelToInstruction, freeLabel, PlanList(entries, body),
                     Continuation(true, freeLabel));
    }

    // Resolves the placeholder of a selection when no jump refers to it.
    method LeaveUnchanged(last: bool, ghost stack: seq<int>)
      requires Valid() && !lastStatement && nextLabelPlaceholders != []
      requires Entered(nextLabelPlaceholders, stack, last, labelToInstruction)
      modifies `labelToInstruction, `nextLabelPlaceholders, `lastStatement
      ensures Valid() && labelToInstruction == old(labelToInstruction) && lastStatement == last
      ensures nextLabelPlaceholders == stack
    {
      if !last {
        PatchNothing(labelToInstruction, nextLabelPlaceholders[|nextLabelPlaceholders| - 1], freeLabel);
        BackPatch(nextLabelPlaceholders[|nextLabelPlaceholders| - 1], freeLabel);
        nextLabelPlaceholders := nextLabelPlaceholders[..|nextLabelPlaceholders| - 1];
      }
      lastStatement := last;
    }

    // A statement without any list is dropped.
    method DropStatement(last: bool, ghost stack: seq<int>)
      requires Valid() && !lastStatement && nextLabelPlaceholders != []
      requires Entered(nextLabelPlaceholders, stack, last, labelToInstruction)
      modifies `nextLabelPlaceholders
      ensures Valid() && nextLabelPlaceholders == stack
      ensures forall next: int :: Grown(labelToInstruction, freeLabel, labelToInstruction, freeLabel, [CSkip], next)
    {
      if !last {
        nextLabelPlaceholders := nextLabelPlaceholders[..|nextLabelPlaceholders| - 1];
      }
      forall next: int ensures Grown(labelToInstruction, freeLabel, labelToInstruction, freeLabel, [CSkip], next) {
        GrownSkip(labelToInstruction, freeLabel, next);
      }
    }

    // THEN, ELSIF and ELSE lists, all of whose last statements continue at the placeholder on top.
    method VisitBranches(cond: Expr, thn: seq<Stmt>, elifs: seq<Arm>, nonEmpty: seq<Arm>, els: seq<Stmt>,
          ghost entries: map<string, int>, ghost owner: Stmt)
      requires Valid() && !lastStatement && nextLabelPlaceholders != []
      requires entries == Entries() && SelectionParts(thn, elifs, els, entries) && PartsInside(thn, elifs, els, owner)
      requires nonEmpty == [] <==> AllEmpty(ArmBodies(elifs))
      requires !(thn == [] && nonEmpty == [] && els == [])
      modifies this
      ensures Valid() && nameToModule == old(nameToModule) && nextLabelPlaceholders == old(nextLabelPlaceholders)
      ensures nextLabelPlaceholder <= old(nextLabelPlaceholder) && !lastStatement
      ensures Grown(old(labelToInstruction), old(freeLabel), labelToInstruction, freeLabel,
                    PlanParts(cond, thn, elifs, els, entries), Continuation(true, 0))
      decreases owner, 5
    {
      ghost var before, lo := labelToInstruction, freeLabel;
      ghost var prior: seq<CoreArm> := [];
      PlanChain(cond, thn, elifs, els, entries);
      if thn != [] {
        if nonEmpty == [] && els == [] {
          VisitLastArm(cond, thn, true, before, lo, [], entries, owner);
          assert [] + [CoreArm(cond, PlanList(entries, thn))] == [CoreArm(cond, PlanList(entries, thn))];
          return;
        }
        VisitArm(cond, thn, entries, owner);
        prior := [CoreArm(cond, PlanList(entries, thn))];
      }
      if thn == [] && nonEmpty == [] {
        // the IF condition, or the last ELSIF condition if there is one
        VisitOnlyElse(if elifs != [] then elifs[|elifs| - 1].cond else cond, els, entries, owner);
      } else {
        VisitOthers(thn, elifs, nonEmpty, els, before, lo, prior, entries, owner);
        assert [] + PlanArms(entries, elifs) == PlanArms(entries, elifs);
      }
    }

    // ELSIF and ELSE lists behind a THEN list, or ELSIF lists that are the first ones with code.
    method VisitOthers(ghost thn: seq<Stmt>, elifs: seq<Arm>, nonEmpty: seq<Arm>, els: seq<Stmt>, ghost before: Code,
          ghost lo: int, ghost prior: seq<CoreArm>, ghost entries: map<string, int>, ghost owner: Stmt)
      requires Valid() && !lastStatement && nextLabelPlaceholders != []
      requires entries == Entries() && SelectionParts(thn, elifs, els, entries) && PartsInside(thn, elifs, els, owner)
      requires (nonEmpty == [] <==> AllEmpty(ArmBodies(elifs))) && (nonEmpty != [] || els != [])
      requires if thn == [] then prior == [] && nonEmpty != []
               else |prior| == 1 && prior[0].body == PlanList(entries, thn)
      requires Below(before, lo) && 0 <= lo
      requires GrownArms(before, lo, labelToInstruction, freeLabel, prior, Continuation(true, 0))
      modifies this
      ensures Valid() && nameToModule == old(nameToModule) && nextLabelPlaceholders == old(nextLabelPlaceholders)
      ensures nextLabelPlaceholder <= old(nextLabelPlaceholder) && !lastStatement
      ensures Grown(before, lo, labelToInstruction, freeLabel,
                    Nest(if nonEmpty == [] then prior else prior + PlanArms(entries, elifs), PlanList(entries, els)),
                    Continuation(true, 0))
      decreases owner, 4, 2
    {
      ghost var arms := prior;
      if nonEmpty != [] {
        ArmsSupported(thn, elifs, els, entries);
        var elseFollows := els != [];
        ElseIfsOk(entries, thn, elifs, els, elseFollows, prior, owner);
        VisitElseIfs(elifs, elseFollows, before, lo, prior, entries, owner);
        assert PlanArms(entries, elifs)[..|elifs|] == PlanArms(entries, elifs);
        arms := prior + PlanArms(entries, elifs);
      }
      if els != [] {
        VisitElse(els, before, lo, arms, entries, owner);
      }
    }

    method VisitElse(els: seq<Stmt>, ghost before: Code, ghost lo: int, ghost arms: seq<CoreArm>,
          ghost entries: map<string, int>, ghost owner: Stmt)
      requires Valid() && !lastStatement && nextLabelPlaceholders != [] && entries == Entries()
      requires els != [] && SupportedList(entries, els) && Inside(els, owner)
      requires GrownArms(before, lo, labelToInstruction, freeLabel, arms, Continuation(true, 0))
      modifies this
      ensures Valid() && nameToModule == old(nameToModule) && nextLabelPlaceholders == old(nextLabelPlaceholders)
      ensures nextLabelPlaceholder <= old(nextLabelPlaceholder) && !lastStatement
      ensures Grown(before, lo, labelToInstruction, freeLabel, Nest(arms, PlanList(entries, els)),
              Continuation(true, 0))
      decreases owner, 2
    {
      ghost var open, next := labelToInstruction, Continuation(true, 0);
      VisitBranch(els, entries, owner);
      ArmsFrame(open, labelToInstruction, arms, lo, next);
      ArmsNest(labelToInstruction, arms, PlanList(entries, els), lo, next);
    }

    // One guarded list that code follows: the IF condition with the THEN list, or an ELSIF.
    method VisitArm(cond: Expr, body: seq<Stmt>, ghost entries: map<string, int>, ghost owner: Stmt)
      requires Valid() && !lastStatement && nextLabelPlaceholders != [] && entries == Entries()
      requires body != [] && SupportedList(entries, body) && Inside(body, owner)
      modifies this
      ensures Valid() && nameToModule == old(nameToModule) && nextLabelPlaceholders == old(nextLabelPlaceholders)
      ensures nextLabelPlaceholder <= old(nextLabelPlaceholder) && !lastStatement
      ensures GrownArms(old(labelToInstruction), old(freeLabel), labelToInstruction, freeLabel,
                        [CoreArm(cond, PlanList(entries, body))], Continuation(true, 0))
      decreases owner, 2
    {
      ghost var before, next, plan := labelToInstruction, Continuation(true, 0), PlanList(entries, body);
      var ifLabel := freeLabel;
      freeLabel := freeLabel + 1;
      var gotoThen := freeLabel;
      VisitBranch(body, entries, owner);
      ghost var grown := labelToInstruction;
      Emplace(ifLabel, IfGoto(cond, gotoThen, freeLabel));
      ArmLaid(before, ifLabel, grown, freeLabel, CoreArm(cond, plan), next);
    }

    // The last guarded list, if no ELSE follows: its false branch copies the target of the instruction
    // emitted last.
    method VisitLastArm(cond: Expr, body: seq<Stmt>, isThen: bool, ghost before: Code, ghost lo: int,
          ghost prior: seq<CoreArm>, ghost entries: map<string, int>, ghost owner: Stmt)
      requires Valid() && !lastStatement && nextLabelPlaceholders != [] && entries == Entries()
      requires body != [] && SupportedList(entries, body) && Inside(body, owner)
      requires Below(before, lo) && 0 <= lo
      requires GrownArms(before, lo, labelToInstruction, freeLabel, prior, Continuation(true, 0))
      requires LeadsBehind(prior, PlanList(entries, body))
              || (isThen && EndingOfList(PlanList(entries, body)) == InCall)
      modifies this
      ensures Valid() && nameToModule == old(nameToModule) && nextLabelPlaceholders == old(nextLabelPlaceholders)
      ensures nextLabelPlaceholder <= old(nextLabelPlaceholder) && !lastStatement
      ensures Grown(before, lo, labelToInstruction, freeLabel,
                    Nest(prior + [CoreArm(cond, PlanList(entries, body))], []), Continuation(true, 0))
      decreases owner, 2
    {
      ghost var open, plan := labelToInstruction, PlanList(entries, body);
      var ifLabel := freeLabel;
      freeLabel := freeLabel + 1;
      var gotoThen := freeLabel;
      VisitBranch(body, entries, owner);
      CloseLastArm(cond, ifLabel, gotoThen, isThen, before, lo, open, prior, plan);
    }

    method CloseLastArm(cond: Expr, ifLabel: int, gotoThen: int, isThen: bool, ghost before: Code, ghost lo: int,
          ghost open: Code, ghost prior: seq<CoreArm>, ghost plan: seq<Core>)
      requires Valid() && nextLabelPlaceholders != [] && gotoThen == ifLabel + 1 && plan != []
      requires Below(before, lo) && 0 <= lo && ifLabel !in labelToInstruction && 0 <= ifLabel < freeLabel
      requires GrownArms(before, lo, open, ifLabel, prior, Continuation(true, 0))
      requires Grown(open, gotoThen, labelToInstruction, freeLabel, plan, Continuation(true, 0))
      requires LeadsBehind(prior, plan) || (isThen && EndingOfList(plan) == InCall)
      modifies `labelToInstruction
      ensures Valid()
      ensures Grown(before, lo, labelToInstruction, freeLabel, Nest(prior + [CoreArm(cond, plan)], []),
                    Continuation(true, 0))
    {
      ghost var grown, next, list := labelToInstruction, Continuation(true, 0), LastList(prior, plan);
      ghost var from := if list == plan then ifLabel + 1 else ifLabel - SizeList(list);
      LastListLaid(before, lo, open, ifLabel, prior, grown, freeLabel, plan, next);
      var elseLabel := LastJumpTarget(isThen, list, from, next);
      Emplace(ifLabel, IfGoto(cond, gotoThen, elseLabel));
      LastArmLaid(before, lo, open, ifLabel, prior, grown, freeLabel, CoreArm(cond, plan), next, elseLabel,
                  labelToInstruction);
    }

    // The target of the instruction emitted last, which is the last one of `list`.
    method LastJumpTarget(callAllowed: bool, ghost list: seq<Core>, ghost lo: int, ghost next: int)
        returns (target: int)
      requires Valid() && 0 <= lo && CodedList(labelToInstruction, list, lo, next)
      requires forall k | k in labelToInstruction :: k < lo + SizeList(list)
      requires EndingOfList(list) == InGoto || (callAllowed && EndingOfList(list) == InCall)
      ensures target == LastTargetList(list, lo, next) && nextLabelPlaceholder <= target
    {
      LastJumpList(labelToInstruction, list, lo, next);
      var instruction := LastInstruction(lo + SizeList(list) - 1);
      match instruction
      case Call(_, _, intraprocedural, _) => target := intraprocedural;
      case Goto(l) => target := l;
      case _ => assert false;
    }

    method VisitElseIf(arm: Arm, toEnd: bool, ghost before: Code, ghost lo: int, ghost prior: seq<CoreArm>,
          ghost entries: map<string, int>, ghost owner: Stmt)
      requires Valid() && !lastStatement && nextLabelPlaceholders != [] && entries == Entries()
      requires arm.body != [] && SupportedList(entries, arm.body) && Inside(arm.body, owner)
      requires Below(before, lo) && 0 <= lo
      requires toEnd ==> LeadsBehind(prior, PlanList(entries, arm.body))
      requires GrownArms(before, lo, labelToInstruction, freeLabel, prior, Continuation(true, 0))
      modifies this
      ensures Valid() && nameToModule == old(nameToModule) && nextLabelPlaceholders == old(nextLabelPlaceholders)
      ensures nextLabelPlaceholder <= old(nextLabelPlaceholder) && !lastStatement
      ensures var arms := prior + [CoreArm(arm.cond, PlanList(entries, arm.body))];
              && (!toEnd ==> GrownArms(before, lo, labelToInstruction, freeLabel, arms, Continuation(true, 0)))
              && (toEnd ==> Grown(before, lo, labelToInstruction, freeLabel, Nest(arms, []), Continuation(true, 0)))
      decreases owner, 3
    {
      ghost var open, mid, next := labelToInstruction, freeLabel, Continuation(true, 0);
      if toEnd {
        VisitLastArm(arm.cond, arm.body, false, before, lo, prior, entries, owner);
      } else {
        VisitArm(arm.cond, arm.body, entries, owner);
        ArmsGrow(before, lo, open, mid, prior, labelToInstruction, freeLabel,
                 CoreArm(arm.cond, PlanList(entries, arm.body)), next);
      }
    }

    method VisitElseIfs(elifs: seq<Arm>, elseFollows: bool, ghost before: Code, ghost lo: int,
          ghost prior: seq<CoreArm>, ghost entries: map<string, int>, ghost owner: Stmt)
      requires Valid() && !lastStatement && nextLabelPlaceholders != [] && entries == Entries()
      requires forall k {:trigger ElseIfOk(entries, elifs, k, elseFollows, prior, owner)} | 0 <= k < |elifs| ::
                 ElseIfOk(entries, elifs, k, elseFollows, prior, owner)
      requires elifs != [] && Below(before, lo) && 0 <= lo
      requires GrownArms(before, lo, labelToInstruction, freeLabel, prior, Continuation(true, 0))
      modifies this
      ensures Valid() && nameToModule == old(nameToModule) && nextLabelPlaceholders == old(nextLabelPlaceholders)
      ensures nextLabelPlaceholder <= old(nextLabelPlaceholder) && !lastStatement
      ensures ArmsSoFar(before, lo, labelToInstruction, freeLabel, prior, PlanArms(entries, elifs), |elifs|,
                        elseFollows, Continuation(true, 0))
      decreases owner, 4, 1
    {
      ghost var next := Continuation(true, 0);
      assert prior + PlanArms(entries, elifs)[..0] == prior;
      for k := 0 to |elifs|
        invariant Valid() && !lastStatement && nameToModule == old(nameToModule)
        invariant nextLabelPlaceholders == old(nextLabelPlaceholders)
        invariant nextLabelPlaceholder <= old(nextLabelPlaceholder)
        invariant ArmsSoFar(before, lo, labelToInstruction, freeLabel, prior, PlanArms(entries, elifs), k, elseFollows,
                            next)
      {
        VisitElseIfAt(elifs, k, elseFollows, before, lo, prior, entries, owner);
      }
    }

    // One round of the loop: the arms before the k-th are there.
    method VisitElseIfAt(elifs: seq<Arm>, k: nat, elseFollows: bool, ghost before: Code, ghost lo: int,
          ghost prior: seq<CoreArm>, ghost entries: map<string, int>, ghost owner: Stmt)
      requires Valid() && !lastStatement && nextLabelPlaceholders != [] && entries == Entries()
      requires k < |elifs| && ElseIfOk(entries, elifs, k, elseFollows, prior, owner)
      requires Below(before, lo) && 0 <= lo
      requires ArmsSoFar(before, lo, labelToInstruction, freeLabel, prior, PlanArms(entries, elifs), k, elseFollows,
                         Continuation(true, 0))
      modifies this
      ensures Valid() && nameToModule == old(nameToModule) && nextLabelPlaceholders == old(nextLabelPlaceholders)
      ensures nextLabelPlaceholder <= old(nextLabelPlaceholder) && !lastStatement
      ensures ArmsSoFar(before, lo, labelToInstruction, freeLabel, prior, PlanArms(entries, elifs), k + 1,
                        elseFollows, Continuation(true, 0))
      decreases owner, 4, 0
    {
      ghost var planned := PlanArms(entries, elifs);
      MoreArms(prior, planned, k);
      VisitElseIf(elifs[k], k + 1 == |elifs| && !elseFollows, before, lo, prior + planned[..k], entries, owner);
    }

    // Only the ELSE list has code: it is guarded by the negated condition.
    method VisitOnlyElse(cond: Expr, els: seq<Stmt>, ghost entries: map<string, int>, ghost owner: Stmt)
      requires Valid() && !lastStatement && nextLabelPlaceholders != [] && entries == Entries()
      requires els != [] && SupportedList(entries, els) && LeadsOn(entries, els)
      requires Inside(els, owner)
      modifies this
      ensures Valid() && nameToModule == old(nameToModule) && nextLabelPlaceholders == old(nextLabelPlaceholders)
      ensures nextLabelPlaceholder <= old(nextLabelPlaceholder) && !lastStatement
      ensures Grown(old(labelToInstruction), old(freeLabel), labelToInstruction, freeLabel,
                    [CUnless(cond, PlanList(entries, els))], Continuation(true, 0))
      decreases owner, 2
    {
      ghost var before, next, plan := labelToInstruction, Continuation(true, 0), PlanList(entries, els);
      var ifLabel := freeLabel;
      freeLabel := freeLabel + 1;
      var gotoElse := freeLabel;
      VisitBranch(els, entries, owner);
      ghost var grown := labelToInstruction;
      var thenLabel := LastJumpTarget(false, plan, ifLabel + 1, next);
      Emplace(ifLabel, IfGoto(cond, thenLabel, gotoElse));
      UnlessLaid(before, ifLabel, grown, freeLabel, cond, plan, next);
    }

    // ---------- program organisation units ----------

    ghost predicate Idle(project: map<string, Pou>)
      reads this
    {
      && Valid() && !lastStatement && labelToInstruction == map[] && nextLabelPlaceholders == []
      && ModulesOk(project, nameToModule, freeLabel)
    }

    method CompileProject(project: map<string, Pou>, names: seq<string>, ghost rank: map<string, nat>)
      requires Acyclic(project, rank) && Idle(project)
      requires forall n | n in names :: n in project
      modifies this
      ensures Idle(project) && Extended(old(nameToModule), nameToModule)
      ensures forall n | n in names :: n in nameToModule
    {
      for i := 0 to |names|
        invariant Idle(project) && Extended(old(nameToModule), nameToModule)
        invariant forall k | 0 <= k < i :: names[k] in nameToModule
      {
        CompilePou(project, names[i], rank);
      }
    }

    // Callees first; then the body between a fresh entry label and a fresh exit label.
    method CompilePou(project: map<string, Pou>, name: string, ghost rank: map<string, nat>)
      requires Acyclic(project, rank) && name in project && Idle(project)
      modifies this
      ensures Idle(project) && Extended(old(nameToModule), nameToModule) && name in nameToModule
      ensures AddedUpTo(old(nameToModule), nameToModule, rank, rank[name])
      decreases rank[name], 2
    {
      if name in nameToModule {
        return;
      }
      CompileCallees(project, name, rank);
      CompileBody(project, name, rank);
    }

    method CompileCallees(project: map<string, Pou>, name: string, ghost rank: map<string, nat>)
      requires Acyclic(project, rank) && name in project && Idle(project)
      modifies this
      ensures Idle(project) && Extended(old(nameToModule), nameToModule)
      ensures forall k | 0 <= k < |project[name].callees| :: project[name].callees[k] in nameToModule
      ensures AddedUpTo(old(nameToModule), nameToModule, rank, rank[name] as int - 1)
      decreases rank[name], 1
    {
      var callees := project[name].callees;
      for i := 0 to |callees|
        invariant Idle(project) && Extended(old(nameToModule), nameToModule)
        invariant AddedUpTo(old(nameToModule), nameToModule, rank, rank[name] as int - 1)
        invariant CompiledUpTo(callees, i, nameToModule)
      {
        ghost var before := nameToModule;
        CompileCallee(project, name, rank, i, old(nameToModule));
        OneMoreCompiled(callees, i, before, nameToModule);
      }
    }

    // `first` are the modules before the first callee.
    method CompileCallee(project: map<string, Pou>, name: string, ghost rank: map<string, nat>, i: nat,
          ghost first: map<string, Module>)
      requires Acyclic(project, rank) && name in project && Idle(project) && i < |project[name].callees|
      requires Extended(first, nameToModule) && AddedUpTo(first, nameToModule, rank, rank[name] as int - 1)
      modifies this
      ensures Idle(project) && Extended(old(nameToModule), nameToModule) && project[name].callees[i] in nameToModule
      ensures Extended(first, nameToModule) && AddedUpTo(first, nameToModule, rank, rank[name] as int - 1)
      decreases rank[name], 0
    {
      assert CalleesRanked(project, rank, project[name].callees, rank[name]);
      CompilePou(project, project[name].callees[i], rank);
    }

    method CompileBody(project: map<string, Pou>, name: string, ghost rank: map<string, nat>)
      requires Acyclic(project, rank) && name in project && Idle(project) && name !in nameToModule
      requires forall k | 0 <= k < |project[name].callees| :: project[name].callees[k] in nameToModule
      modifies this
      ensures Idle(project) && Extended(old(nameToModule), nameToModule)
      ensures nameToModule.Keys == old(nameToModule).Keys + {name}
    {
      ghost var modules := nameToModule;
      var body := project[name].body;
      CalleesDone(project, modules, freeLabel, name);
      var entryLabel := freeLabel;
      freeLabel := freeLabel + 1;
      VisitBody(project, name, body, rank);
      FinishModule(name, entryLabel);
      ModuleAdded(project, modules, entryLabel, name, nameToModule[name], freeLabel);
    }

    // The exit label ends the module, and the instruction map is empty again.
    method FinishModule(name: string, entryLabel: int)
      requires Valid() && !lastStatement
      modifies this
      ensures Valid() && !lastStatement && labelToInstruction == map[]
              && nextLabelPlaceholders == old(nextLabelPlaceholders)
      ensures freeLabel == old(freeLabel) + 1
      ensures nameToModule == old(nameToModule)[name := Module(old(labelToInstruction), entryLabel, old(freeLabel))]
    {
      var exitLabel := freeLabel;
      freeLabel := freeLabel + 1;
      var m := Module(labelToInstruction, entryLabel, exitLabel);
      labelToInstruction := map[];
      nameToModule := nameToModule[name := m];
    }

    method VisitBody(ghost project: map<string, Pou>, ghost name: string, body: seq<Stmt>, ghost rank: map<string, nat>)
      requires Acyclic(project, rank) && name in project && body == project[name].body
      requires Valid() && !lastStatement && labelToInstruction == map[] && 0 < freeLabel
      requires forall k | 0 <= k < |project[name].callees| :: project[name].callees[k] in nameToModule
      modifies this
      ensures Valid() && !lastStatement && nameToModule == old(nameToModule)
              && nextLabelPlaceholders == old(nextLabelPlaceholders)
      ensures ModuleOk(EntriesOf(nameToModule), body, Module(labelToInstruction, old(freeLabel) - 1, freeLabel))
    {
      ghost var entries := EntriesOf(nameToModule);
      SupportedMore(CalleeEntries(project[name].callees), entries, body);
      VisitAll(body, entries, While(BooleanConstant(true), body));
    }
  }

  method NonEmptyElseIfs(elifs: seq<Arm>) returns (nonEmpty: seq<Arm>)
    ensures nonEmpty == [] <==> AllEmpty(ArmBodies(elifs))
  {
    nonEmpty := [];
    for i := 0 to |elifs|
      invariant nonEmpty == [] <==> forall k | 0 <= k < i :: ArmBodies(elifs)[k] == []
    {
      assert ArmBodies(elifs)[i] == elifs[i].body;
      if elifs[i].body != [] {
        nonEmpty := nonEmpty + [elifs[i]];
      }
    }
  }
}
