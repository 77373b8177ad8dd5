// SSA construction on acyclic graphs (ahorn/src/pass/ssa/ssa_pass.cpp and ssa_encoder.cpp).

module SsaPass {
  import opened Ir
  import opened Cfg
  import opened SsaTable
  import opened SsaNames
  import opened SsaLog
  import opened SsaBlocks

  // The blocks that may be read are sealed, and so are the blocks in front of them.
  ghost predicate Sealed(g: Graph, ready: set<int>, sealed: set<int>) {
    && ready <= sealed
    && forall l | l in ready && l != g.entry :: Preds(g, l) != [] && forall q | q in Preds(g, l) :: q in ready
  }

  class SsaPass {
    const g: Graph
    const names: seq<string>          // the variables of the interface that are not temporaries
    ghost const rank: int -> nat
    var value: int
    var currentDefinitions: Definitions
    var valueToPhiCandidate: Phis
    var valueToVariable: map<int, string>
    var sealedBasicBlocks: set<int>
    var filledBasicBlocks: set<int>
    var currentLabel: int                   // the block that is being filled
    var labelToInstructions: map<int, seq<Instr>>
    var expressionStack: seq<Expr>
    ghost var logs: map<int, seq<Renaming>>
    ghost var constants: seq<Fixed>
    ghost var origin: map<int, int>
    ghost var ready: set<int>
    ghost var own: Own
    ghost var open: set<int>

    constructor (g: Graph, names: seq<string>, ghost rank: int -> nat)
      ensures this.g == g && this.names == names && this.rank == rank && value == 0 && expressionStack == []
      ensures Snap() == Fill(Frame(g, rank, {}, map[], {}), Table(value, map[], map[], map[], map[]), currentLabel,
              map[], [], map[], names, {})
    {
      this.g, this.names, this.rank := g, names, rank;
      value, currentDefinitions, valueToPhiCandidate, valueToVariable := 0, map[], map[], map[];
      sealedBasicBlocks, filledBasicBlocks, currentLabel, labelToInstructions, expressionStack := {}, {}, g.entry,
            map[], [];
      origin, ready, own, open, logs, constants := map[], {}, map[], {}, map[], [];
    }

    ghost function Tables(): Table
      reads this
    {
      Table(value, currentDefinitions, valueToPhiCandidate, valueToVariable, origin)
    }

    ghost function Surroundings(): Frame
      reads this
    {
      Frame(g, rank, ready, own, open)
    }

    ghost predicate Valid()
      reads this
    {
      && Ranked(g, rank) && Sealed(g, ready, sealedBasicBlocks) && Initialised(g, own, names)
      && TableOk(Surroundings(), Tables())
    }

    method WriteVariable(name: string, l: int, v: int)
      modifies `currentDefinitions
      ensures currentDefinitions == Write(old(currentDefinitions), name, l, v)
    {
      var row := if name in currentDefinitions then currentDefinitions[name] else map[];
      currentDefinitions := currentDefinitions[name := row[l := v]];
    }

    // The value of a variable at the end of a block, or where the block is filled so far.
    method ReadVariable(name: string, l: int) returns (v: int)
      requires Valid() && l in ready && (name in names || Recorded(currentDefinitions, name, l))
      requires OpenAbove(valueToPhiCandidate, open, rank, rank(l))
      modifies `value, `currentDefinitions, `valueToPhiCandidate, `valueToVariable, `origin, `open
      ensures Valid() && ReadOk(Surroundings(), name, l, v, old(Tables()), Tables()) && open == old(open)
      decreases rank(l), 4
    {
      assert name in names ==> (name, g.entry) in own;
      if name in currentDefinitions {
        if l in currentDefinitions[name] {
          // local value numbering
          v := currentDefinitions[name][l];
          assert Recorded(currentDefinitions, name, l);
          return;
        }
      }
      // global value numbering
      v := ReadVariableRecursive(name, l);
    }

    method ReadVariableRecursive(name: string, l: int) returns (v: int)
      requires Valid() && l in ready && name in names && !Recorded(currentDefinitions, name, l)
      requires OpenAbove(valueToPhiCandidate, open, rank, rank(l))
      modifies `value, `currentDefinitions, `valueToPhiCandidate, `valueToVariable, `origin, `open
      ensures Valid() && ReadOk(Surroundings(), name, l, v, old(Tables()), Tables()) && open == old(open)
      decreases rank(l), 3
    {
      assert (name, g.entry) in own;
      ghost var before := Tables();
      var precedingLabels := Preds(g, l);
      assert l != g.entry && precedingLabels != [];
      if |precedingLabels| == 1 {
        PredsRanked(g, rank, l, 0);
        v := ReadVariable(name, precedingLabels[0]);
        CopiedAfterRead(Surroundings(), before, Tables(), name, l, precedingLabels[0], v);
        WriteVariable(name, l, v);
      } else {
        v := ReadThroughPhi(name, l);
      }
    }

    // The case of several blocks in front.
    method ReadThroughPhi(name: string, l: int) returns (v: int)
      requires Valid() && l in ready && name in names && !Recorded(currentDefinitions, name, l)
      requires l != g.entry && Preds(g, l) != []
      requires OpenAbove(valueToPhiCandidate, open, rank, rank(l))
      modifies `value, `currentDefinitions, `valueToPhiCandidate, `valueToVariable, `origin, `open
      ensures Valid() && ReadOk(Surroundings(), name, l, v, old(Tables()), Tables()) && open == old(open)
      decreases rank(l), 2
    {
      ghost var before := Tables();
      var w := StartPhi(name, l);
      ghost var T;
      v, T := AddPhiOperands(name, w, before);
      FinishPhi(name, l, w, v, before, T);
    }

    // The phi stands for the variable in block l while its operands are collected.
    method StartPhi(name: string, l: int) returns (v: int)
      requires Valid() && l in ready && name in names && !Recorded(currentDefinitions, name, l)
      requires OpenAbove(valueToPhiCandidate, open, rank, rank(l))
      modifies `value, `currentDefinitions, `valueToPhiCandidate, `valueToVariable, `origin, `open
      ensures v == old(value) && open == old(open) + {v} && open - {v} == old(open)
      ensures Valid() && Collecting(Surroundings(), old(Tables()), Tables(), name, l, v, 0)
    {
      CollectStart(Surroundings(), Tables(), name, l);
      v := PlaceOperandlessPhi(name, l);
      WriteVariable(name, l, v);
      open := open + {v};
      assert v !in old(open);
    }

    // The value that the phi, or its only operand, has become is recorded.
    method FinishPhi(name: string, l: int, ghost w: int, v: int, ghost before: Table, ghost T: Table)
      requires Ranked(g, rank) && Sealed(g, ready, sealedBasicBlocks) && Initialised(g, own, names)
      requires Collecting(Surroundings(), before, T, name, l, w, |Preds(g, l)|) && Settles(g, T, Tables(), w, v)
      requires l in ready && l != g.entry && Preds(g, l) != [] && !Recorded(before.defs, name, l)
      requires TableOk(Surroundings().(open := open - {w}), before)
      modifies `open, `currentDefinitions
      ensures open == old(open) - {w}
      ensures Valid() && ReadOk(Surroundings(), name, l, v, before, Tables())
    {
      SettledPhi(Surroundings(), before, T, Tables(), name, l, w, v);
      open := open - {w};
      WriteVariable(name, l, v);
    }

    method PlaceOperandlessPhi(name: string, l: int) returns (v: int)
      requires name in names && value >= 0
      modifies `value, `valueToPhiCandidate, `valueToVariable, `origin
      ensures v == old(value)
      ensures Table(value, Write(currentDefinitions, name, l, v), valueToPhiCandidate, valueToVariable, origin)
           == PlacePhi(old(Tables()), name, l)
    {
      v := value;
      value := value + 1;
      valueToPhiCandidate := valueToPhiCandidate[v := Phi(name, l, v, [], [])];
      valueToVariable := valueToVariable[v := SsaName(name, v)];
      origin := origin[v := l];
    }

    // before is the table in which the phi was placed, T the one with all its operands.
    method AddPhiOperands(name: string, w: int, ghost before: Table) returns (r: int, ghost T: Table)
      requires Valid() && w in valueToPhiCandidate && valueToPhiCandidate[w].block in ready && name in names
      requires valueToPhiCandidate[w].block != g.entry && Preds(g, valueToPhiCandidate[w].block) != []
      requires w !in before.phis && !Recorded(before.defs, name, valueToPhiCandidate[w].block)
      requires Collecting(Surroundings(), before, Tables(), name, valueToPhiCandidate[w].block, w, 0)
      modifies `value, `currentDefinitions, `valueToPhiCandidate, `valueToVariable, `origin, `open
      ensures open == old(open)
      ensures Collecting(Surroundings(), before, T, name, old(valueToPhiCandidate[w].block), w,
              |Preds(g, old(valueToPhiCandidate[w].block))|)
      ensures Settles(g, T, Tables(), w, r)
      decreases if w in valueToPhiCandidate then rank(valueToPhiCandidate[w].block) else 0, 1
    {
      var l := valueToPhiCandidate[w].block;
      var precedingLabels := Preds(g, l);
      var i := 0;
      while i < |precedingLabels|
        invariant 0 <= i <= |precedingLabels|
        invariant Valid() && open == old(open) && Collecting(Surroundings(), before, Tables(), name, l, w, i)
      {
        AddPhiOperand(name, w, l, i, precedingLabels[i], before);
        i := i + 1;
      }
      r, T := SettlePhi(name, w, l, before);
    }

    // All operands are there.
    method SettlePhi(name: string, w: int, l: int, ghost before: Table) returns (r: int, ghost T: Table)
      requires Valid() && w !in before.phis && !Recorded(before.defs, name, l) && l != g.entry && Preds(g, l) != []
      requires Collecting(Surroundings(), before, Tables(), name, l, w, |Preds(g, l)|)
      modifies `value, `currentDefinitions, `valueToPhiCandidate, `valueToVariable, `origin, `open
      ensures open == old(open) && T == old(Tables())
      ensures Settles(g, T, Tables(), w, r)
    {
      T := Tables();
      CollectedOperands(Surroundings(), before, T, name, l, w);
      r := TryRemoveTrivialPhi(w);
    }

    // One round of the loop: the value at the end of block q becomes the next operand.
    method AddPhiOperand(name: string, w: int, l: int, i: nat, q: int, ghost before: Table)
      requires Valid() && name in names && l in ready && l != g.entry && i < |Preds(g, l)| && q == Preds(g, l)[i]
      requires w !in before.phis && Collecting(Surroundings(), before, Tables(), name, l, w, i)
      modifies `value, `currentDefinitions, `valueToPhiCandidate, `valueToVariable, `origin, `open
      ensures Valid() && open == old(open) && Collecting(Surroundings(), before, Tables(), name, l, w, i + 1)
      decreases rank(l), 0
    {
      ghost var T0 := Tables();
      PredsRanked(g, rank, l, i);
      var operand := ReadVariable(name, q);
      ghost var T1 := Tables();
      CollectRead(Surroundings(), before, T0, T1, name, l, w, i, q, operand);
      AppendOperand(w, operand);
      CollectAppend(Surroundings(), before, T1, Tables(), name, l, w, i, q, operand);
    }

    method AppendOperand(w: int, operand: int)
      requires w in valueToPhiCandidate && operand != w
      modifies `valueToPhiCandidate
      ensures IsAppended(old(Tables()), Tables(), w, operand)
      ensures forall u | u in old(valueToPhiCandidate) && u != w && u != operand ::
              valueToPhiCandidate[u] == old(valueToPhiCandidate)[u]
    {
      var phi := valueToPhiCandidate[w];
      valueToPhiCandidate := valueToPhiCandidate[w := phi.(operands := phi.operands + [operand])];
      if operand in valueToPhiCandidate {
        var used := valueToPhiCandidate[operand];
        valueToPhiCandidate := valueToPhiCandidate[operand := used.(users := used.users + [w])];
      }
    }

    method TryRemoveTrivialPhi(w: int) returns (r: int)
      requires w in valueToPhiCandidate && valueToPhiCandidate[w].users == []
      requires exists k | 0 <= k < |valueToPhiCandidate[w].operands| :: valueToPhiCandidate[w].operands[k] != w
      requires -1 !in valueToPhiCandidate[w].operands
      modifies `valueToPhiCandidate, `valueToVariable
      ensures Settles(g, old(Tables()), Tables(), w, r)
    {
      var phi := valueToPhiCandidate[w];
      var same := -1;
      var i := 0;
      while i < |phi.operands|
        invariant 0 <= i <= |phi.operands|
        invariant forall k | 0 <= k < i :: phi.operands[k] == w || phi.operands[k] == same
        invariant same != -1 ==> same != w && exists k | 0 <= k < i :: phi.operands[k] == same
      {
        var operand := phi.operands[i];
        if operand == same || operand == w {
        } else {
          if same != -1 {
            return w;
          }
          same := operand;
        }
        i := i + 1;
      }
      valueToPhiCandidate := valueToPhiCandidate - {w};
      valueToVariable := valueToVariable - {w};
      r := same;
    }

    // ---------- filling a block ----------

    ghost function Snap(): Fill
      reads this
    {
      Fill(Surroundings(), Tables(), currentLabel, logs, constants, labelToInstructions, names, sealedBasicBlocks)
    }

    method InsertInstructionAtLabel(i: Instr, l: int)
      modifies `labelToInstructions
      ensures Snap() == old(Snap()).(code := old(labelToInstructions)[l := At(old(labelToInstructions), l) + [i]])
    {
      if l !in labelToInstructions {
        labelToInstructions := labelToInstructions[l := [] + [i]];
      } else {
        labelToInstructions := labelToInstructions[l := labelToInstructions[l] + [i]];
      }
    }

    method Push(e: Expr)
      modifies `expressionStack
      ensures Snap() == old(Snap()) && expressionStack == old(expressionStack) + [e]
    {
      expressionStack := expressionStack + [e];
    }

    method Pop() returns (e: Expr)
      requires expressionStack != []
      modifies `expressionStack
      ensures Snap() == old(Snap()) && e == old(expressionStack)[|old(expressionStack)| - 1]
      ensures expressionStack == old(expressionStack)[..|old(expressionStack)| - 1]
    {
      e := expressionStack[|expressionStack| - 1];
      expressionStack := expressionStack[..|expressionStack| - 1];
    }

    method ReadForUse(x: string) returns (v: int)
      requires FillOk(Snap()) && Readable(VariableAccess(x), names, Defined(logs[currentLabel]))
      modifies `value, `currentDefinitions, `valueToPhiCandidate, `valueToVariable, `origin, `open
      ensures FillOk(Snap()) && v in valueToVariable
      ensures Pushed(old(Snap()), expressionStack, Snap(), expressionStack + [VariableAccess(valueToVariable[v])],
              VariableAccess(x))
    {
      ghost var S := Snap();
      v := ReadInBlock(x);
      VariablePushed(S, Tables(), expressionStack, x, v);
    }

    method ReadInBlock(x: string) returns (v: int)
      requires FillOk(Snap()) && Readable(VariableAccess(x), names, Defined(logs[currentLabel]))
      modifies `value, `currentDefinitions, `valueToPhiCandidate, `valueToVariable, `origin, `open
      ensures Snap() == old(Snap()).(T := Tables())
      ensures TableOk(Surroundings(), Tables()) && ReadOk(Surroundings(), x, currentLabel, v, old(Tables()), Tables())
    {
      ReadPossible(Snap(), x);
      v := ReadVariable(x, currentLabel);
    }

    method VisitVariable(x: string)
      requires FillOk(Snap()) && Readable(VariableAccess(x), names, Defined(logs[currentLabel]))
      modifies `value, `currentDefinitions, `valueToPhiCandidate, `valueToVariable, `origin, `open, `expressionStack
      ensures FillOk(Snap()) && Pushed(old(Snap()), old(expressionStack), Snap(), expressionStack, VariableAccess(x))
    {
      var v := ReadForUse(x);
      Push(VariableAccess(valueToVariable[v]));
    }

    // A fresh value for x, with a variable of the given name, is the definition of x in block l.
    method DefineValue(x: string, l: int, name: string)
      requires value >= 0
      modifies `value, `currentDefinitions, `valueToVariable, `origin, `own
      ensures Snap() == old(Snap()).(T := Define(old(Tables()), x, l, name),
              F := old(Surroundings()).(own := old(own)[(x, l) := old(value)]))
    {
      var v := value;
      value := value + 1;
      valueToVariable := valueToVariable[v := name];
      WriteVariable(x, l, v);
      own, origin := own[(x, l) := v], origin[v := l];
    }

    method VisitConstant(e: Expr)
      requires FillOk(Snap()) && (e.IntegerConstant? || e.BooleanConstant?)
      modifies `value, `currentDefinitions, `valueToVariable, `origin, `own, `labelToInstructions, `expressionStack,
              `constants
      ensures FillOk(Snap()) && Pushed(old(Snap()), old(expressionStack), Snap(), expressionStack, e)
    {
      ConstantFilled(Snap(), e);
      ConstantPushed(Snap(), expressionStack, e);
      EmitConstant(e);
    }

    ghost method FixConstant(e: Expr)
      requires value >= 0
      modifies `constants
      ensures Snap() == old(Snap()).(constants := old(constants) + [Fixed(value, e)])
    {
      constants := constants + [Fixed(value, e)];
    }

    method EmitConstant(e: Expr)
      requires value >= 0
      modifies `value, `currentDefinitions, `valueToVariable, `origin, `own, `labelToInstructions, `expressionStack,
              `constants
      ensures Snap() == ConstantFill(old(Snap()), e)
      ensures expressionStack == old(expressionStack) + [VariableAccess(ConstantName(old(value)))]
    {
      var constantVariableName := ConstantName(value);
      FixConstant(e);
      InsertInstructionAtLabel(Assign(constantVariableName, e), currentLabel);
      DefineValue(constantVariableName, currentLabel, constantVariableName);
      Push(VariableAccess(constantVariableName));
    }

    method VisitExpression(e: Expr)
      requires FillOk(Snap()) && Readable(e, names, Defined(logs[currentLabel]))
      modifies `value, `currentDefinitions, `valueToPhiCandidate, `valueToVariable, `origin, `open, `own,
              `labelToInstructions, `expressionStack, `constants
      ensures FillOk(Snap()) && Pushed(old(Snap()), old(expressionStack), Snap(), expressionStack, e)
      decreases e
    {
      match e
      case VariableAccess(x) => VisitVariable(x);
      case IntegerConstant(_) => VisitConstant(e);
      case BooleanConstant(_) => VisitConstant(e);
      case UnaryExpression(op, a) =>
        VisitExpression(a);
        UnaryPushed(old(Snap()), old(expressionStack), Snap(), expressionStack, e);
        var encodedExpression := Pop();
        Push(UnaryExpression(op, encodedExpression));
      case BinaryExpression(op, l, r) => VisitBinary(e);
      case NondeterministicConstant => assert false;
    }

    method VisitBinary(e: Expr)
      requires FillOk(Snap()) && Readable(e, names, Defined(logs[currentLabel])) && e.BinaryExpression?
      modifies `value, `currentDefinitions, `valueToPhiCandidate, `valueToVariable, `origin, `open, `own,
              `labelToInstructions, `expressionStack, `constants
      ensures FillOk(Snap()) && Pushed(old(Snap()), old(expressionStack), Snap(), expressionStack, e)
      decreases e, 0
    {
      VisitExpression(e.left);
      ghost var S1, stack1 := Snap(), expressionStack;
      var leftExpression := Pop();
      VisitExpression(e.right);
      BinaryPushed(old(Snap()), old(expressionStack), S1, stack1, Snap(), expressionStack, e);
      var rightExpression := Pop();
      Push(BinaryExpression(e.binary, leftExpression, rightExpression));
    }

    method Encode(e: Expr) returns (r: Expr)
      requires FillOk(Snap()) && Readable(e, names, Defined(logs[currentLabel])) && expressionStack == []
      modifies `value, `currentDefinitions, `valueToPhiCandidate, `valueToVariable, `origin, `open, `own,
              `labelToInstructions, `expressionStack, `constants
      ensures FillOk(Snap()) && Pushed(old(Snap()), [], Snap(), [r], e) && expressionStack == []
    {
      VisitExpression(e);
      OnePushed(old(Snap()), Snap(), expressionStack, e);
      r := Pop();
    }

    // The renamed instruction is emitted, and its renaming logged.
    method EmitDefinition(x: string, ghost s: Renaming, target: Instr)
      requires value >= 0 && currentLabel in logs && s.target == target
      modifies `value, `currentDefinitions, `valueToVariable, `origin, `own, `labelToInstructions, `logs, `constants
      ensures Snap() == CompletedFill(old(Snap()), x, s)
    {
      LogRenaming(s);
      InsertInstructionAtLabel(target, currentLabel);
      DefineValue(x, currentLabel, SsaName(x, value));
    }

    ghost method LogRenaming(s: Renaming)
      requires currentLabel in logs
      modifies `logs, `constants
      ensures Snap() == old(Snap()).(logs := old(logs)[currentLabel := old(logs)[currentLabel] + [s]], constants := [])
    {
      logs, constants := logs[currentLabel := logs[currentLabel] + [s]], [];
    }

    method VisitAssignment(x: string, e: Expr) returns (ghost s: Renaming)
      requires FillOk(Snap()) && constants == [] && expressionStack == []
      requires Renamable(Assign(x, e), names, Defined(logs[currentLabel]))
      modifies `value, `currentDefinitions, `valueToPhiCandidate, `valueToVariable, `origin, `open, `own,
              `labelToInstructions, `expressionStack, `constants, `logs
      ensures FillOk(Snap()) && Renamed(old(Snap()), Snap(), s) && s.source == Assign(x, e) && expressionStack == []
    {
      var r := Encode(e);
      ghost var S := Snap();
      s := Renaming(Assign(x, e), constants, Assign(SsaName(x, value), r), value, Defined(logs[currentLabel]));
      DefinitionFilled(S, x, s);
      EmitDefinition(x, s, Assign(SsaName(x, value), r));
    }

    method VisitHavoc(x: string) returns (ghost s: Renaming)
      requires FillOk(Snap()) && constants == [] && expressionStack == []
      requires Renamable(Havoc(x), names, Defined(logs[currentLabel]))
      modifies `value, `currentDefinitions, `valueToPhiCandidate, `valueToVariable, `origin, `open, `own,
              `labelToInstructions, `expressionStack, `constants, `logs
      ensures FillOk(Snap()) && Renamed(old(Snap()), Snap(), s) && s.source == Havoc(x) && expressionStack == []
    {
      s := Renaming(Havoc(x), [], Havoc(SsaName(x, value)), value, Defined(logs[currentLabel]));
      DefinitionFilled(Snap(), x, s);
      EmitDefinition(x, s, Havoc(SsaName(x, value)));
    }

    method VisitIf(e: Expr, thenLabel: int, elseLabel: int) returns (ghost s: Renaming)
      requires FillOk(Snap()) && constants == [] && expressionStack == []
      requires Renamable(IfGoto(e, thenLabel, elseLabel), names, Defined(logs[currentLabel]))
      modifies `value, `currentDefinitions, `valueToPhiCandidate, `valueToVariable, `origin, `open, `own,
              `labelToInstructions, `expressionStack, `constants, `logs
      ensures FillOk(Snap()) && Renamed(old(Snap()), Snap(), s) && s.source == IfGoto(e, thenLabel, elseLabel)
              && expressionStack == []
    {
      var r := Encode(e);
      s := Renaming(IfGoto(e, thenLabel, elseLabel), constants, IfGoto(r, thenLabel, elseLabel), -1,
            Defined(logs[currentLabel]));
      ConditionFilled(Snap(), s);
      EmitCondition(s, IfGoto(r, thenLabel, elseLabel));
    }

    method EmitCondition(ghost s: Renaming, target: Instr)
      requires currentLabel in logs && s.target == target && FillOk(ConditionFill(Snap(), s))
      modifies `labelToInstructions, `logs, `constants
      ensures Snap() == ConditionFill(old(Snap()), s) && FillOk(Snap())
    {
      LogRenaming(s);
      InsertInstructionAtLabel(target, currentLabel);
    }

    method VisitInstruction(i: Instr) returns (ghost s: Renaming)
      requires FillOk(Snap()) && constants == [] && expressionStack == []
      requires Renamable(i, names, Defined(logs[currentLabel]))
      modifies `value, `currentDefinitions, `valueToPhiCandidate, `valueToVariable, `origin, `open, `own,
              `labelToInstructions, `expressionStack, `constants, `logs
      ensures FillOk(Snap()) && Renamed(old(Snap()), Snap(), s) && s.source == i && expressionStack == []
    {
      match i
      case Assign(x, e) => s := VisitAssignment(x, e);
      case Havoc(x) => s := VisitHavoc(x);
      case IfGoto(e, t, f) => s := VisitIf(e, t, f);
      case Call(_, _, _, _) => assert false;
      case Goto(_) => assert false;
      case WhileGoto(_, _, _) => assert false;
    }

    method VisitSequence(instrs: seq<Instr>)
      requires FillOk(Snap()) && constants == [] && expressionStack == [] && logs[currentLabel] == []
      requires BlockRenamable(instrs, names)
      modifies `value, `currentDefinitions, `valueToPhiCandidate, `valueToVariable, `origin, `open, `own,
              `labelToInstructions, `expressionStack, `constants, `logs
      ensures FillOk(Snap()) && Extended(old(Snap()), Snap(), instrs, |instrs|) && expressionStack == []
    {
      ghost var S0 := Snap();
      var n := 0;
      while n < |instrs|
        invariant n <= |instrs|
        invariant FillOk(Snap()) && Extended(S0, Snap(), instrs, n) && expressionStack == []
      {
        ghost var S1 := Snap();
        NextRenamable(S1, instrs, n);
        ghost var s := VisitInstruction(instrs[n]);
        ExtendedBy(S0, S1, Snap(), instrs, n, s);
        n := n + 1;
      }
    }

    // ---------- the order of the blocks ----------

    method OpenBlock(l: int)
      requires l in sealedBasicBlocks && constants == []
      modifies `currentLabel, `ready, `logs
      ensures Snap() == OpenedFill(old(Snap()), l)
    {
      assert sealedBasicBlocks + {l} == sealedBasicBlocks;
      currentLabel, ready, logs := l, ready + {l}, logs[l := []];
    }

    method FillBlock(l: int, instrs: seq<Instr>)
      requires IdleOk(Snap()) && constants == [] && expressionStack == [] && BlockRenamable(instrs, names)
      requires l !in ready && l !in logs && l != g.entry && l in sealedBasicBlocks
      requires Preds(g, l) != [] && (forall q | q in Preds(g, l) :: q in ready) && g.exit !in Preds(g, l)
      modifies `value, `currentDefinitions, `valueToPhiCandidate, `valueToVariable, `origin, `open, `own,
              `labelToInstructions, `expressionStack, `constants, `logs, `currentLabel, `ready
      ensures IdleOk(Snap()) && constants == [] && expressionStack == [] && ready == old(ready) + {l}
      ensures l in logs && logs == old(logs)[l := logs[l]] && Renames(logs[l], instrs)
    {
      ghost var S := Snap();
      BlockOpened(S, l);
      OpenBlock(l);
      VisitSequence(instrs);
      BlockFilled(S, Snap(), l, instrs);
    }

    method IsSealable(l: int) returns (sealable: bool)
      ensures sealable <==> forall p | p in Preds(g, l) :: p in filledBasicBlocks
    {
      var precedingLabels := Preds(g, l);
      sealable := true;
      var i := 0;
      while i < |precedingLabels|
        invariant 0 <= i <= |precedingLabels|
        invariant forall k | 0 <= k < i :: precedingLabels[k] in filledBasicBlocks
      {
        if precedingLabels[i] !in filledBasicBlocks {
          sealable := false;
          assert precedingLabels[i] in Preds(g, l);
          break;
        }
        i := i + 1;
      }
    }

    method InitialiseVariables()
      requires Constructible(g, rank, names) && Snap() == Fill(Frame(g, rank, {g.entry}, map[], {}),
              Table(value, map[], map[], map[], map[]), currentLabel, map[], [], map[], names, {g.entry})
      requires value >= 0
      modifies `value, `currentDefinitions, `valueToVariable, `origin, `own
      ensures IdleOk(Snap())
      ensures ready == old(ready) && logs == old(logs)
    {
      var i := 0;
      while i < |names|
        invariant 0 <= i <= |names|
        invariant IdleOk(Snap().(names := names[..i]))
      {
        InitialiseVariable(i);
        i := i + 1;
      }
      assert names[..|names|] == names;
    }

    method InitialiseVariable(i: nat)
      requires i < |names| && IdleOk(Snap().(names := names[..i])) && ready == {g.entry} && logs == map[]
      modifies `value, `currentDefinitions, `valueToVariable, `origin, `own
      ensures IdleOk(Snap().(names := names[..i + 1]))
    {
      InitialDefined(Snap().(names := names[..i]), names[i]);
      OneMoreName(names, i);
      DefineValue(names[i], g.entry, SsaName(names[i], value));
    }

    method SucceedingLabels(l: int) returns (r: seq<int>)
      ensures r == Targets(Outgoing(g.edges, l))
    {
      var edges := Outgoing(g.edges, l);
      r := [];
      var i := 0;
      while i < |edges|
        invariant 0 <= i <= |edges| && |r| == i && forall k | 0 <= k < i :: r[k] == edges[k].target
      {
        r := r + [edges[i].target];
        i := i + 1;
      }
    }

    method FillBlocks()
      requires Constructible(g, rank, names) && Working(g, Snap(), filledBasicBlocks, {}, [g.entry])
              && expressionStack == []
      modifies `value, `currentDefinitions, `valueToPhiCandidate, `valueToVariable, `origin, `open, `own,
              `labelToInstructions, `expressionStack, `constants, `logs, `currentLabel, `ready, `sealedBasicBlocks,
              `filledBasicBlocks
      ensures Working(g, Snap(), filledBasicBlocks, g.vertices.Keys - {g.exit}, [])
    {
      var q := [g.entry];
      ghost var done: set<int> := {};
      while q != []
        invariant Working(g, Snap(), filledBasicBlocks, done, q) && expressionStack == []
        decreases g.vertices.Keys - done, |q|, FirstMovable(g, done, q)
      {
        var l := q[0];
        if l == g.entry {
          EntryProcessed(g, rank, Snap(), filledBasicBlocks, done, q);
          MarkFilled(g.entry);
          var succeedingLabels := SucceedingLabels(l);
          q, done := q[1..] + [succeedingLabels[0]], done + {g.entry};
        } else {
          q, done := VisitLabel(q, done);
        }
      }
      AllFilled(g, rank, Snap(), filledBasicBlocks, done);
    }

    // One round of the worklist.
    method VisitLabel(q: seq<int>, ghost done: set<int>) returns (q': seq<int>, ghost done': set<int>)
      requires Constructible(g, rank, names) && Working(g, Snap(), filledBasicBlocks, done, q) && expressionStack == []
      requires q != [] && q[0] != g.entry
      modifies `value, `currentDefinitions, `valueToPhiCandidate, `valueToVariable, `origin, `open, `own,
              `labelToInstructions, `expressionStack, `constants, `logs, `currentLabel, `ready, `sealedBasicBlocks,
              `filledBasicBlocks
      ensures Working(g, Snap(), filledBasicBlocks, done', q') && expressionStack == []
      ensures done < done' || (done' == done && (|q'| < |q| || (|q'| == |q| && FirstMovable(g, done,
              q') < FirstMovable(g, done, q))))
    {
      TrySeal(q, done);
      q', done' := ProcessLabel(q, done);
    }

    // The first block of the queue is sealed once all blocks in front of it are filled.
    method TrySeal(q: seq<int>, ghost done: set<int>)
      requires Constructible(g, rank, names) && Working(g, Snap(), filledBasicBlocks, done, q) && q != []
              && q[0] != g.entry
      modifies `sealedBasicBlocks
      ensures Working(g, Snap(), filledBasicBlocks, done, q)
      ensures (forall p | p in Preds(g, q[0]) :: p in done) ==> q[0] in sealedBasicBlocks
    {
      var l := q[0];
      SealableBlocks(g, rank, Snap(), filledBasicBlocks, done, q, l);
      var sealable := IsSealable(l);
      if sealable {
        LabelSealed(g, Snap(), filledBasicBlocks, done, q, l);
        SealBasicBlock(l);
      }
    }

    method ProcessLabel(q: seq<int>, ghost done: set<int>) returns (q': seq<int>, ghost done': set<int>)
      requires Constructible(g, rank, names) && Working(g, Snap(), filledBasicBlocks, done, q) && expressionStack == []
      requires q != [] && q[0] != g.entry && ((forall p | p in Preds(g, q[0]) :: p in done) ==>
              q[0] in sealedBasicBlocks)
      modifies `value, `currentDefinitions, `valueToPhiCandidate, `valueToVariable, `origin, `open, `own,
              `labelToInstructions, `expressionStack, `constants, `logs, `currentLabel, `ready, `filledBasicBlocks
      ensures Working(g, Snap(), filledBasicBlocks, done', q') && expressionStack == []
      ensures done < done' || (done' == done && (|q'| < |q| || (|q'| == |q| && FirstMovable(g, done,
              q') < FirstMovable(g, done, q))))
    {
      var l := q[0];
      done' := done;
      if l == g.exit && l !in sealedBasicBlocks {
        LabelDropped(g, Snap(), filledBasicBlocks, done, q);
        MarkFilled(g.exit);
        q' := q[1..];
      } else if l !in sealedBasicBlocks {
        // not sealed yet: the preceding blocks come first
        RotationDecreases(g, rank, Snap(), filledBasicBlocks, done, q);
        LabelPushedBack(g, Snap(), filledBasicBlocks, done, q);
        q' := q[1..] + [l];
      } else if l !in filledBasicBlocks {
        q' := FillLabel(q, done);
        done' := done + {l};
      } else {
        LabelDropped(g, Snap(), filledBasicBlocks, done, q);
        q' := q[1..];
      }
    }

    method SealBasicBlock(l: int)
      modifies `sealedBasicBlocks
      ensures Snap() == old(Snap()).(sealed := old(sealedBasicBlocks) + {l})
    {
      sealedBasicBlocks := sealedBasicBlocks + {l};
    }

    method FillLabel(q: seq<int>, ghost done: set<int>) returns (q': seq<int>)
      requires Constructible(g, rank, names) && Working(g, Snap(), filledBasicBlocks, done, q) && expressionStack == []
      requires q != [] && q[0] !in filledBasicBlocks && q[0] in sealedBasicBlocks
      modifies `value, `currentDefinitions, `valueToPhiCandidate, `valueToVariable, `origin, `open, `own,
              `labelToInstructions, `expressionStack, `constants, `logs, `currentLabel, `ready, `filledBasicBlocks
      ensures Working(g, Snap(), filledBasicBlocks, done + {q[0]}, q') && expressionStack == [] && q[0] !in done
    {
      FillSealed(q, done);
      var succeedingLabels := SucceedingLabels(q[0]);
      q' := q[1..] + succeedingLabels;
      MarkFilled(q[0]);
    }

    method FillSealed(q: seq<int>, ghost done: set<int>)
      requires Constructible(g, rank, names) && Working(g, Snap(), filledBasicBlocks, done, q) && expressionStack == []
      requires q != [] && q[0] !in filledBasicBlocks && q[0] in sealedBasicBlocks
      modifies `value, `currentDefinitions, `valueToPhiCandidate, `valueToVariable, `origin, `open, `own,
              `labelToInstructions, `expressionStack, `constants, `logs, `currentLabel, `ready
      ensures Working(g, Snap(), filledBasicBlocks + {q[0]}, done + {q[0]}, q[1..] + Targets(Outgoing(g.edges, q[0])))
      ensures expressionStack == [] && q[0] !in done
    {
      ghost var S := Snap();
      SealedFillable(g, rank, S, filledBasicBlocks, done, q, q[0]);
      FillBlock(q[0], g.vertices[q[0]].instrs);
      LabelFilled(g, rank, S, Snap(), filledBasicBlocks, done, q);
    }

    method MarkFilled(l: int)
      modifies `filledBasicBlocks
      ensures Snap() == old(Snap()) && filledBasicBlocks == old(filledBasicBlocks) + {l}
    {
      filledBasicBlocks := filledBasicBlocks + {l};
    }

    // Reading the variables at the exit places the phis that merge their values.
    method ReadAllAtExit()
      requires FillOk(Snap()) && Closing(g, Snap()) && forall x | x in names :: !IsConstantName(x)
      modifies `value, `currentDefinitions, `valueToPhiCandidate, `valueToVariable, `origin, `open
      ensures FillOk(Snap()) && Closing(g, Snap()) && RecordedUpTo(currentDefinitions, names, |names|, g.exit)
    {
      var i := 0;
      while i < |names|
        invariant 0 <= i <= |names|
        invariant FillOk(Snap()) && Closing(g, Snap()) && RecordedUpTo(currentDefinitions, names, i, g.exit)
      {
        assert names[i] in names;
        ReadAtExit(i);
        i := i + 1;
      }
    }

    method ReadAtExit(i: nat)
      requires FillOk(Snap()) && Closing(g, Snap()) && i < |names| && !IsConstantName(names[i])
      requires RecordedUpTo(currentDefinitions, names, i, g.exit)
      modifies `value, `currentDefinitions, `valueToPhiCandidate, `valueToVariable, `origin, `open
      ensures FillOk(Snap()) && Closing(g, Snap()) && RecordedUpTo(currentDefinitions, names, i + 1, g.exit)
    {
      ghost var S := Snap();
      var v := ReadVariable(names[i], g.exit);
      assert Snap() == S.(T := Tables());
      ExitRead(g, S, Tables(), i, v);
    }

    method RenamedVertices() returns (labelToVertex: map<int, Vertex>)
      requires FillOk(Snap()) && Closing(g, Snap())
      ensures labelToVertex.Keys == g.vertices.Keys
      ensures forall l | l in g.vertices :: labelToVertex[l] == if l == g.entry || l == g.exit then g.vertices[l]
              else Regular(EmittedAll(logs[l]))
    {
      labelToVertex := map l | l in g.vertices :: if l == g.entry || l == g.exit then g.vertices[l]
            else Regular(At(labelToInstructions, l));
      forall l | l in g.vertices && l != g.entry
              && l != g.exit ensures labelToVertex[l] == Regular(EmittedAll(logs[l])) {
        ClosingCode(g, Snap(), l);
      }
    }

    // The graph with renamed blocks; S is the state of the tables that comes with it.
    method Apply() returns (r: Graph, ghost S: Fill)
      requires Constructible(g, rank, names) && value >= 0
      requires Snap() == Fill(Frame(g, rank, {}, map[], {}), Table(value, map[], map[], map[], map[]), currentLabel,
              map[], [], map[], names, {})
      requires expressionStack == []
      modifies this
      ensures S == Snap() && IsSsaOf(g, names, S, r)
    {
      StartFilling();
      FillBlocks();
      ExitOpened(g, rank, Snap(), filledBasicBlocks, g.vertices.Keys - {g.exit});
      OpenBlock(g.exit);
      ReadAllAtExit();
      S := Snap();
      var labelToVertex := RenamedVertices();
      r := Graph(labelToVertex, g.edges, g.entry, g.exit);
    }

    // The entry has no preceding blocks and no instructions.
    method StartFilling()
      requires Constructible(g, rank, names) && value >= 0
      requires Snap() == Fill(Frame(g, rank, {}, map[], {}), Table(value, map[], map[], map[], map[]), currentLabel,
              map[], [], map[], names, {})
      modifies `sealedBasicBlocks, `ready, `value, `currentDefinitions, `valueToVariable, `origin, `own,
              `filledBasicBlocks
      ensures Working(g, Snap(), filledBasicBlocks, {}, [g.entry])
    {
      StartAtEntry();
      InitialiseVariables();
      filledBasicBlocks := {g.entry, g.exit};
      StartsWorking(g, rank, Snap());
    }

    method StartAtEntry()
      modifies `sealedBasicBlocks, `ready
      ensures Snap() == old(Snap()).(sealed := {g.entry}, F := old(Surroundings()).(ready := {g.entry}))
    {
      sealedBasicBlocks, ready := {g.entry}, {g.entry};
    }
  }

  lemma {:induction false} OnePushed(S: Fill, U: Fill, stack: seq<Expr>, e: Expr)
    requires Pushed(S, [], U, stack, e)
    ensures stack != [] && stack == [stack[|stack| - 1]] && stack[..|stack| - 1] == []
  {
  }

  lemma {:induction false} OneMoreName(names: seq<string>, i: nat)
    requires i < |names|
    ensures names[..i] + [names[i]] == names[..i + 1]
  {
  }
}
