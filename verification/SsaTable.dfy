// What the definition table of the SSA construction means (ahorn/src/pass/ssa/ssa_pass.cpp):
// values, operandless phis, and following phi operands along a path.

module SsaTable {
  import opened Ir
  import opened Cfg

  // A phi candidate: `operands` are values in the order of the incoming edges of its block.
  datatype Phi = Phi(name: string, block: int, value: int, operands: seq<int>, users: seq<int>)

  type Phis = map<int, Phi>
  type Definitions = map<string, map<int, int>>   // variable to block to value
  type Own = map<(string, int), int>              // the last value an instruction of the block defined

  function Preds(g: Graph, l: int): seq<int> {
    var incoming := Incoming(g.edges, l);
    seq(|incoming|, i requires 0 <= i < |incoming| => incoming[i].source)
  }

  predicate PathTo(g: Graph, p: seq<int>, l: int) {
    && p != [] && p[0] == g.entry && p[|p| - 1] == l
    && forall i | 0 <= i < |p| - 1 :: p[i] in Preds(g, p[i + 1])
  }

  function IndexOf(s: seq<int>, x: int): (k: nat)
    requires x in s
    ensures k < |s| && s[k] == x
  {
    if s[0] == x then 0 else 1 + IndexOf(s[1..], x)
  }

  // The operand for the edge that comes from block q.
  function OperandFrom(g: Graph, phi: Phi, q: int): int {
    var preds := Preds(g, phi.block);
    if q in preds && IndexOf(preds, q) < |phi.operands| then phi.operands[IndexOf(preds, q)] else phi.value
  }

  // Follow the phi operands of a value back along a path, down to a value that is not a phi.
  function Resolve(g: Graph, phis: Phis, v: int, p: seq<int>): int
    decreases |p|
  {
    if |p| <= 1 then v
    else if v in phis && phis[v].block == p[|p| - 1] then
      Resolve(g, phis, OperandFrom(g, phis[v], p[|p| - 2]), p[..|p| - 1])
    else Resolve(g, phis, v, p[..|p| - 1])
  }

  // The last definition of a variable on a path, -1 if there is none.
  function LastDefinition(own: Own, x: string, p: seq<int>): int
    decreases |p|
  {
    if p == [] then -1
    else if (x, p[|p| - 1]) in own then own[(x, p[|p| - 1])]
    else LastDefinition(own, x, p[..|p| - 1])
  }

  // On every path to l, the value resolves to the definition that reaches the end of l.
  ghost predicate ReachesEnd(g: Graph, phis: Phis, own: Own, x: string, l: int, v: int) {
    forall p | PathTo(g, p, l) :: Resolve(g, phis, v, p) == LastDefinition(own, x, p)
  }

  // On every path to l, the value resolves to the definition that reaches the beginning of l.
  ghost predicate ReachesStart(g: Graph, phis: Phis, own: Own, x: string, l: int, v: int) {
    forall p | PathTo(g, p, l) && |p| > 1 :: Resolve(g, phis, v, p) == LastDefinition(own, x, p[..|p| - 1])
  }

  ghost predicate Ranked(g: Graph, rank: int -> nat) {
    forall e | e in g.edges :: rank(e.source) < rank(e.target)
  }

  lemma {:induction false} PredsRanked(g: Graph, rank: int -> nat, l: int, k: int)
    requires Ranked(g, rank) && 0 <= k < |Preds(g, l)|
    ensures rank(Preds(g, l)[k]) < rank(l)
  {
    var e := Incoming(g.edges, l)[k];
    assert e in Incoming(g.edges, l);
  }

  // A value that may be recorded at, or read from, a block of rank at most r: its phi is complete
  // and lies no later.
  ghost predicate Settled(phis: Phis, open: set<int>, rank: int -> nat, next: int, v: int, r: int) {
    0 <= v < next && v !in open && (v in phis ==> rank(phis[v].block) <= r)
  }

  ghost predicate PhiOk(g: Graph, rank: int -> nat, phis: Phis, open: set<int>, next: int, w: int)
    requires w in phis
  {
    var phi := phis[w];
    && phi.value == w && 0 <= w < next
    && (forall k | 0 <= k < |phi.operands| :: Settled(phis, open, rank, next, phi.operands[k], rank(phi.block) - 1))
  }

  // A complete phi has one operand for each edge into its block, and two of them differ.
  ghost predicate Complete(g: Graph, phi: Phi) {
    && |phi.operands| == |Preds(g, phi.block)|
    && exists i, j | 0 <= i < j < |phi.operands| :: phi.operands[i] != phi.operands[j]
  }

  predicate Recorded(defs: Definitions, x: string, l: int) {
    x in defs && l in defs[x]
  }

  function Write(defs: Definitions, x: string, l: int, v: int): Definitions {
    defs[x := (if x in defs then defs[x] else map[])[l := v]]
  }

  ghost predicate EntryOk(g: Graph, rank: int -> nat, ready: set<int>, own: Own, open: set<int>, phis: Phis,
        next: int, x: string, l: int, v: int) {
    l in ready && Settled(phis, open, rank, next, v, rank(l)) && ReachesEnd(g, phis, own, x, l, v)
  }

  ghost predicate PhisOk(g: Graph, rank: int -> nat, open: set<int>, phis: Phis, next: int) {
    && 0 <= next
    && (forall w {:trigger PhiOk(g, rank, phis, open, next, w)} | w in phis :: PhiOk(g, rank, phis, open, next, w))
    && (forall w | w in phis && w !in open :: Complete(g, phis[w]))
  }

  // A phi under construction is recorded at its own block, and nowhere else.
  ghost predicate OpenOk(open: set<int>, defs: Definitions, phis: Phis) {
    forall w | w in open :: w in phis && Recorded(defs, phis[w].name, phis[w].block)
            && defs[phis[w].name][phis[w].block] == w
  }

  ghost predicate EntriesOk(g: Graph, rank: int -> nat, ready: set<int>, own: Own, open: set<int>, defs: Definitions,
        phis: Phis, next: int) {
    forall x, l {:trigger Recorded(defs, x, l)} | Recorded(defs, x, l) ::
      var v := defs[x][l];
      if v in open then v in phis && phis[v].name == x && phis[v].block == l
      else EntryOk(g, rank, ready, own, open, phis, next, x, l, v)
  }

  ghost predicate OwnOk(own: Own, defs: Definitions, phis: Phis, next: int) {
    forall x, l {:trigger (x, l) in own} | (x, l) in own ::
      Recorded(defs, x, l) && defs[x][l] == own[(x, l)] && 0 <= own[(x, l)] < next && own[(x, l)] !in phis
  }

  // The table while the phis in `open` are under construction; `ready` are the blocks that are
  // filled, and the one that is being filled.
  ghost predicate Good(g: Graph, rank: int -> nat, ready: set<int>, own: Own, open: set<int>, defs: Definitions,
        phis: Phis, next: int) {
    && PhisOk(g, rank, open, phis, next)
    && OpenOk(open, defs, phis)
    && EntriesOk(g, rank, ready, own, open, defs, phis, next)
    && OwnOk(own, defs, phis, next)
  }

  predicate SamePhi(a: Phi, b: Phi) {
    a.name == b.name && a.block == b.block && a.value == b.value && a.operands == b.operands
  }

  // A change of the table that settled values cannot see: complete phis keep their operands, and no
  // old value becomes a phi.
  ghost predicate Keeps(open: set<int>, phis: Phis, next: int, phis': Phis, next': int) {
    && next <= next'
    && (forall w | w in phis && w !in open :: w in phis' && SamePhi(phis[w], phis'[w]))
    && (forall w | w in phis' && w !in phis :: next <= w)
  }

  lemma {:induction false} ResolveStable(g: Graph, rank: int -> nat, open: set<int>, phis: Phis, next: int,
        phis': Phis, next': int, v: int, r: int, p: seq<int>)
    requires PhisOk(g, rank, open, phis, next)
    requires Keeps(open, phis, next, phis', next') && Settled(phis, open, rank, next, v, r)
    ensures Resolve(g, phis', v, p) == Resolve(g, phis, v, p)
    decreases |p|
  {
    if |p| > 1 {
      if v in phis && phis[v].block == p[|p| - 1] {
        assert PhiOk(g, rank, phis, open, next, v);
        var op := OperandFrom(g, phis[v], p[|p| - 2]);
        ResolveStable(g, rank, open, phis, next, phis', next', op, r, p[..|p| - 1]);
      } else {
        ResolveStable(g, rank, open, phis, next, phis', next', v, r, p[..|p| - 1]);
      }
    }
  }

  lemma {:induction false} SettledStable(rank: int -> nat, open: set<int>, phis: Phis, next: int, open': set<int>,
        phis': Phis, next': int, v: int, r: int)
    requires Settled(phis, open, rank, next, v, r) && Keeps(open, phis, next, phis', next') && v !in open'
    ensures Settled(phis', open', rank, next', v, r)
  {
  }

  lemma {:induction false} ReachesStable(g: Graph, rank: int -> nat, open: set<int>, phis: Phis, next: int,
        phis': Phis, next': int, own: Own, x: string, l: int, v: int, r: int)
    requires PhisOk(g, rank, open, phis, next) && Keeps(open, phis, next, phis', next')
            && Settled(phis, open, rank, next, v, r)
    ensures ReachesEnd(g, phis, own, x, l, v) <==> ReachesEnd(g, phis', own, x, l, v)
  {
    forall p | PathTo(g, p, l) ensures Resolve(g, phis', v, p) == Resolve(g, phis, v, p) {
      ResolveStable(g, rank, open, phis, next, phis', next', v, r, p);
    }
  }

  // Entries with settled values survive such a change.
  lemma {:induction false} EntryStable(g: Graph, rank: int -> nat, ready: set<int>, own: Own, open: set<int>,
        phis: Phis, next: int, open': set<int>, phis': Phis, next': int, x: string, l: int, v: int)
    requires PhisOk(g, rank, open, phis, next) && Keeps(open, phis, next, phis', next') && v !in open'
    requires EntryOk(g, rank, ready, own, open, phis, next, x, l, v)
    ensures EntryOk(g, rank, ready, own, open', phis', next', x, l, v)
  {
    SettledStable(rank, open, phis, next, open', phis', next', v, rank(l));
    ReachesStable(g, rank, open, phis, next, phis', next', own, x, l, v, rank(l));
  }

  lemma {:induction false} PhiStable(g: Graph, rank: int -> nat, open: set<int>, phis: Phis, next: int,
        open': set<int>, phis': Phis, next': int, w: int)
    requires PhisOk(g, rank, open, phis, next) && Keeps(open, phis, next, phis', next')
    requires w in phis && w in phis' && SamePhi(phis[w], phis'[w])
    requires forall k | 0 <= k < |phis[w].operands| :: phis[w].operands[k] !in open'
    ensures PhiOk(g, rank, phis', open', next', w)
  {
    assert PhiOk(g, rank, phis, open, next, w);
    forall k | 0 <= k < |phis[w].operands|
      ensures Settled(phis', open', rank, next', phis'[w].operands[k], rank(phis'[w].block) - 1)
    {
      SettledStable(rank, open, phis, next, open', phis', next', phis[w].operands[k], rank(phis[w].block) - 1);
    }
  }

  // ---------- growing the table ----------

  // A fresh phi without operands, recorded at its block.
  lemma {:induction false} PhiPlaced(g: Graph, rank: int -> nat, ready: set<int>, own: Own, open: set<int>,
        defs: Definitions, phis: Phis, next: int, x: string, l: int)
    requires Good(g, rank, ready, own, open, defs, phis, next) && !Recorded(defs, x, l)
    ensures Good(g, rank, ready, own, open + {next}, Write(defs, x, l, next), phis[next := Phi(x, l, next, [], [])],
            next + 1)
  {
    var phis', open', defs' := phis[next := Phi(x, l, next, [], [])], open + {next}, Write(defs, x, l, next);
    forall w | w in phis ensures w != next { assert PhiOk(g, rank, phis, open, next, w); }
    assert Keeps(open, phis, next, phis', next + 1);
    forall w | w in phis' ensures PhiOk(g, rank, phis', open', next + 1, w) {
      if w != next {
        assert PhiOk(g, rank, phis, open, next, w);
        PhiStable(g, rank, open, phis, next, open', phis', next + 1, w);
      }
    }
    forall y, k | Recorded(defs', y, k)
      ensures var v := defs'[y][k];
              if v in open' then v in phis' && phis'[v].name == y && phis'[v].block == k
              else EntryOk(g, rank, ready, own, open', phis', next + 1, y, k, v)
    {
      if !(y == x && k == l) {
        assert Recorded(defs, y, k);
        if defs[y][k] !in open' { EntryStable(g, rank, ready, own, open, phis, next, open', phis', next + 1, y, k,
              defs[y][k]); }
      }
    }
  }

  // One more operand for a phi under construction.
  lemma {:induction false} OperandAppended(g: Graph, rank: int -> nat, ready: set<int>, own: Own, open: set<int>,
        defs: Definitions, phis: Phis, next: int, w: int, op: int, phis': Phis)
    requires Good(g, rank, ready, own, open, defs, phis, next) && w in open
    requires Settled(phis, open, rank, next, op, rank(phis[w].block) - 1)
    requires phis'.Keys == phis.Keys && SamePhi(phis'[w], phis[w].(operands := phis[w].operands + [op]))
    requires forall u | u in phis && u != w :: SamePhi(phis[u], phis'[u])
    ensures Good(g, rank, ready, own, open, defs, phis', next)
  {
    assert Keeps(open, phis, next, phis', next);
    forall u | u in phis' ensures PhiOk(g, rank, phis', open, next, u) {
      assert PhiOk(g, rank, phis, open, next, u);
      if u != w {
        PhiStable(g, rank, open, phis, next, open, phis', next, u);
      } else {
        forall k | 0 <= k < |phis'[w].operands|
          ensures Settled(phis', open, rank, next, phis'[w].operands[k], rank(phis'[w].block) - 1)
        {
          SettledStable(rank, open, phis, next, open, phis', next, (phis[w].operands + [op])[k],
                rank(phis[w].block) - 1);
        }
      }
    }
    forall y, k | Recorded(defs, y, k)
      ensures var v := defs[y][k];
              if v in open then v in phis' && phis'[v].name == y && phis'[v].block == k
              else EntryOk(g, rank, ready, own, open, phis', next, y, k, v)
    {
      if defs[y][k] !in open { EntryStable(g, rank, ready, own, open, phis, next, open, phis', next, y, k,
            defs[y][k]); }
    }
  }

  // The operands of a phi are the values at the ends of the preceding blocks.
  ghost predicate OperandsReach(g: Graph, phis: Phis, own: Own, phi: Phi, count: int)
    requires count <= |phi.operands| && count <= |Preds(g, phi.block)|
  {
    forall k | 0 <= k < count :: ReachesEnd(g, phis, own, phi.name, Preds(g, phi.block)[k], phi.operands[k])
  }

  lemma {:induction false} PathFront(g: Graph, p: seq<int>, l: int)
    requires PathTo(g, p, l) && |p| > 1
    ensures p[|p| - 2] in Preds(g, l) && PathTo(g, p[..|p| - 1], p[|p| - 2])
  {
    var q := p[..|p| - 1];
    assert p[|p| - 2] in Preds(g, p[|p| - 2 + 1]);
    forall i | 0 <= i < |q| - 1 ensures q[i] in Preds(g, q[i + 1]) {
      assert p[i] in Preds(g, p[i + 1]);
    }
  }

  // A phi whose operands reach from its predecessors reaches its own block.
  lemma {:induction false} PhiReaches(g: Graph, phis: Phis, own: Own, w: int)
    requires w in phis && phis[w].block != g.entry && (phis[w].name, phis[w].block) !in own
    requires |phis[w].operands| == |Preds(g, phis[w].block)|
    requires OperandsReach(g, phis, own, phis[w], |phis[w].operands|)
    ensures ReachesEnd(g, phis, own, phis[w].name, phis[w].block, w)
  {
    var phi := phis[w];
    forall p | PathTo(g, p, phi.block) ensures Resolve(g, phis, w, p) == LastDefinition(own, phi.name, p) {
      PathFront(g, p, phi.block);
      var q := p[|p| - 2];
      var k := IndexOf(Preds(g, phi.block), q);
      assert ReachesEnd(g, phis, own, phi.name, Preds(g, phi.block)[k], phi.operands[k]);
    }
  }

  // A value that reaches the ends of all preceding blocks reaches a block without own definition.
  lemma {:induction false} ValueReaches(g: Graph, rank: int -> nat, open: set<int>, phis: Phis, next: int, own: Own,
        x: string, l: int, v: int)
    requires l != g.entry && (x, l) !in own && Settled(phis, open, rank, next, v, rank(l) - 1)
    requires forall q | q in Preds(g, l) :: ReachesEnd(g, phis, own, x, q, v)
    ensures ReachesEnd(g, phis, own, x, l, v)
  {
    forall p | PathTo(g, p, l) ensures Resolve(g, phis, v, p) == LastDefinition(own, x, p) {
      PathFront(g, p, l);
      assert ReachesEnd(g, phis, own, x, p[|p| - 2], v);
    }
  }

  // A phi with all its operands, two of which differ, is complete.
  lemma {:induction false} PhiCompleted(g: Graph, rank: int -> nat, ready: set<int>, own: Own, open: set<int>,
        defs: Definitions, phis: Phis, next: int, w: int)
    requires Good(g, rank, ready, own, open, defs, phis, next) && w in open
    requires phis[w].block in ready && phis[w].block != g.entry && Complete(g, phis[w])
    requires OperandsReach(g, phis, own, phis[w], |phis[w].operands|)
    ensures Good(g, rank, ready, own, open - {w}, defs, phis, next)
    ensures EntryOk(g, rank, ready, own, open - {w}, phis, next, phis[w].name, phis[w].block, w)
  {
    var open' := open - {w};
    assert PhiOk(g, rank, phis, open, next, w);
    assert Keeps(open, phis, next, phis, next);
    PhiReaches(g, phis, own, w);
    forall u | u in phis ensures PhiOk(g, rank, phis, open', next, u) {
      assert PhiOk(g, rank, phis, open, next, u);
      PhiStable(g, rank, open, phis, next, open', phis, next, u);
    }
    forall y, k | Recorded(defs, y, k)
      ensures var v := defs[y][k];
              if v in open' then v in phis && phis[v].name == y && phis[v].block == k
              else EntryOk(g, rank, ready, own, open', phis, next, y, k, v)
    {
      if defs[y][k] !in open { EntryStable(g, rank, ready, own, open, phis, next, open', phis, next, y, k,
            defs[y][k]); }
    }
  }

  // A trivial phi is dropped in favour of its only operand.
  lemma {:induction false} PhiDropped(g: Graph, rank: int -> nat, ready: set<int>, own: Own, open: set<int>,
        defs: Definitions, phis: Phis, next: int, w: int, same: int)
    requires Good(g, rank, ready, own, open, defs, phis, next) && w in open
    requires phis[w].block in ready && phis[w].block != g.entry
    requires |phis[w].operands| == |Preds(g, phis[w].block)| > 0
    requires forall k | 0 <= k < |phis[w].operands| :: phis[w].operands[k] == same
    requires OperandsReach(g, phis, own, phis[w], |phis[w].operands|)
    ensures Good(g, rank, ready, own, open - {w}, Write(defs, phis[w].name, phis[w].block, same), phis - {w}, next)
    ensures EntryOk(g, rank, ready, own, open - {w}, phis - {w}, next, phis[w].name, phis[w].block, same)
  {
    var x, l := phis[w].name, phis[w].block;
    var open', phis', defs' := open - {w}, phis - {w}, Write(defs, x, l, same);
    assert PhiOk(g, rank, phis, open, next, w);
    assert Settled(phis, open, rank, next, phis[w].operands[0], rank(l) - 1);
    assert Keeps(open, phis, next, phis', next);
    forall q | q in Preds(g, l) ensures ReachesEnd(g, phis, own, x, q, same) {
      var k := IndexOf(Preds(g, l), q);
      assert ReachesEnd(g, phis, own, x, Preds(g, l)[k], phis[w].operands[k]);
    }
    ValueReaches(g, rank, open, phis, next, own, x, l, same);
    EntryStable(g, rank, ready, own, open, phis, next, open', phis', next, x, l, same);
    forall u | u in phis' ensures PhiOk(g, rank, phis', open', next, u) {
      assert PhiOk(g, rank, phis, open, next, u);
      PhiStable(g, rank, open, phis, next, open', phis', next, u);
    }
    forall y, k | Recorded(defs', y, k)
      ensures var v := defs'[y][k];
              if v in open' then v in phis' && phis'[v].name == y && phis'[v].block == k
              else EntryOk(g, rank, ready, own, open', phis', next, y, k, v)
    {
      if !(y == x && k == l) {
        assert Recorded(defs, y, k);
        if defs[y][k] !in open { EntryStable(g, rank, ready, own, open, phis, next, open', phis', next, y, k,
              defs[y][k]); }
      }
    }
  }

  // The value of the only predecessor is recorded at a block without own definition.
  lemma {:induction false} ValueCopied(g: Graph, rank: int -> nat, ready: set<int>, own: Own, open: set<int>,
        defs: Definitions, phis: Phis, next: int, x: string, l: int, v: int)
    requires Good(g, rank, ready, own, open, defs, phis, next) && !Recorded(defs, x, l)
    requires l in ready && l != g.entry && Settled(phis, open, rank, next, v, rank(l) - 1)
    requires forall q | q in Preds(g, l) :: ReachesEnd(g, phis, own, x, q, v)
    ensures Good(g, rank, ready, own, open, Write(defs, x, l, v), phis, next)
    ensures EntryOk(g, rank, ready, own, open, phis, next, x, l, v)
  {
    var defs' := Write(defs, x, l, v);
    ValueReaches(g, rank, open, phis, next, own, x, l, v);
    forall y, k | Recorded(defs', y, k)
      ensures var u := defs'[y][k];
              if u in open then u in phis && phis[u].name == y && phis[u].block == k
              else EntryOk(g, rank, ready, own, open, phis, next, y, k, u)
    {
      if !(y == x && k == l) { assert Recorded(defs, y, k); }
    }
  }
}
