// The tables of the SSA construction together: definitions, phi candidates, and the variable and the
// block of every value (the private fields of `SsaPass`, ahorn/include/ahorn/pass/ssa/ssa_pass.h:100-124).

module SsaNames {
  import opened Ir
  import opened Cfg
  import opened Tac
  import opened SsaTable

  // `origin` is the block that defines a value; the source does not store it.
  datatype Table = Table(next: int, defs: Definitions, phis: Phis, variables: map<int, string>, origin: map<int, int>)

  // What the tables are about: the graph with its topological order, the blocks that are filled or
  // being filled, the last definitions, and the phis under construction.
  datatype Frame = Frame(g: Graph, rank: int -> nat, ready: set<int>, own: Own, open: set<int>)

  // ---------- names of values ----------

  function SsaName(x: string, v: nat): string {
    x + "_" + Digits(v)
  }

  function ConstantName(v: nat): string {
    "const" + Digits(v)
  }

  ghost predicate IsConstantName(x: string) {
    exists v: nat :: x == ConstantName(v)
  }

  ghost predicate NamesValue(name: string, v: int) {
    v >= 0 && (name == ConstantName(v) || exists x :: name == SsaName(x, v))
  }

  lemma {:induction false} DigitsPlain(n: nat)
    ensures '_' !in Digits(n)
  {
    if n >= 10 {
      DigitsPlain(n / 10);
    }
  }

  lemma {:induction false} LastSeparator(a: string, b: string, s: string)
    requires s == a + "_" + b && '_' !in b
    ensures s[|a|] == '_' && forall i | |a| < i < |s| :: s[i] != '_'
  {
    forall i | |a| < i < |s| ensures s[i] != '_' {
      assert s[i] == b[i - |a| - 1];
    }
  }

  lemma {:induction false} SplitUnique(a: string, b: string, c: string, d: string)
    requires a + "_" + b == c + "_" + d && '_' !in b && '_' !in d
    ensures a == c && b == d
  {
    var s := a + "_" + b;
    LastSeparator(a, b, s);
    LastSeparator(c, d, s);
    assert a == s[..|a|] == c;
    assert b == s[|a| + 1..] == d;
  }

  lemma {:induction false} ConstantPlain(v: nat, x: string, w: nat)
    ensures ConstantName(v) != SsaName(x, w)
  {
    DigitsPlain(v);
    assert SsaName(x, w)[|x|] == '_';
  }

  // Different values have different names.
  lemma {:induction false} NamesInjective(name: string, v: int, w: int)
    requires NamesValue(name, v) && NamesValue(name, w)
    ensures v == w
  {
    DigitsPlain(v);
    DigitsPlain(w);
    if name == ConstantName(v) {
      forall y ensures name != SsaName(y, w) { ConstantPlain(v, y, w); }
      assert Digits(v) == name[5..] && Digits(w) == name[5..];
      DigitsInjective(v, w);
    } else {
      var x :| name == SsaName(x, v);
      ConstantPlain(w, x, v);
      var y :| name == SsaName(y, w);
      SplitUnique(x, Digits(v), y, Digits(w));
      DigitsInjective(v, w);
    }
  }

  // ---------- every value has a variable ----------

  ghost predicate NamedAt(T: Table, rank: int -> nat, v: int, r: int) {
    v in T.variables && v in T.origin && rank(T.origin[v]) <= r
  }

  ghost predicate PhiNamed(T: Table, rank: int -> nat, w: int)
    requires w in T.phis
  {
    && w in T.variables && w in T.origin && T.origin[w] == T.phis[w].block
    && forall k | 0 <= k < |T.phis[w].operands| :: NamedAt(T, rank, T.phis[w].operands[k], rank(T.phis[w].block) - 1)
  }

  ghost predicate OwnAt(T: Table, own: Own, x: string, l: int) {
    (x, l) in own ==> own[(x, l)] in T.origin && T.origin[own[(x, l)]] == l
  }

  ghost predicate Named(T: Table, rank: int -> nat, own: Own) {
    && (forall x, l {:trigger Recorded(T.defs, x, l)} | Recorded(T.defs, x, l) ::
          NamedAt(T, rank, T.defs[x][l], rank(l)))
    && (forall w {:trigger PhiNamed(T, rank, w)} | w in T.phis :: PhiNamed(T, rank, w))
    && (forall v | v in T.variables :: v in T.origin && NamesValue(T.variables[v], v))
    && (forall v | v in T.origin :: 0 <= v < T.next)
    && (forall x, l {:trigger OwnAt(T, own, x, l)} :: OwnAt(T, own, x, l))
  }

  ghost predicate TableOk(F: Frame, T: Table) {
    Good(F.g, F.rank, F.ready, F.own, F.open, T.defs, T.phis, T.next) && Named(T, F.rank, F.own)
  }

  // What reading does to the tables: settled facts stay, phis under construction are not touched.
  ghost predicate Grown(open: set<int>, a: Table, b: Table) {
    && Keeps({}, a.phis, a.next, b.phis, b.next)
    && (forall x, l {:trigger Recorded(b.defs, x, l)} | Recorded(a.defs, x, l) :: Recorded(b.defs, x, l)
          && b.defs[x][l] == a.defs[x][l])
    && (forall v | v in a.variables :: v in b.variables && b.variables[v] == a.variables[v])
    && (forall v | v in a.origin :: v in b.origin && b.origin[v] == a.origin[v])
    && (forall w | w in open && w in a.phis :: w in b.phis && b.phis[w] == a.phis[w])
  }

  // Only the variable x gets new entries, and only up to rank r.
  ghost predicate OnlyReads(rank: int -> nat, x: string, r: int, a: Table, b: Table) {
    forall y, k {:trigger Recorded(b.defs, y, k)} | Recorded(b.defs, y, k) && !Recorded(a.defs, y, k) :: y == x
            && rank(k) <= r
  }

  // What a read of x at block l returns, and how it leaves the tables.
  ghost predicate ReadOk(F: Frame, x: string, l: int, v: int, a: Table, b: Table) {
    && EntryOk(F.g, F.rank, F.ready, F.own, F.open, b.phis, b.next, x, l, v)
    && Recorded(b.defs, x, l) && b.defs[x][l] == v
    && Grown(F.open, a, b) && OnlyReads(F.rank, x, F.rank(l), a, b)
  }

  // ---------- the changes ----------

  function PlacePhi(T: Table, x: string, l: int): Table
    requires T.next >= 0
  {
    Table(T.next + 1, Write(T.defs, x, l, T.next), T.phis[T.next := Phi(x, l, T.next, [], [])],
          T.variables[T.next := SsaName(x, T.next)], T.origin[T.next := l])
  }

  lemma {:induction false} PlacePhiOk(F: Frame, T: Table, x: string, l: int)
    requires TableOk(F, T) && !Recorded(T.defs, x, l)
    ensures TableOk(F.(open := F.open + {T.next}), PlacePhi(T, x, l))
  {
    PhiPlaced(F.g, F.rank, F.ready, F.own, F.open, T.defs, T.phis, T.next, x, l);
    var U := PlacePhi(T, x, l);
    PlacePhiNamed(F, T, x, l);
    assert NamesValue(SsaName(x, T.next), T.next);
    forall y, k ensures OwnAt(U, F.own, y, k) { assert OwnAt(T, F.own, y, k); }
  }

  lemma {:induction false} PlacePhiNamed(F: Frame, T: Table, x: string, l: int)
    requires TableOk(F, T) && !Recorded(T.defs, x, l)
    ensures var U := PlacePhi(T, x, l);
            && (forall w | w in U.phis :: PhiNamed(U, F.rank, w))
            && forall y, k | Recorded(U.defs, y, k) :: NamedAt(U, F.rank, U.defs[y][k], F.rank(k))
  {
    var U := PlacePhi(T, x, l);
    forall w | w in U.phis ensures PhiNamed(U, F.rank, w) {
      if w != T.next { assert PhiNamed(T, F.rank, w); }
    }
    forall y, k | Recorded(U.defs, y, k) ensures NamedAt(U, F.rank, U.defs[y][k], F.rank(k)) {
      if !(y == x && k == l) { assert Recorded(T.defs, y, k); }
    }
  }

  // One more operand, and the phi is noted as a user of that operand.
  predicate IsAppended(T: Table, U: Table, w: int, op: int) {
    && w in T.phis && U == T.(phis := U.phis) && U.phis.Keys == T.phis.Keys
    && U.phis[w] == T.phis[w].(operands := T.phis[w].operands + [op])
    && forall u | u in T.phis && u != w :: SamePhi(T.phis[u], U.phis[u])
  }

  lemma {:induction false} AppendOk(F: Frame, T: Table, U: Table, w: int, op: int)
    requires TableOk(F, T) && w in F.open && IsAppended(T, U, w, op)
    requires Settled(T.phis, F.open, F.rank, T.next, op, F.rank(T.phis[w].block) - 1)
    requires NamedAt(T, F.rank, op, F.rank(T.phis[w].block) - 1)
    ensures TableOk(F, U)
  {
    OperandAppended(F.g, F.rank, F.ready, F.own, F.open, T.defs, T.phis, T.next, w, op, U.phis);
    forall u | u in U.phis ensures PhiNamed(U, F.rank, u) {
      assert PhiNamed(T, F.rank, u);
      forall k | 0 <= k < |U.phis[u].operands|
        ensures NamedAt(U, F.rank, U.phis[u].operands[k], F.rank(U.phis[u].block) - 1)
      {
        if u == w && k == |T.phis[w].operands| {
          assert U.phis[u].operands[k] == op;
        } else {
          assert U.phis[u].operands[k] == T.phis[u].operands[k];
        }
      }
    }
    forall x, l | Recorded(U.defs, x, l) ensures NamedAt(U, F.rank, U.defs[x][l], F.rank(l)) {
      assert Recorded(T.defs, x, l);
    }
    forall y, k ensures OwnAt(U, F.own, y, k) { assert OwnAt(T, F.own, y, k); }
  }

  function DropPhi(T: Table, w: int, same: int): Table
    requires w in T.phis
  {
    T.(defs := Write(T.defs, T.phis[w].name, T.phis[w].block, same), phis := T.phis - {w},
          variables := T.variables - {w})
  }

  lemma {:induction false} DropOk(F: Frame, T: Table, w: int, same: int)
    requires TableOk(F, T) && w in F.open && w in T.phis
    requires T.phis[w].block in F.ready && T.phis[w].block != F.g.entry
    requires |T.phis[w].operands| == |Preds(F.g, T.phis[w].block)| > 0
    requires forall k | 0 <= k < |T.phis[w].operands| :: T.phis[w].operands[k] == same
    requires OperandsReach(F.g, T.phis, F.own, T.phis[w], |T.phis[w].operands|)
    ensures TableOk(F.(open := F.open - {w}), DropPhi(T, w, same))
    ensures var U := DropPhi(T, w, same);
            EntryOk(F.g, F.rank, F.ready, F.own, F.open - {w}, U.phis, U.next, T.phis[w].name, T.phis[w].block, same)
  {
    PhiDropped(F.g, F.rank, F.ready, F.own, F.open, T.defs, T.phis, T.next, w, same);
    var U, x, l := DropPhi(T, w, same), T.phis[w].name, T.phis[w].block;
    assert PhiNamed(T, F.rank, w);
    assert NamedAt(T, F.rank, T.phis[w].operands[0], F.rank(l) - 1);
    assert PhiOk(F.g, F.rank, T.phis, F.open, T.next, w);
    assert Settled(T.phis, F.open, F.rank, T.next, T.phis[w].operands[0], F.rank(l) - 1);
    forall u | u in U.phis ensures PhiNamed(U, F.rank, u) {
      assert PhiNamed(T, F.rank, u) && PhiOk(F.g, F.rank, T.phis, F.open, T.next, u);
      forall k | 0 <= k < |U.phis[u].operands|
        ensures NamedAt(U, F.rank, U.phis[u].operands[k], F.rank(U.phis[u].block) - 1)
      {
        assert NamedAt(T, F.rank, T.phis[u].operands[k], F.rank(T.phis[u].block) - 1);
        assert Settled(T.phis, F.open, F.rank, T.next, T.phis[u].operands[k], F.rank(T.phis[u].block) - 1);
      }
    }
    forall y, k | Recorded(U.defs, y, k) ensures NamedAt(U, F.rank, U.defs[y][k], F.rank(k)) {
      if !(y == x && k == l) {
        assert Recorded(T.defs, y, k);
        assert NamedAt(T, F.rank, T.defs[y][k], F.rank(k));
      }
    }
    forall y, k ensures OwnAt(U, F.own, y, k) { assert OwnAt(T, F.own, y, k); }
  }

  lemma {:induction false} CompleteOk(F: Frame, T: Table, w: int)
    requires TableOk(F, T) && w in F.open && w in T.phis
    requires T.phis[w].block in F.ready && T.phis[w].block != F.g.entry && Complete(F.g, T.phis[w])
    requires OperandsReach(F.g, T.phis, F.own, T.phis[w], |T.phis[w].operands|)
    ensures TableOk(F.(open := F.open - {w}), T)
    ensures EntryOk(F.g, F.rank, F.ready, F.own, F.open - {w}, T.phis, T.next, T.phis[w].name, T.phis[w].block, w)
  {
    PhiCompleted(F.g, F.rank, F.ready, F.own, F.open, T.defs, T.phis, T.next, w);
  }

  function Copy(T: Table, x: string, l: int, v: int): Table {
    T.(defs := Write(T.defs, x, l, v))
  }

  lemma {:induction false} CopyOk(F: Frame, T: Table, x: string, l: int, v: int)
    requires TableOk(F, T) && !Recorded(T.defs, x, l)
    requires l in F.ready && l != F.g.entry && Settled(T.phis, F.open, F.rank, T.next, v, F.rank(l) - 1)
    requires NamedAt(T, F.rank, v, F.rank(l) - 1)
    requires forall q | q in Preds(F.g, l) :: ReachesEnd(F.g, T.phis, F.own, x, q, v)
    ensures TableOk(F, Copy(T, x, l, v))
    ensures EntryOk(F.g, F.rank, F.ready, F.own, F.open, T.phis, T.next, x, l, v)
  {
    ValueCopied(F.g, F.rank, F.ready, F.own, F.open, T.defs, T.phis, T.next, x, l, v);
    var U := Copy(T, x, l, v);
    forall w | w in U.phis ensures PhiNamed(U, F.rank, w) {
      assert PhiNamed(T, F.rank, w);
      forall k | 0 <= k < |U.phis[w].operands|
        ensures NamedAt(U, F.rank, U.phis[w].operands[k], F.rank(U.phis[w].block) - 1)
      {
        assert NamedAt(T, F.rank, T.phis[w].operands[k], F.rank(T.phis[w].block) - 1);
      }
    }
    forall y, k | Recorded(U.defs, y, k) ensures NamedAt(U, F.rank, U.defs[y][k], F.rank(k)) {
      if !(y == x && k == l) { assert Recorded(T.defs, y, k); }
    }
    forall y, k ensures OwnAt(U, F.own, y, k) { assert OwnAt(T, F.own, y, k); }
  }

  // Recording the value that was read in front of a block.
  lemma {:induction false} CopyGrown(F: Frame, a: Table, b: Table, x: string, l: int, q: int, v: int)
    requires Grown(F.open, a, b) && OnlyReads(F.rank, x, F.rank(q), a, b)
    requires !Recorded(a.defs, x, l) && F.rank(q) < F.rank(l)
    ensures !Recorded(b.defs, x, l)
    ensures Grown(F.open, a, Copy(b, x, l, v)) && OnlyReads(F.rank, x, F.rank(l), a, Copy(b, x, l, v))
  {
    var c := Copy(b, x, l, v);
    assert !Recorded(b.defs, x, l);
    forall y, k | Recorded(a.defs, y, k) ensures Recorded(c.defs, y, k) && c.defs[y][k] == a.defs[y][k] {
      assert Recorded(b.defs, y, k);
    }
    forall y, k | Recorded(c.defs, y, k) && !Recorded(a.defs, y, k) ensures y == x && F.rank(k) <= F.rank(l) {
      if !(y == x && k == l) { assert Recorded(b.defs, y, k); }
    }
  }

  // A block with one block in front of it: the value read there is recorded here.
  lemma {:induction false} CopiedAfterRead(F: Frame, a: Table, b: Table, x: string, l: int, q: int, v: int)
    requires Ranked(F.g, F.rank) && l in F.ready && l != F.g.entry && Preds(F.g, l) == [q]
    requires !Recorded(a.defs, x, l) && TableOk(F, b) && ReadOk(F, x, q, v, a, b)
    ensures TableOk(F, Copy(b, x, l, v)) && ReadOk(F, x, l, v, a, Copy(b, x, l, v))
  {
    PredsRanked(F.g, F.rank, l, 0);
    CopyGrown(F, a, b, x, l, q, v);
    assert NamedAt(b, F.rank, v, F.rank(q));
    CopyOk(F, b, x, l, v);
  }

  // ---------- collecting the operands of a phi ----------

  // No phi under construction is at a block of rank r or below.
  ghost predicate OpenAbove(phis: Phis, open: set<int>, rank: int -> nat, r: int) {
    forall w | w in open :: w in phis && rank(phis[w].block) > r
  }

  // The phi w of x at block l has the operands of the first i edges; a is the table before it was placed.
  ghost predicate Collecting(F: Frame, a: Table, T: Table, x: string, l: int, w: int, i: int) {
    && TableOk(F, T) && a.next <= w && w in F.open && w in T.phis
    && T.phis[w].name == x && T.phis[w].block == l && T.phis[w].value == w && T.phis[w].users == []
    && |T.phis[w].operands| == i <= |Preds(F.g, l)|
    && OperandsReach(F.g, T.phis, F.own, T.phis[w], i)
    && OpenAbove(T.phis, F.open, F.rank, F.rank(l) - 1)
    && Grown(F.open - {w}, a, T) && OnlyReads(F.rank, x, F.rank(l), a, T)
  }

  lemma {:induction false} CollectStart(F: Frame, T: Table, x: string, l: int)
    requires TableOk(F, T) && !Recorded(T.defs, x, l) && OpenAbove(T.phis, F.open, F.rank, F.rank(l))
    ensures Collecting(F.(open := F.open + {T.next}), T, PlacePhi(T, x, l), x, l, T.next, 0)
  {
    PlacePhiOk(F, T, x, l);
    PlacePhiAdds(F, T, x, l);
  }

  // The only new entry of the table is that of the phi.
  lemma {:induction false} PlacePhiAdds(F: Frame, T: Table, x: string, l: int)
    requires TableOk(F, T) && !Recorded(T.defs, x, l)
    ensures var U := PlacePhi(T, x, l);
            && (forall w | w in T.phis :: w != T.next)
            && (forall y, k | Recorded(T.defs, y, k) :: Recorded(U.defs, y, k) && U.defs[y][k] == T.defs[y][k])
            && forall y, k | Recorded(U.defs, y, k) && !Recorded(T.defs, y, k) :: y == x && k == l
  {
    forall w | w in T.phis ensures w != T.next { assert PhiOk(F.g, F.rank, T.phis, F.open, T.next, w); }
  }

  // The operands collected so far stay what they are while the next one is read.
  lemma {:induction false} CollectRead(F: Frame, a: Table, T: Table, U: Table, x: string, l: int, w: int, i: nat,
        q: int, op: int)
    requires Ranked(F.g, F.rank) && i < |Preds(F.g, l)| && q == Preds(F.g, l)[i]
    requires Collecting(F, a, T, x, l, w, i) && TableOk(F, U) && ReadOk(F, x, q, op, T, U)
    ensures Collecting(F, a, U, x, l, w, i)
  {
    PredsRanked(F.g, F.rank, l, i);
    assert U.phis[w] == T.phis[w];
    assert PhiOk(F.g, F.rank, T.phis, F.open, T.next, w);
    forall k | 0 <= k < i ensures ReachesEnd(F.g, U.phis, F.own, x, Preds(F.g, l)[k], U.phis[w].operands[k]) {
      assert ReachesEnd(F.g, T.phis, F.own, x, Preds(F.g, l)[k], T.phis[w].operands[k]);
      ReachesStable(F.g, F.rank, F.open, T.phis, T.next, U.phis, U.next, F.own, x, Preds(F.g, l)[k],
            T.phis[w].operands[k], F.rank(l) - 1);
    }
    GrownThrough(F, a, T, U, w, x, F.rank(q), F.rank(l));
  }

  lemma {:induction false} GrownThrough(F: Frame, a: Table, T: Table, U: Table, w: int, x: string, r: int, r': int)
    requires Grown(F.open - {w}, a, T) && Grown(F.open, T, U) && a.next <= w && r <= r'
    requires OnlyReads(F.rank, x, r', a, T) && OnlyReads(F.rank, x, r, T, U)
    ensures Grown(F.open - {w}, a, U) && OnlyReads(F.rank, x, r', a, U)
  {
    forall y, k | Recorded(a.defs, y, k) ensures Recorded(U.defs, y, k) && U.defs[y][k] == a.defs[y][k] {
      assert Recorded(T.defs, y, k);
    }
    forall y, k | Recorded(U.defs, y, k) && !Recorded(a.defs, y, k) ensures y == x && F.rank(k) <= r' {
      if Recorded(T.defs, y, k) { } else { }
    }
  }

  lemma {:induction false} AppendGrown(F: Frame, a: Table, U: Table, V: Table, x: string, w: int, op: int, r: int)
    requires Grown(F.open - {w}, a, U) && OnlyReads(F.rank, x, r, a, U) && a.next <= w
    requires w !in a.phis && IsAppended(U, V, w, op)
    requires forall u | u in F.open && u != w && u in U.phis :: V.phis[u] == U.phis[u]
    ensures Grown(F.open - {w}, a, V) && OnlyReads(F.rank, x, r, a, V)
  {
  }

  lemma {:induction false} AppendReach(F: Frame, U: Table, V: Table, x: string, l: int, w: int, i: nat, op: int)
    requires TableOk(F, U) && w in F.open && w in U.phis && U.phis[w].block == l && U.phis[w].name == x
    requires i < |Preds(F.g, l)| && |U.phis[w].operands| == i && OperandsReach(F.g, U.phis, F.own, U.phis[w], i)
    requires IsAppended(U, V, w, op) && Settled(U.phis, F.open, F.rank, U.next, op, F.rank(l) - 1)
    requires ReachesEnd(F.g, U.phis, F.own, x, Preds(F.g, l)[i], op)
    ensures OperandsReach(F.g, V.phis, F.own, V.phis[w], i + 1)
  {
    assert PhiOk(F.g, F.rank, U.phis, F.open, U.next, w);
    assert Keeps(F.open, U.phis, U.next, V.phis, V.next);
    forall k | 0 <= k < i + 1 ensures ReachesEnd(F.g, V.phis, F.own, x, Preds(F.g, l)[k], V.phis[w].operands[k]) {
      if k < i { assert ReachesEnd(F.g, U.phis, F.own, x, Preds(F.g, l)[k], U.phis[w].operands[k]); }
      assert V.phis[w].operands[k] == if k < i then U.phis[w].operands[k] else op;
      ReachesStable(F.g, F.rank, F.open, U.phis, U.next, V.phis, V.next, F.own, x, Preds(F.g, l)[k],
            V.phis[w].operands[k], F.rank(l) - 1);
    }
  }

  lemma {:induction false} CollectAppend(F: Frame, a: Table, U: Table, V: Table, x: string, l: int, w: int, i: nat,
        q: int, op: int)
    requires Ranked(F.g, F.rank) && i < |Preds(F.g, l)| && q == Preds(F.g, l)[i]
    requires Collecting(F, a, U, x, l, w, i) && w !in a.phis
    requires EntryOk(F.g, F.rank, F.ready, F.own, F.open, U.phis, U.next, x, q, op) && NamedAt(U, F.rank, op, F.rank(q))
    requires IsAppended(U, V, w, op)
    requires forall u | u in F.open && u != w && u in U.phis :: V.phis[u] == U.phis[u]
    ensures Collecting(F, a, V, x, l, w, i + 1)
  {
    PredsRanked(F.g, F.rank, l, i);
    AppendOk(F, U, V, w, op);
    AppendReach(F, U, V, x, l, w, i, op);
    AppendGrown(F, a, U, V, x, w, op, F.rank(l));
  }

  // The phi is kept if two operands differ ...
  lemma {:induction false} CollectComplete(F: Frame, a: Table, T: Table, x: string, l: int, w: int)
    requires Collecting(F, a, T, x, l, w, |Preds(F.g, l)|) && l in F.ready && l != F.g.entry
    requires Complete(F.g, T.phis[w])
    ensures var G := F.(open := F.open - {w}); TableOk(G, T) && ReadOk(G, x, l, w, a, T)
    ensures Write(T.defs, x, l, w) == T.defs
  {
    CompleteOk(F, T, w);
    assert Recorded(T.defs, x, l) && T.defs[x][l := w] == T.defs[x];
  }

  // ... and dropped if they are all the same.
  lemma {:induction false} CollectDrop(F: Frame, a: Table, T: Table, x: string, l: int, w: int, same: int)
    requires Collecting(F, a, T, x, l, w, |Preds(F.g, l)|) && l in F.ready && l != F.g.entry && Preds(F.g, l) != []
    requires !Recorded(a.defs, x, l)
    requires forall v | v in a.variables || v in a.phis :: v < w
    requires forall k | 0 <= k < |T.phis[w].operands| :: T.phis[w].operands[k] == same
    ensures var G := F.(open := F.open - {w});
            TableOk(G, DropPhi(T, w, same)) && ReadOk(G, x, l, same, a, DropPhi(T, w, same))
  {
    DropOk(F, T, w, same);
    var U := DropPhi(T, w, same);
    forall y, k | Recorded(a.defs, y, k) ensures Recorded(U.defs, y, k) && U.defs[y][k] == a.defs[y][k] {
      assert Recorded(T.defs, y, k);
    }
    forall y, k | Recorded(U.defs, y, k) && !Recorded(a.defs, y, k) ensures y == x && F.rank(k) <= F.rank(l) {
      if !(y == x && k == l) { assert Recorded(T.defs, y, k); }
    }
  }

  // Whether the phi stays, with its value, or is replaced by its only operand. On an acyclic graph
  // nothing uses a phi before its operands are complete, so no user has to be rerouted.
  ghost predicate Settles(g: Graph, T: Table, U: Table, w: int, r: int)
    requires w in T.phis
  {
    if r == w then
      && U == T
      && exists i, j | 0 <= i < j < |T.phis[w].operands| ::
           T.phis[w].operands[i] != T.phis[w].operands[j] && T.phis[w].operands[i] != w && T.phis[w].operands[j] != w
    else
      && (forall k | 0 <= k < |T.phis[w].operands| :: T.phis[w].operands[k] == r || T.phis[w].operands[k] == w)
      && U == T.(phis := T.phis - {w}, variables := T.variables - {w})
  }

  lemma {:induction false} CollectedOperands(F: Frame, a: Table, T: Table, x: string, l: int, w: int)
    requires Collecting(F, a, T, x, l, w, |Preds(F.g, l)|) && Preds(F.g, l) != []
    ensures w !in T.phis[w].operands && -1 !in T.phis[w].operands
    ensures exists k | 0 <= k < |T.phis[w].operands| :: T.phis[w].operands[k] != w
  {
    assert PhiOk(F.g, F.rank, T.phis, F.open, T.next, w);
    forall k | 0 <= k < |T.phis[w].operands| ensures T.phis[w].operands[k] != w && T.phis[w].operands[k] != -1 {
      assert Settled(T.phis, F.open, F.rank, T.next, T.phis[w].operands[k], F.rank(l) - 1);
    }
    assert T.phis[w].operands[0] in T.phis[w].operands;
  }

  lemma {:induction false} SettledPhi(F: Frame, a: Table, T: Table, U: Table, x: string, l: int, w: int, r: int)
    requires Collecting(F, a, T, x, l, w, |Preds(F.g, l)|) && l in F.ready && l != F.g.entry && Preds(F.g, l) != []
    requires TableOk(F.(open := F.open - {w}), a) && !Recorded(a.defs, x, l) && Settles(F.g, T, U, w, r)
    ensures var G, V := F.(open := F.open - {w}), U.(defs := Write(U.defs, x, l, r));
            TableOk(G, V) && ReadOk(G, x, l, r, a, V)
  {
    CollectedOperands(F, a, T, x, l, w);
    if r == w {
      CollectComplete(F, a, T, x, l, w);
      assert U.(defs := Write(U.defs, x, l, r)) == T;
    } else {
      forall v | v in a.phis ensures v < w { assert PhiOk(F.g, F.rank, a.phis, F.open - {w}, a.next, v); }
      CollectDrop(F, a, T, x, l, w, r);
      assert U.(defs := Write(U.defs, x, l, r)) == DropPhi(T, w, r);
    }
  }
}
