// Deterministic machines over program configurations, and when a machine that takes larger steps
// ends where one that takes smaller steps does.

module Machines {
  import opened Ir

  datatype Config = Config(pc: int, st: State)

  function Iterate(f: Config -> Config, c: Config, n: nat): Config
    decreases n
  {
    if n == 0 then c else Iterate(f, f(c), n - 1)
  }

  ghost predicate Arrives(f: Config -> Config, c: Config, d: Config) {
    exists n: nat :: Iterate(f, c, n) == d
  }

  lemma {:induction false} IterateAdd(f: Config -> Config, c: Config, m: nat, n: nat)
    ensures Iterate(f, c, m + n) == Iterate(f, Iterate(f, c, m), n)
    decreases m
  {
    if m > 0 {
      IterateAdd(f, f(c), m - 1, n);
    }
  }

  // What one step of two machines keeps, any number of steps keeps.
  lemma {:induction false} TogetherKept(f: Config -> Config, h: Config -> Config, kept: (Config, Config) -> bool,
        c: Config, d: Config, n: nat)
    requires kept(c, d) && forall a, b {:trigger kept(a, b)} | kept(a, b) :: kept(f(a), h(b))
    ensures kept(Iterate(f, c, n), Iterate(h, d, n))
    decreases n
  {
    if n > 0 {
      TogetherKept(f, h, kept, f(c), h(d), n - 1);
    }
  }

  lemma {:induction false} IterateFixed(f: Config -> Config, x: Config, n: nat)
    requires f(x) == x
    ensures Iterate(f, x, n) == x
  {
    if n > 0 {
      IterateFixed(f, x, n - 1);
    }
  }

  // One step of `fast` is k(c) > 0 steps of `slow`, on the configurations that `aligned` holds of.
  ghost predicate Accelerates(slow: Config -> Config, fast: Config -> Config, aligned: Config -> bool,
        k: Config -> nat) {
    forall c {:trigger AcceleratesAt(slow, fast, aligned, k, c)} | aligned(c) ::
            AcceleratesAt(slow, fast, aligned, k, c)
  }

  ghost predicate AcceleratesAt(slow: Config -> Config, fast: Config -> Config, aligned: Config -> bool,
        k: Config -> nat, c: Config) {
    aligned(fast(c)) && k(c) > 0 && Iterate(slow, c, k(c)) == fast(c)
  }

  // Both machines then arrive at the same configurations in which the slow one has halted.
  lemma {:induction false} SameResults(slow: Config -> Config, fast: Config -> Config, aligned: Config -> bool,
        k: Config -> nat, c: Config, x: Config)
    requires Accelerates(slow, fast, aligned, k) && aligned(c) && slow(x) == x
    ensures Arrives(slow, c, x) <==> Arrives(fast, c, x)
  {
    if Arrives(slow, c, x) {
      var n: nat :| Iterate(slow, c, n) == x;
      SlowToFast(slow, fast, aligned, k, c, x, n);
    }
    if Arrives(fast, c, x) {
      var n: nat :| Iterate(fast, c, n) == x;
      FastToSlow(slow, fast, aligned, k, c, x, n);
    }
  }

  lemma {:induction false} SlowToFast(slow: Config -> Config, fast: Config -> Config, aligned: Config -> bool,
        k: Config -> nat, c: Config, x: Config, n: nat)
    requires Accelerates(slow, fast, aligned, k) && aligned(c) && slow(x) == x
    requires Iterate(slow, c, n) == x
    ensures Arrives(fast, c, x)
    decreases n
  {
    var d := fast(c);
    assert AcceleratesAt(slow, fast, aligned, k, c);
    if k(c) <= n {
      IterateAdd(slow, c, k(c), n - k(c));
      SlowToFast(slow, fast, aligned, k, d, x, n - k(c));
      var m: nat :| Iterate(fast, d, m) == x;
      assert Iterate(fast, c, m + 1) == x;
    } else {
      IterateAdd(slow, c, n, k(c) - n);
      IterateFixed(slow, x, k(c) - n);
      assert Iterate(fast, d, 0) == x;
      assert Iterate(fast, c, 1) == x;
    }
  }

  lemma {:induction false} FastToSlow(slow: Config -> Config, fast: Config -> Config, aligned: Config -> bool,
        k: Config -> nat, c: Config, x: Config, n: nat)
    requires Accelerates(slow, fast, aligned, k) && aligned(c)
    requires Iterate(fast, c, n) == x
    ensures Arrives(slow, c, x)
    decreases n
  {
    if n == 0 {
      assert Iterate(slow, c, 0) == x;
    } else {
      var d := fast(c);
      assert AcceleratesAt(slow, fast, aligned, k, c);
      FastToSlow(slow, fast, aligned, k, d, x, n - 1);
      var m: nat :| Iterate(slow, d, m) == x;
      IterateAdd(slow, c, k(c), m);
      assert Iterate(slow, c, k(c) + m) == x;
    }
  }
}
