// The edges of a built graph that belong to calls, and those between modules of a compiled project
// (ahorn/src/cfg/builder.cpp).

module CallEdges {
  import opened Ir
  import opened StructuredText
  import opened Plan
  import opened GotoCode
  import opened PouCompiler
  import opened Cfg
  import opened Builder
  import opened BasicBlocks
  import BlockShape
  import opened Origins

  // The vertices of a built graph: entry, exit, and every instruction that is no goto, as it is.
  lemma {:induction false} VerticesExactly(m: Module, name: string, exits: map<string, int>, g: Graph, l: int)
    requires Linked(m, exits) && IsGraphOf(m, name, exits, g)
    ensures l in g.vertices <==> l == m.entry || l == m.exit || (l in m.code && !m.code[l].Goto?)
    ensures g.entry == m.entry && g.exit == m.exit
    ensures l in g.vertices ==>
              g.vertices[l] == if l == m.entry then EntryVertex else if l == m.exit then ExitVertex
                               else Regular([m.code[l]])
  {
  }

  // A return edge leads from the exit of the callee to the return site of a call, and names the call
  // and its caller; every call has one.
  lemma {:induction false} ReturnEdgesExactly(m: Module, name: string, exits: map<string, int>, g: Graph, e: Edge)
    requires Linked(m, exits) && IsGraphOf(m, name, exits, g) && e.kind.InterproceduralReturn?
    ensures e in g.edges <==>
            && e.kind.caller == name && e.kind.callLabel in m.code
            && var i := m.code[e.kind.callLabel];
            i.Call? && i.pou in exits && e.source == exits[i.pou] && e.target == i.intraprocedural
  {
    var l := e.kind.callLabel;
    if e in g.edges {
      var k := EdgeStems(m.code, name, exits, m.entry + 1, m.exit, e);
      assert k == l;
    } else if l in m.code && m.code[l].Call? && e in EdgesAt(m.code[l], name, exits, l) {
      EdgeKept(m.code, name, exits, m.entry + 1, m.exit, l, e);
    }
  }

  // A call edge leads from a call to the label that the call enters, a call-to-return edge to its
  // return site; every call has both.
  lemma {:induction false} CallEdgesExactly(m: Module, name: string, exits: map<string, int>, g: Graph, e: Edge)
    requires Linked(m, exits) && IsGraphOf(m, name, exits, g)
    ensures e.kind.InterproceduralCall? ==>
              (e in g.edges <==> e.source in m.code && m.code[e.source].Call?
                                 && e.target == m.code[e.source].interprocedural)
    ensures e.kind.CallToReturn? ==>
              (e in g.edges <==> e.source in m.code && m.code[e.source].Call?
                                 && e.target == m.code[e.source].intraprocedural)
  {
    if e.kind.InterproceduralCall? || e.kind.CallToReturn? {
      var l := e.source;
      if e in g.edges {
        var k := EdgeStems(m.code, name, exits, m.entry + 1, m.exit, e);
        assert k == l;
      } else if l in m.code && m.code[l].Call? && e in EdgesAt(m.code[l], name, exits, l) {
        EdgeKept(m.code, name, exits, m.entry + 1, m.exit, l, e);
      }
    }
  }

  // ---------- which return edge is found ----------

  lemma {:induction false} ReturnEdgeAppend(a: seq<Edge>, b: seq<Edge>, site: int)
    ensures ReturnEdge(a + b, site) == if ReturnEdge(a, site).Some? then ReturnEdge(a, site) else ReturnEdge(b, site)
  {
    if a == [] {
      assert a + b == b;
    } else {
      assert (a + b)[0] == a[0] && (a + b)[1..] == a[1..] + b;
      ReturnEdgeAppend(a[1..], b, site);
    }
  }

  lemma {:induction false} ReturnEdgeUpTo(m: Module, name: string, exits: map<string, int>, l: int, hi: int, site: int)
    requires Linked(m, exits) && m.entry < l <= hi
    ensures var front := ReturnEdge(EdgesUpTo(m.code, name, exits, m.entry + 1, l), site);
            front.Some? ==> ReturnEdge(EdgesUpTo(m.code, name, exits, m.entry + 1, hi), site) == front
    decreases hi - l
  {
    if l < hi {
      ReturnEdgeUpTo(m, name, exits, l, hi - 1, site);
      var last := if hi - 1 in m.code then EdgesAt(m.code[hi - 1], name, exits, hi - 1) else [];
      ReturnEdgeAppend(EdgesUpTo(m.code, name, exits, m.entry + 1, hi - 1), last, site);
    }
  }

  lemma {:induction false} NoReturnUpTo(m: Module, name: string, exits: map<string, int>, l: int, site: int)
    requires Linked(m, exits) && m.entry < l
    ensures ReturnEdge(EdgesUpTo(m.code, name, exits, m.entry + 1, l), site).None? <==>
            forall k | m.entry < k < l && k in m.code && m.code[k].Call? :: m.code[k].intraprocedural != site
  {
    var front := EdgesUpTo(m.code, name, exits, m.entry + 1, l);
    if ReturnEdge(front, site).Some? {
      var i := BlockShape.ReturnEdgeIsFirst(front, site);
      var k := EdgeStems(m.code, name, exits, m.entry + 1, l, front[i]);
      assert m.code[k].Call? && m.code[k].intraprocedural == site;
    }
    forall k | m.entry < k < l && k in m.code && m.code[k].Call? && m.code[k].intraprocedural == site
      ensures ReturnEdge(front, site).Some?
    {
      var e := Edge(exits[m.code[k].pou], site, InterproceduralReturn(name, k));
      EdgeKept(m.code, name, exits, m.entry + 1, l, k, e);
      ReturnEdgeFound(front, site);
    }
  }

  // Looking for the edge that returns to the site of a call finds the edge of this call exactly if no
  // call in front of it has the same return site, as the calls at the ends of two branches have.
  lemma {:induction false} OwnReturnExactly(m: Module, name: string, exits: map<string, int>, g: Graph, l: int)
    requires Linked(m, exits) && IsGraphOf(m, name, exits, g) && l in m.code && m.code[l].Call?
    ensures var i := m.code[l];
            BlockShape.FirstReturn(g, i.intraprocedural,
                                   Edge(exits[i.pou], i.intraprocedural, InterproceduralReturn(name, l)))
            <==> forall k | k in m.code && k < l && m.code[k].Call? :: m.code[k].intraprocedural != i.intraprocedural
  {
    var i := m.code[l];
    var site, own := i.intraprocedural, Edge(exits[i.pou], i.intraprocedural, InterproceduralReturn(name, l));
    var front := EdgesUpTo(m.code, name, exits, m.entry + 1, l);
    NoReturnUpTo(m, name, exits, l, site);
    ReturnEdgeAppend(front, EdgesAt(i, name, exits, l), site);
    ReturnEdgeUpTo(m, name, exits, if ReturnEdge(front, site).Some? then l else l + 1, m.exit, site);
    FirstOf(g, m, name, exits, site, own);
    if ReturnEdge(front, site).Some? {
      var j := BlockShape.ReturnEdgeIsFirst(front, site);
      var k := EdgeStems(m.code, name, exits, m.entry + 1, l, front[j]);
      assert front[j] != own;
    } else {
      var at := EdgesAt(i, name, exits, l);
      assert at == [at[0]] + ([at[1]] + [at[2]]);
      ReturnEdgeAppend([at[0]], [at[1]] + [at[2]], site);
      ReturnEdgeAppend([at[1]], [at[2]], site);
      assert ReturnEdge(at, site) == Some(own);
      assert EdgesUpTo(m.code, name, exits, m.entry + 1, l + 1) == front + at;
    }
  }

  lemma {:induction false} FirstOf(g: Graph, m: Module, name: string, exits: map<string, int>, site: int, e: Edge)
    requires Linked(m, exits) && IsGraphOf(m, name, exits, g)
    ensures BlockShape.FirstReturn(g, site, e) <==>
            ReturnEdge(EdgesUpTo(m.code, name, exits, m.entry + 1, m.exit), site) == Some(e)
  {
    var start := Edge(m.entry, m.entry + 1, Intraprocedural);
    ReturnEdgeAppend([start], EdgesUpTo(m.code, name, exits, m.entry + 1, m.exit), site);
    assert ReturnEdge([start], site) == None;
    if ReturnEdge(g.edges, site).Some? {
      var i := BlockShape.ReturnEdgeIsFirst(g.edges, site);
      if BlockShape.FirstReturn(g, site, e) {
        var j :| 0 <= j < |g.edges| && g.edges[j] == e && BlockShape.IsReturn(e, site)
                 && BlockShape.NoReturn(g.edges, site, j);
        assert i == j;
      }
    } else if BlockShape.FirstReturn(g, site, e) {
      ReturnEdgeFound(g.edges, site);
    }
  }

  // ---------- compiled projects ----------

  // The list, or a list inside of it, invokes instance f of unit pou.
  predicate Invokes(ss: seq<Stmt>, f: string, pou: string)
    decreases ss, 1
  {
    exists i :: 0 <= i < |ss| && InvokesOne(ss[i], f, pou)
  }

  predicate InvokesOne(s: Stmt, f: string, pou: string)
    decreases s, 0
  {
    match s
    case Assignment(_, _) => false
    case Invocation(instance, unit, _, _) => instance == f && unit == pou
    case If(_, thn, elifs, els) =>
      || Invokes(thn, f, pou) || Invokes(els, f, pou)
      || exists i :: 0 <= i < |elifs| && Invokes(elifs[i].body, f, pou)
    case While(_, body) => Invokes(body, f, pou)
    case Case(_, arms, els) =>
      Invokes(els, f, pou) || exists i :: 0 <= i < |arms| && Invokes(arms[i].body, f, pou)
  }

  // A call that the body asks for, into the unit that it names.
  ghost predicate Asked(body: seq<Stmt>, entries: map<string, int>, i: Instr) {
    i.Call? ==> Invokes(body, i.instance, i.pou) && i.interprocedural == if i.pou in entries then entries[i.pou] else -1
  }

  ghost function AskedFor(body: seq<Stmt>, entries: map<string, int>): Instr -> bool {
    (i: Instr) => Asked(body, entries, i)
  }

  // What a list inside of the body asks for, the body asks for.
  ghost predicate Part(body: seq<Stmt>, ss: seq<Stmt>) {
    forall f, pou :: Invokes(ss, f, pou) ==> Invokes(body, f, pou)
  }

  lemma {:induction false} PartAsks(body: seq<Stmt>, entries: map<string, int>, ss: seq<Stmt>)
    requires Part(body, ss)
    ensures UsesList(AskedFor(body, entries), entries, ss)
    decreases ss, 1
  {
    forall i | 0 <= i < |ss| ensures Uses(AskedFor(body, entries), entries, ss[i]) {
      PartAsksOne(body, entries, ss, i);
    }
  }

  lemma {:induction false} PartAsksOne(body: seq<Stmt>, entries: map<string, int>, ss: seq<Stmt>, i: nat)
    requires i < |ss| && Part(body, ss)
    ensures Uses(AskedFor(body, entries), entries, ss[i])
    decreases ss, 0
  {
    var s := ss[i];
    assert forall f, pou :: InvokesOne(s, f, pou) ==> Invokes(ss, f, pou);
    match s
    case If(_, thn, elifs, els) =>
      PartAsks(body, entries, thn);
      PartAsks(body, entries, els);
      forall k | 0 <= k < |elifs| ensures UsesList(AskedFor(body, entries), entries, elifs[k].body) {
        PartAsks(body, entries, elifs[k].body);
      }
    case While(_, inner) => PartAsks(body, entries, inner);
    case Case(_, arms, els) =>
      PartAsks(body, entries, els);
      forall k | 0 <= k < |arms| ensures UsesList(AskedFor(body, entries), entries, arms[k].body) {
        PartAsks(body, entries, arms[k].body);
      }
    case _ =>
  }

  // Every call in a compiled module stems from an invocation of its body, and enters the module of the
  // unit that the invocation names.
  lemma {:induction false} CallsStem(entries: map<string, int>, body: seq<Stmt>, m: Module, l: int)
    requires ModuleOk(entries, body, m) && l in m.code && m.code[l].Call?
    ensures Invokes(body, m.code[l].instance, m.code[l].pou)
    ensures m.code[l].pou in entries && m.code[l].interprocedural == entries[m.code[l].pou]
  {
    PartAsks(body, entries, body);
    ModuleInstructions(AskedFor(body, entries), entries, body, m);
    SupportedCalls(entries, entries, body);
    ModuleInstructions(CallsOnly(entries.Keys), entries, body, m);
    assert m.entry + 1 <= l < m.exit;
  }

  // In the graph of a unit of a compiled project, calls lead to the entries of the modules of the units
  // that they name, and returns come from the exits of these modules.
  lemma {:induction false} CallsEnterModules(project: map<string, Pou>, rank: map<string, nat>,
        modules: map<string, Module>, freeLabel: int, n: string, name: string, g: Graph, e: Edge)
    requires Acyclic(project, rank) && ModulesOk(project, modules, freeLabel) && n in modules
    requires Linked(modules[n], ExitsOf(modules)) && IsGraphOf(modules[n], name, ExitsOf(modules), g) && e in g.edges
    ensures n in project
    ensures e.kind.InterproceduralCall? ==>
              && e.source in modules[n].code && modules[n].code[e.source].Call?
              && var i := modules[n].code[e.source];
              i.pou in modules && e.target == modules[i.pou].entry && Invokes(project[n].body, i.instance, i.pou)
    ensures e.kind.InterproceduralReturn? ==>
              && e.kind.callLabel in modules[n].code && modules[n].code[e.kind.callLabel].Call?
              && e.kind.caller == name
              && var i := modules[n].code[e.kind.callLabel];
              && e.target == i.intraprocedural
              && i.pou in modules && e.source == modules[i.pou].exit && Invokes(project[n].body, i.instance, i.pou)
  {
    var m := modules[n];
    assert ModuleAt(project, modules, EntriesOf(modules), n);
    CallEdgesExactly(m, name, ExitsOf(modules), g, e);
    if e.kind.InterproceduralCall? {
      CallsStem(EntriesOf(modules), project[n].body, m, e.source);
    }
    if e.kind.InterproceduralReturn? {
      ReturnEdgesExactly(m, name, ExitsOf(modules), g, e);
      CallsStem(EntriesOf(modules), project[n].body, m, e.kind.callLabel);
    }
  }
}
