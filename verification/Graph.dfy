/** Directed graphs on numbers: walks, cycles, and a measure that falls along the edges of a graph
    without cycles. */
module Graphs {
  type Edges = set<(nat, nat)>

  /** p walks along edges from a to b, taking at least one. */
  ghost predicate Walks(f: Edges, p: seq<nat>, a: nat, b: nat) {
    && |p| >= 2
    && p[0] == a
    && p[|p| - 1] == b
    && forall i | 0 <= i < |p| - 1 :: (p[i], p[i + 1]) in f
  }

  ghost predicate Path(f: Edges, a: nat, b: nat) {
    exists p :: Walks(f, p, a, b)
  }

  ghost predicate Acyclic(f: Edges) {
    forall a :: !Path(f, a, a)
  }

  lemma EdgeIsPath(f: Edges, a: nat, b: nat)
    requires (a, b) in f
    ensures Path(f, a, b)
  {
    assert Walks(f, [a, b], a, b);
  }

  lemma PathTrans(f: Edges, a: nat, b: nat, c: nat)
    requires Path(f, a, b) && Path(f, b, c)
    ensures Path(f, a, c)
  {
    var p :| Walks(f, p, a, b);
    var q :| Walks(f, q, b, c);
    var r := p + q[1..];
    forall i | 0 <= i < |r| - 1 ensures (r[i], r[i + 1]) in f {
      if i >= |p| - 1 {
        assert r[i] == q[i - |p| + 1] && r[i + 1] == q[i - |p| + 2];
      }
    }
    assert Walks(f, r, a, c);
  }

  lemma PathFirst(f: Edges, a: nat, b: nat) returns (i: nat)
    requires Path(f, a, b)
    ensures (a, i) in f && (i == b || Path(f, i, b))
  {
    var p :| Walks(f, p, a, b);
    i := p[1];
    assert (p[0], p[1]) in f;
    if |p| > 2 {
      assert Walks(f, p[1..], i, b);
    }
  }

  lemma PathMonotone(f: Edges, g: Edges, a: nat, b: nat)
    requires f <= g && Path(f, a, b)
    ensures Path(g, a, b)
  {
    var p :| Walks(f, p, a, b);
    assert Walks(g, p, a, b);
  }

  /** Fewer edges make no new cycle. */
  lemma FewerEdges(f: Edges, g: Edges)
    requires f <= g && Acyclic(g)
    ensures Acyclic(f)
  {
    forall a ensures !Path(f, a, a) {
      if Path(f, a, a) {
        PathMonotone(f, g, a, a);
      }
    }
  }

  /** A walk in the graph with one more edge (h, c) either does not need it, or reaches h and
      leaves from c without it. */
  lemma {:induction false} WalkWithEdge(f: Edges, h: nat, c: nat, p: seq<nat>, a: nat, b: nat)
    requires Walks(f + {(h, c)}, p, a, b)
    ensures Path(f, a, b) || ((a == h || Path(f, a, h)) && (b == c || Path(f, c, b)))
    decreases |p|
  {
    var i := p[1];
    assert (p[0], p[1]) in f + {(h, c)};
    if |p| > 2 {
      assert Walks(f + {(h, c)}, p[1..], i, b);
      WalkWithEdge(f, h, c, p[1..], i, b);
    }
    if (a, i) in f {
      EdgeIsPath(f, a, i);
      if Path(f, i, b) {
        PathTrans(f, a, i, b);
      } else if Path(f, i, h) {
        PathTrans(f, a, i, h);
      }
    }
  }

  /** The check of will_lock is the right one: an edge h -> c is safe exactly when c does not
      already reach h. */
  lemma AddEdge(f: Edges, h: nat, c: nat)
    requires Acyclic(f)
    ensures Acyclic(f + {(h, c)}) <==> h != c && !Path(f, c, h)
  {
    var g := f + {(h, c)};
    EdgeIsPath(g, h, c);
    if Path(f, c, h) {
      PathMonotone(f, g, c, h);
      PathTrans(g, h, c, h);
    }
    if h != c && !Path(f, c, h) {
      forall a ensures !Path(g, a, a) {
        if Path(g, a, a) {
          var p :| Walks(g, p, a, a);
          WalkWithEdge(f, h, c, p, a, a);
          if Path(f, c, a) && Path(f, a, h) {
            PathTrans(f, c, a, h);
          }
        }
      }
    }
  }

  /** Edges into c do not change what c reaches. */
  lemma EdgeIntoKeepsReach(f: Edges, h: nat, c: nat, y: nat)
    requires y != c
    ensures Path(f + {(h, c)}, c, y) <==> Path(f, c, y)
  {
    if Path(f + {(h, c)}, c, y) {
      var p :| Walks(f + {(h, c)}, p, c, y);
      WalkWithEdge(f, h, c, p, c, y);
    }
    if Path(f, c, y) {
      PathMonotone(f, f + {(h, c)}, c, y);
    }
  }

  ghost function Reach(f: Edges, a: nat): set<nat> {
    set e | e in f && Path(f, a, e.1) :: e.1
  }

  lemma ReachIs(f: Edges, a: nat, x: nat)
    ensures x in Reach(f, a) <==> Path(f, a, x)
  {
    if Path(f, a, x) {
      var p :| Walks(f, p, a, x);
      assert (p[|p| - 2], p[|p| - 1]) in f;
    }
  }

  /** An edge to a node that is on no cycle leads to one that reaches less. */
  lemma ReachShrinks(f: Edges, a: nat, i: nat)
    requires !Path(f, i, i) && (a, i) in f
    ensures |Reach(f, i)| < |Reach(f, a)|
  {
    hide Reach;
    EdgeIsPath(f, a, i);
    forall x | x in Reach(f, i) ensures x in Reach(f, a) {
      ReachIs(f, i, x);
      PathTrans(f, a, i, x);
      ReachIs(f, a, x);
    }
    ReachIs(f, a, i);
    ReachIs(f, i, i);
    Smaller(Reach(f, i), Reach(f, a));
  }

  lemma Smaller(s: set<nat>, t: set<nat>)
    requires s < t
    ensures |s| < |t|
  {
    assert t == s + (t - s);
    assert |t - s| > 0;
  }
}
