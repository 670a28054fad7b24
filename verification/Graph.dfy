/** Dependency graphs and the layered topological sort of `fmr/workflow.py`. */
module Graph {
  import opened Ids
  import opened Results

  /** Each declared key with the identifiers it depends on, which need not be declared. */
  type Graph = map<Id, set<Id>>

  datatype GraphError = Cycle

  // ---------------------------------------------------------------- paths

  /** Every node of the path but the last is declared, and depends on the node after it. */
  ghost predicate IsPath(g: Graph, p: seq<Id>)
  {
    && p != []
    && forall i | 0 <= i < |p| - 1 :: p[i] in g && p[i + 1] in g[p[i]]
  }

  ghost predicate PathFrom(g: Graph, k: Id, p: seq<Id>)
  {
    IsPath(g, p) && p[0] == k
  }

  ghost predicate Repeats(p: seq<Id>)
  {
    exists i, j :: 0 <= i < j < |p| && p[i] == p[j]
  }

  /** `k` reaches an undeclared dependency or a cycle. */
  ghost predicate Unresolvable(g: Graph, k: Id)
  {
    exists p :: PathFrom(g, k, p) && (p[|p| - 1] !in g || Repeats(p))
  }

  /** The longest dependency path from `k` has `n` edges. */
  ghost predicate LongestPath(g: Graph, k: Id, n: nat)
  {
    && (exists p :: PathFrom(g, k, p) && |p| == n + 1)
    && (forall p | PathFrom(g, k, p) :: |p| <= n + 1)
  }

  lemma PathPrepend(g: Graph, k: Id, p: seq<Id>)
    requires IsPath(g, p) && k in g && p[0] in g[k]
    ensures PathFrom(g, k, [k] + p)
  {
    var q := [k] + p;
    forall i | 0 <= i < |q| - 1 ensures q[i] in g && q[i + 1] in g[q[i]] {
      if i > 0 { assert q[i] == p[i - 1] && q[i + 1] == p[i]; }
    }
  }

  // ---------------------------------------------------------------- layers

  /** The keys that `n` rounds of removing dependency-free keys remove. */
  ghost function Layer(g: Graph, n: nat): set<Id>
  {
    if n == 0 then {} else set k | k in g && g[k] <= Layer(g, n - 1)
  }

  lemma {:induction false} LayerMonotone(g: Graph, m: nat, n: nat)
    requires m <= n
    ensures Layer(g, m) <= Layer(g, n)
  {
    if m > 0 {
      LayerMonotone(g, m - 1, n - 1);
    }
  }

  /** A path that starts in layer `n` loses one layer per edge, so it is short and declared. */
  lemma {:induction false} PathDescends(g: Graph, n: nat, p: seq<Id>)
    requires IsPath(g, p) && p[0] in Layer(g, n)
    ensures |p| <= n
    ensures forall i | 0 <= i < |p| :: p[i] in Layer(g, n - i)
  {
    if |p| > 1 {
      PathDescends(g, n - 1, p[1..]);
      forall i | 0 <= i < |p| ensures p[i] in Layer(g, n - i) {
        if i > 0 { assert p[i] == p[1..][i - 1]; }
      }
    }
  }

  lemma {:induction false} NoCycleInLayer(g: Graph, n: nat, p: seq<Id>)
    requires IsPath(g, p) && |p| >= 2 && p[|p| - 1] == p[0]
    ensures p[0] !in Layer(g, n)
  {
    if p[0] in Layer(g, n) {
      PathDescends(g, n, p);
      NoCycleInLayer(g, n - (|p| - 1), p);
    }
  }

  /** Outside layer `n` there is a path of `n` edges, or one to an undeclared dependency. */
  lemma {:induction false} PathOutsideLayer(g: Graph, n: nat, k: Id) returns (p: seq<Id>)
    requires k !in Layer(g, n)
    ensures PathFrom(g, k, p)
    ensures p[|p| - 1] !in g || |p| == n + 1
  {
    if k !in g || n == 0 {
      p := [k];
    } else {
      var d :| d in g[k] && d !in Layer(g, n - 1);
      var q := PathOutsideLayer(g, n - 1, d);
      PathPrepend(g, k, q);
      p := [k] + q;
    }
  }

  /** A path longer than a set that holds all its nodes repeats a node. */
  lemma {:induction false} Pigeonhole(p: seq<Id>, s: set<Id>)
    requires Elements(p) <= s && |p| > |s|
    ensures Repeats(p)
  {
    var last := p[|p| - 1];
    assert last in Elements(p);
    var front := p[..|p| - 1];
    if last in front {
      var i :| 0 <= i < |front| && front[i] == last;
      assert p[i] == p[|p| - 1];
    } else {
      assert Elements(front) <= s - {last} by {
        forall x | x in front ensures x in s - {last} {
          assert x in Elements(p);
        }
      }
      Pigeonhole(front, s - {last});
      var i, j :| 0 <= i < j < |front| && front[i] == front[j];
      assert p[i] == p[j];
    }
  }

  /** A declared key that rounds of removal never reach is exactly one that is unresolvable. */
  lemma UnresolvableIsOutside(g: Graph, k: Id)
    ensures Unresolvable(g, k) <==> k !in Layer(g, |g|)
    ensures Unresolvable(g, k) ==> forall n: nat :: k !in Layer(g, n)
  {
    if Unresolvable(g, k) {
      var p :| PathFrom(g, k, p) && (p[|p| - 1] !in g || Repeats(p));
      forall n: nat ensures k !in Layer(g, n) {
        if k in Layer(g, n) {
          PathDescends(g, n, p);
          var i, j :| 0 <= i < j < |p| && p[i] == p[j];
          assert p[i..j + 1][0] == p[i] && p[i..j + 1][j - i] == p[j];
          NoCycleInLayer(g, n - i, p[i..j + 1]);
        }
      }
    }
    if k !in Layer(g, |g|) {
      var p := PathOutsideLayer(g, |g|, k);
      if p[|p| - 1] in g {
        forall x | x in p ensures x in g.Keys {
          var i :| 0 <= i < |p| && p[i] == x;
          if i < |p| - 1 { assert p[i] in g; }
        }
        Pigeonhole(p, g.Keys);
      }
    }
  }

  // ---------------------------------------------------------------- depth

  ghost predicate DepthIs(g: Graph, k: Id, n: nat)
  {
    k in Layer(g, n + 1) && k !in Layer(g, n)
  }

  lemma DepthUnique(g: Graph, k: Id, m: nat, n: nat)
    requires DepthIs(g, k, m) && DepthIs(g, k, n)
    ensures m == n
  {
    if m < n { LayerMonotone(g, m + 1, n); }
    if n < m { LayerMonotone(g, n + 1, m); }
  }

  lemma {:induction false} DepthExists(g: Graph, k: Id, n: nat) returns (d: nat)
    requires k in Layer(g, n)
    ensures d < n && DepthIs(g, k, d)
  {
    if k in Layer(g, n - 1) {
      d := DepthExists(g, k, n - 1);
    } else {
      d := n - 1;
    }
  }

  ghost function Depth(g: Graph, k: Id): nat
  {
    if n: nat :| DepthIs(g, k, n) then n else 0
  }

  lemma DepthOf(g: Graph, k: Id, n: nat)
    requires DepthIs(g, k, n)
    ensures Depth(g, k) == n
  {
    DepthUnique(g, k, n, Depth(g, k));
  }

  /** The round in which a key is removed is the length of its longest dependency path. */
  lemma DepthIsLongestPath(g: Graph, k: Id, n: nat)
    ensures DepthIs(g, k, n) <==> !Unresolvable(g, k) && LongestPath(g, k, n)
  {
    UnresolvableIsOutside(g, k);
    if DepthIs(g, k, n) {
      var p := PathOutsideLayer(g, n, k);
      PathDescends(g, n + 1, p);
      assert p[|p| - 1] in Layer(g, n + 1 - (|p| - 1));
      forall p | PathFrom(g, k, p) ensures |p| <= n + 1 {
        PathDescends(g, n + 1, p);
      }
    } else if !Unresolvable(g, k) && LongestPath(g, k, n) {
      var d := DepthExists(g, k, |g|);
      var p := PathOutsideLayer(g, d, k);
      PathDescends(g, d + 1, p);
      assert p[|p| - 1] in Layer(g, d + 1 - (|p| - 1));
      var q :| PathFrom(g, k, q) && |q| == n + 1;
      PathDescends(g, d + 1, q);
    }
  }

  // ---------------------------------------------------------------- the order

  ghost predicate Before(g: Graph, a: Id, b: Id)
  {
    Depth(g, a) < Depth(g, b) || (Depth(g, a) == Depth(g, b) && Lt(a, b))
  }

  ghost predicate InDepthOrder(g: Graph, s: seq<Id>)
  {
    forall i, j | 0 <= i < j < |s| :: Before(g, s[i], s[j])
  }

  /** `s` lists exactly the keys of a resolvable graph by (longest dependency path, id). */
  ghost predicate IsTopologicalOrder(g: Graph, s: seq<Id>)
  {
    && (forall k | k in g :: !Unresolvable(g, k))
    && Elements(s) == g.Keys
    && InDepthOrder(g, s)
  }

  lemma BeforeIrreflexive(g: Graph, a: Id, b: Id)
    requires Before(g, a, b)
    ensures !Before(g, b, a)
  {
    if Le(a, b) && Le(b, a) { LeAntisymmetric(a, b); }
  }

  /** The listing has no duplicates and puts every dependency first. */
  lemma TopologicalOrderSound(g: Graph, s: seq<Id>)
    requires IsTopologicalOrder(g, s)
    ensures forall i, j | 0 <= i < j < |s| :: s[i] != s[j]
    ensures forall j, d | 0 <= j < |s| && d in g[s[j]] :: d in s[..j]
  {
    forall j, d | 0 <= j < |s| && d in g[s[j]] ensures d in s[..j] {
      assert s[j] in Elements(s);
      UnresolvableIsOutside(g, s[j]);
      var n := DepthExists(g, s[j], |g|);
      DepthOf(g, s[j], n);
      assert d in Layer(g, n);
      var m := DepthExists(g, d, n);
      DepthOf(g, d, m);
      assert d in Elements(s);
      var i :| 0 <= i < |s| && s[i] == d;
      BeforeIrreflexive(g, d, s[j]);
      assert i < j;
      assert s[..j][i] == d;
    }
  }

  /** There is one such listing, whatever order the keys were declared in. */
  lemma {:induction false} TopologicalOrderUnique(g: Graph, a: seq<Id>, b: seq<Id>)
    requires Elements(a) == Elements(b)
    requires InDepthOrder(g, a) && InDepthOrder(g, b)
    ensures a == b
  {
    if a == [] {
      assert forall i | 0 <= i < |b| :: b[i] in Elements(b);
    } else {
      assert a[0] in Elements(a);
      assert b != [];
      assert b[0] in Elements(b);
      var i :| 0 <= i < |b| && b[i] == a[0];
      var j :| 0 <= j < |a| && a[j] == b[0];
      if i > 0 && j > 0 { BeforeIrreflexive(g, a[0], b[0]); }
      assert a[0] == b[0];
      forall x ensures x in Elements(a[1..]) <==> x in Elements(b[1..]) {
        assert x in Elements(a[1..]) <==> x in Elements(a) && x != a[0];
        assert x in Elements(b[1..]) <==> x in Elements(b) && x != b[0];
      }
      TopologicalOrderUnique(g, a[1..], b[1..]);
      assert a == [a[0]] + a[1..] && b == [b[0]] + b[1..];
    }
  }

  // ---------------------------------------------------------------- the sort

  /** What remains of the graph once the first `n` layers are removed. */
  ghost function Remaining(g: Graph, n: nat): Graph
  {
    map k | k in g && k !in Layer(g, n) :: g[k] - Layer(g, n)
  }

  /** The keys with no remaining dependency. */
  function ReadyKeys(remaining: Graph): set<Id>
  {
    set k | k in remaining && remaining[k] == {}
  }

  /** Removes finished dependencies from every remaining key. */
  function Discharge(remaining: Graph, done: set<Id>): Graph
  {
    map k | k in remaining :: remaining[k] - done
  }

  lemma EmptyDifference<T>(a: set<T>, b: set<T>)
    ensures a - b == {} <==> a <= b
  {
    if a - b == {} {
      forall x | x in a ensures x in b {
        assert x !in a - b;
      }
    }
  }

  lemma ReadyIsNextLayer(g: Graph, n: nat)
    ensures ReadyKeys(Remaining(g, n)) == Layer(g, n + 1) - Layer(g, n)
  {
    forall k | k in g && k !in Layer(g, n)
      ensures Remaining(g, n)[k] == {} <==> k in Layer(g, n + 1)
    {
      EmptyDifference(g[k], Layer(g, n));
    }
  }

  lemma RemoveReady(g: Graph, n: nat, ready: set<Id>)
    requires ready == Layer(g, n + 1) - Layer(g, n)
    ensures Remaining(g, n + 1) == Discharge(Remaining(g, n) - ready, ready)
    ensures Layer(g, n + 1) == Layer(g, n) + ready
  {
    LayerMonotone(g, n, n + 1);
    var next := Discharge(Remaining(g, n) - ready, ready);
    forall k ensures k in next <==> k in Remaining(g, n + 1) {}
    forall k | k in next ensures next[k] == Remaining(g, n + 1)[k] {
      assert next[k] == g[k] - Layer(g, n) - ready;
    }
  }

  /** When no remaining key is ready, every remaining key is unresolvable. */
  lemma {:induction false} StuckLayer(g: Graph, n: nat, m: nat)
    requires n <= m && Layer(g, n + 1) == Layer(g, n)
    ensures Layer(g, m) == Layer(g, n)
  {
    if n < m {
      StuckLayer(g, n, m - 1);
    }
  }

  lemma StuckIsUnresolvable(g: Graph, n: nat, k: Id)
    requires Layer(g, n + 1) == Layer(g, n)
    requires k in Remaining(g, n)
    ensures Unresolvable(g, k)
  {
    UnresolvableIsOutside(g, k);
    if n <= |g| {
      StuckLayer(g, n, |g|);
    } else {
      LayerMonotone(g, |g|, n);
    }
  }

  lemma AppendLayer(g: Graph, n: nat, order: seq<Id>, ready: seq<Id>)
    requires Elements(order) == Layer(g, n) && InDepthOrder(g, order)
    requires Elements(ready) == Layer(g, n + 1) - Layer(g, n) && Ascending(ready)
    ensures InDepthOrder(g, order + ready)
  {
    var s := order + ready;
    forall i | 0 <= i < |s| ensures if i < |order| then Depth(g, s[i]) < n else Depth(g, s[i]) == n {
      if i < |order| {
        assert s[i] == order[i] && order[i] in Elements(order);
        var d := DepthExists(g, s[i], n);
        DepthOf(g, s[i], d);
      } else {
        assert s[i] == ready[i - |order|] && ready[i - |order|] in Elements(ready);
        DepthOf(g, s[i], n);
      }
    }
  }

  /** One round: the ready keys move, in order, from the remaining graph to the listing. */
  method TakeReady(order: seq<Id>, remaining: Graph, ready: seq<Id>)
    returns (order': seq<Id>, remaining': Graph)
    ensures order' == order + ready
    ensures remaining' == remaining - Elements(ready)
  {
    order', remaining' := order, remaining;
    for i := 0 to |ready|
      invariant order' == order + ready[..i]
      invariant remaining' == remaining - Elements(ready[..i])
    {
      order' := order' + [ready[i]];
      remaining' := remaining' - {ready[i]};
      assert ready[..i + 1] == ready[..i] + [ready[i]];
    }
    assert ready[..|ready|] == ready;
  }

  /** After `n` rounds: the listing is the first `n` layers in order, and the rest remains. */
  ghost predicate Progress(g: Graph, n: nat, order: seq<Id>, remaining: Graph)
  {
    && remaining == Remaining(g, n)
    && Elements(order) == Layer(g, n)
    && InDepthOrder(g, order)
  }

  /** What one round keeps: the listing is the layers so far, in order. */
  lemma Round(g: Graph, n: nat, order: seq<Id>, remaining: Graph, ready: seq<Id>)
    requires Progress(g, n, order, remaining)
    requires Elements(ready) == ReadyKeys(remaining) && Ascending(ready) && ready != []
    ensures var done := Elements(ready);
            && Progress(g, n + 1, order + ready, Discharge(remaining - done, done))
            && |Discharge(remaining - done, done)| < |remaining|
  {
    ReadyIsNextLayer(g, n);
    AppendLayer(g, n, order, ready);
    RemoveReady(g, n, Elements(ready));
    assert ready[0] in Elements(ready);
    assert ready[0] in Remaining(g, n).Keys && ready[0] !in Remaining(g, n + 1).Keys;
    assert Remaining(g, n + 1).Keys <= Remaining(g, n).Keys;
    SmallerSet(Remaining(g, n + 1).Keys, Remaining(g, n).Keys);
  }

  lemma NothingRemoved(g: Graph)
    ensures Progress(g, 0, [], g)
  {
    assert forall k | k in g :: g[k] - {} == g[k];
  }

  lemma RoundStuck(g: Graph, n: nat, order: seq<Id>, remaining: Graph)
    requires Progress(g, n, order, remaining)
    requires ReadyKeys(remaining) == {} && remaining != map[]
    ensures exists k :: k in g && Unresolvable(g, k)
  {
    ReadyIsNextLayer(g, n);
    LayerMonotone(g, n, n + 1);
    EmptyDifference(Layer(g, n + 1), Layer(g, n));
    var k :| k in Remaining(g, n).Keys;
    StuckIsUnresolvable(g, n, k);
  }

  lemma RoundsDone(g: Graph, n: nat, order: seq<Id>)
    requires Progress(g, n, order, map[])
    ensures IsTopologicalOrder(g, order)
  {
    forall k | k in g ensures k in Layer(g, n) && !Unresolvable(g, k) {
      assert k !in Remaining(g, n);
      UnresolvableIsOutside(g, k);
    }
    assert Layer(g, n) <= g.Keys;
  }

  /**
   * Repeatedly lists, in ascending order, the keys with no remaining dependency.
   * It raises exactly when some key reaches a cycle or an undeclared dependency.
   */
  method TopologicalOrder(g: Graph) returns (r: Result<seq<Id>, GraphError>)
    ensures r.Err? <==> exists k :: k in g && Unresolvable(g, k)
    ensures r.Ok? ==> IsTopologicalOrder(g, r.value)
  {
    var remaining := g;
    var order: seq<Id> := [];
    ghost var n := 0;
    NothingRemoved(g);
    while |remaining| > 0
      invariant Progress(g, n, order, remaining)
      decreases |remaining|
    {
      var ready := Sorted(ReadyKeys(remaining));
      if ready == [] {
        RoundStuck(g, n, order, remaining);
        return Err(Cycle);
      }
      Round(g, n, order, remaining, ready);
      var done := set k | k in ready;
      assert done == Elements(ready);
      order, remaining := TakeReady(order, remaining, ready);
      remaining := Discharge(remaining, done);
      n := n + 1;
    }
    RoundsDone(g, n, order);
    r := Ok(order);
  }

  lemma {:induction false} SmallerSet<T>(a: set<T>, b: set<T>)
    requires a < b
    ensures |a| < |b|
  {
    var x :| x in b && x !in a;
    SubsetSize(a, b - {x});
  }

  lemma {:induction false} SubsetSize<T>(a: set<T>, b: set<T>)
    requires a <= b
    ensures |a| <= |b|
  {
    if a != {} {
      var x :| x in a;
      SubsetSize(a - {x}, b - {x});
    }
  }
}
