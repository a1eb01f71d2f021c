/** Positions inside a YAML node tree: a trail names a descendant by child indices. */
module YamlTrail {
  import opened YamlTree

  type Trail = seq<nat>

  predicate InTree(t: Node, trail: Trail) {
    trail == [] || (trail[0] < |t.content| && InTree(t.content[trail[0]], trail[1..]))
  }

  function TreeAt(t: Node, trail: Trail): Node
    requires InTree(t, trail)
  {
    if trail == [] then t else TreeAt(t.content[trail[0]], trail[1..])
  }

  /** The tree with the descendant at the trail replaced. */
  function Graft(t: Node, trail: Trail, u: Node): Node
    requires InTree(t, trail)
    decreases |trail|
  {
    if trail == [] then u
    else t.(content := t.content[trail[0] := Graft(t.content[trail[0]], trail[1..], u)])
  }

  lemma {:induction false} GraftAt(t: Node, trail: Trail, u: Node)
    requires InTree(t, trail)
    ensures InTree(Graft(t, trail, u), trail) && TreeAt(Graft(t, trail, u), trail) == u
    ensures forall v :: Graft(Graft(t, trail, u), trail, v) == Graft(t, trail, v)
    ensures Graft(t, trail, TreeAt(t, trail)) == t
    decreases |trail|
  {
    if trail == [] {
    } else {
      GraftAt(t.content[trail[0]], trail[1..], u);
    }
  }

  /** A trail that goes on below another one. */
  lemma {:induction false} TrailSum(t: Node, p: Trail, q: Trail)
    requires InTree(t, p)
    ensures InTree(t, p + q) <==> InTree(TreeAt(t, p), q)
    ensures InTree(t, p + q) ==> TreeAt(t, p + q) == TreeAt(TreeAt(t, p), q)
    ensures InTree(t, p + q) ==> forall u :: Graft(t, p + q, u) == Graft(t, p, Graft(TreeAt(t, p), q, u))
    decreases |p|
  {
    if p == [] {
      assert [] + q == q;
    } else {
      assert (p + q)[0] == p[0] && (p + q)[1..] == p[1..] + q;
      TrailSum(t.content[p[0]], p[1..], q);
    }
  }
}
