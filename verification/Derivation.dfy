/** Edges derived by rules (benchmarks/agent-tasks/association/truth.py): the whole
    product, and the one-node delta that has to agree with it. */
module Derivation {
  import opened Common
  import opened EdgeIds
  import opened Predicates

  datatype Node = Node(lab: string, props: Props)
  type World = map<string, Node>
  datatype Rule = Rule(name: string, srcLabel: string, dstLabel: string, pred: Predicate, etype: string)

  predicate Links(dist: Distance, rule: Rule, src: Node, dst: Node) {
    src.lab == rule.srcLabel && dst.lab == rule.dstLabel && Eval(dist, rule.pred, src.props, dst.props)
  }

  /** The specification: some rule links the two nodes by that type. */
  ghost predicate Derived(dist: Distance, nodes: World, rules: seq<Rule>, e: Edge) {
    && e.src in nodes && e.dst in nodes
    && exists rule <- rules :: rule.etype == e.etype && Links(dist, rule, nodes[e.src], nodes[e.dst])
  }

  ghost function AllDerived(dist: Distance, nodes: World, rules: seq<Rule>): (edges: set<Edge>)
    ensures forall e :: e in edges <==> Derived(dist, nodes, rules, e)
  {
    var candidates := set rule, s, d | rule in rules && s in nodes && d in nodes :: Edge(rule.etype, s, d);
    var edges := set e | e in candidates && Derived(dist, nodes, rules, e);
    assert forall e :: Derived(dist, nodes, rules, e) ==> e in candidates;
    edges
  }

  /** The derived edges at one node. */
  ghost function DerivedAt(dist: Distance, nodes: World, rules: seq<Rule>, key: string): (edges: set<Edge>)
    ensures forall e :: e in edges <==> Derived(dist, nodes, rules, e) && Touches(e, key)
  {
    set e | e in AllDerived(dist, nodes, rules) && Touches(e, key)
  }

  // ---- the two derivations as the code runs them ---------------------------

  function OfLabel(nodes: World, lab: string): (keys: set<string>)
    ensures forall k :: k in keys <==> k in nodes && nodes[k].lab == lab
  {
    set k | k in nodes && nodes[k].lab == lab
  }

  /** One rule over some sources and destinations: the inner product of both derivations. */
  ghost predicate ProductOf(dist: Distance, nodes: World, rule: Rule, srcs: set<string>, dsts: set<string>, e: Edge) {
    && e.etype == rule.etype && e.src in srcs && e.dst in dsts && e.src in nodes && e.dst in nodes
    && Links(dist, rule, nodes[e.src], nodes[e.dst])
  }

  method RuleProduct(dist: Distance, nodes: World, rule: Rule, srcs: set<string>, dsts: set<string>) returns (edges: set<Edge>)
    requires srcs <= OfLabel(nodes, rule.srcLabel) && dsts <= OfLabel(nodes, rule.dstLabel)
    ensures forall e :: e in edges <==> ProductOf(dist, nodes, rule, srcs, dsts, e)
  {
    edges := {};
    var srcsLeft := srcs;
    while srcsLeft != {}
      invariant srcsLeft <= srcs
      invariant forall e :: e in edges <==> ProductOf(dist, nodes, rule, srcs - srcsLeft, dsts, e)
    {
      var s :| s in srcsLeft;
      var before := edges;
      var dstsLeft := dsts;
      while dstsLeft != {}
        invariant dstsLeft <= dsts
        invariant forall e :: e in edges <==> e in before || ProductOf(dist, nodes, rule, {s}, dsts - dstsLeft, e)
      {
        var d :| d in dstsLeft;
        if Eval(dist, rule.pred, nodes[s].props, nodes[d].props) {
          edges := edges + {Edge(rule.etype, s, d)};
        }
        dstsLeft := dstsLeft - {d};
      }
      srcsLeft := srcsLeft - {s};
    }
  }

  /** `derived_edges`: the whole cartesian product, rule by rule. */
  method DerivedEdges(dist: Distance, nodes: World, rules: seq<Rule>) returns (edges: set<Edge>)
    ensures edges == AllDerived(dist, nodes, rules)
  {
    edges := {};
    for i := 0 to |rules|
      invariant edges == AllDerived(dist, nodes, rules[..i])
    {
      var rule := rules[i];
      var more := RuleProduct(dist, nodes, rule, OfLabel(nodes, rule.srcLabel), OfLabel(nodes, rule.dstLabel));
      OneMoreRule(dist, nodes, rules, i);
      edges := edges + more;
    }
    assert rules[..|rules|] == rules;
  }

  lemma OneMoreRule(dist: Distance, nodes: World, rules: seq<Rule>, i: nat)
    requires i < |rules|
    ensures forall e :: Derived(dist, nodes, rules[..i + 1], e) <==>
                        Derived(dist, nodes, rules[..i], e) ||
                        (e.src in nodes && e.dst in nodes && e.etype == rules[i].etype && Links(dist, rules[i], nodes[e.src], nodes[e.dst]))
  {
    assert rules[..i + 1] == rules[..i] + [rules[i]];
    assert rules[i] in rules[..i + 1];
  }

  /** One rule for one node: the node as source, the node as destination. */
  method RuleEdgesOf(dist: Distance, nodes: World, rule: Rule, key: string) returns (edges: set<Edge>)
    requires key in nodes
    ensures forall e :: e in edges <==>
              Touches(e, key) && e.src in nodes && e.dst in nodes && e.etype == rule.etype && Links(dist, rule, nodes[e.src], nodes[e.dst])
  {
    edges := {};
    var lab := nodes[key].lab;
    if lab == rule.srcLabel {
      edges := RuleProduct(dist, nodes, rule, {key}, OfLabel(nodes, rule.dstLabel));
    }
    if lab == rule.dstLabel {
      var incoming := RuleProduct(dist, nodes, rule, OfLabel(nodes, rule.srcLabel), {key});
      edges := edges + incoming;
    }
  }

  /** `edges_of`: one node against the world. It is exactly the derivation restricted to
      the edges at that node, and empty for a key that does not exist. */
  method EdgesOf(dist: Distance, nodes: World, rules: seq<Rule>, key: string) returns (edges: set<Edge>)
    ensures edges == DerivedAt(dist, nodes, rules, key)
  {
    edges := {};
    if key !in nodes { return; }
    for i := 0 to |rules|
      invariant edges == DerivedAt(dist, nodes, rules[..i], key)
    {
      var more := RuleEdgesOf(dist, nodes, rules[i], key);
      OneMoreRule(dist, nodes, rules, i);
      edges := edges + more;
    }
    assert rules[..|rules|] == rules;
  }

  /** `retraction`: the edges that disappear if one field of one node changed, computed
      from that node alone, is the difference of two derivations of the whole world. */
  method Retraction(dist: Distance, nodes: World, rules: seq<Rule>, key: string, field: string, value: Value)
    returns (lost: Option<set<Edge>>)
    ensures lost.None? <==> key !in nodes
    ensures lost.Some? ==>
              lost.value == AllDerived(dist, nodes, rules) - AllDerived(dist, WithProp(nodes, key, field, value), rules)
  {
    if key !in nodes { return None; }
    var before := EdgesOf(dist, nodes, rules, key);
    var changed := nodes[key := nodes[key].(props := nodes[key].props[field := value])];
    var after := EdgesOf(dist, changed, rules, key);
    DeltaIsExact(dist, rules, nodes, changed, key);
    return Some(before - after);
  }

  function WithProp(nodes: World, key: string, field: string, value: Value): World
    requires key in nodes
  {
    nodes[key := nodes[key].(props := nodes[key].props[field := value])]
  }

  /** The field then reads the value, and nothing else has changed. */
  lemma WithPropReads(nodes: World, key: string, field: string, value: Value)
    requires key in nodes
    ensures var w := WithProp(nodes, key, field, value);
            && w.Keys == nodes.Keys && w[key].lab == nodes[key].lab
            && Get(w[key].props, field) == value && SameButField(w[key].props, nodes[key].props, field)
            && forall k <- nodes :: k != key ==> w[k] == nodes[k]
  {
  }

  // ---- incremental maintenance ---------------------------------------------

  /** The two worlds differ at most in this node. */
  ghost predicate SameElsewhere(a: World, b: World, key: string) {
    forall k :: k != key ==> (k in a <==> k in b) && (k in a ==> a[k] == b[k])
  }

  /** Only edges at the changed node can move, and re-deriving just those is enough. */
  lemma DeltaIsExact(dist: Distance, rules: seq<Rule>, a: World, b: World, key: string)
    requires SameElsewhere(a, b, key)
    ensures AllDerived(dist, b, rules) == AllDerived(dist, a, rules) - DerivedAt(dist, a, rules, key) + DerivedAt(dist, b, rules, key)
    ensures AllDerived(dist, a, rules) - AllDerived(dist, b, rules) == DerivedAt(dist, a, rules, key) - DerivedAt(dist, b, rules, key)
  {
    forall e | !Touches(e, key) ensures Derived(dist, a, rules, e) <==> Derived(dist, b, rules, e) {
      assert e.src in a <==> e.src in b;
      assert e.dst in a <==> e.dst in b;
    }
  }

  /** Changing a field no rule reads retracts nothing. */
  lemma UnreadFieldRetractsNothing(dist: Distance, nodes: World, rules: seq<Rule>, key: string, field: string, value: Value)
    requires key in nodes && forall rule <- rules :: !Mentions(rule.pred, field)
    ensures AllDerived(dist, WithProp(nodes, key, field, value), rules) == AllDerived(dist, nodes, rules)
  {
    var changed := WithProp(nodes, key, field, value);
    forall e: Edge | e.src in nodes && e.dst in nodes
      ensures Derived(dist, changed, rules, e) <==> Derived(dist, nodes, rules, e)
    {
      forall rule | rule in rules
        ensures Links(dist, rule, changed[e.src], changed[e.dst]) <==> Links(dist, rule, nodes[e.src], nodes[e.dst])
      {
        EvalReadsMentioned(dist, rule.pred, nodes[e.src].props, nodes[e.dst].props, changed[e.src].props, changed[e.dst].props, field);
      }
    }
  }

  // ---- visibility ----------------------------------------------------------

  /** What a role sees of a world: the nodes that carry one of its labels. */
  function VisibleNodes(nodes: World, labels: set<string>): World {
    map k | k in nodes && nodes[k].lab in labels :: nodes[k]
  }

  lemma VisibleIsSeen(nodes: World, labels: set<string>)
    ensures forall k :: k in VisibleNodes(nodes, labels) <==> k in nodes && nodes[k].lab in labels
    ensures forall k <- VisibleNodes(nodes, labels) :: VisibleNodes(nodes, labels)[k] == nodes[k]
  {
  }

  /** `visible` on edges: kept when both ends exist and carry one of the role's labels. */
  method Visible(nodes: World, labels: set<string>, edges: set<Edge>) returns (kept: set<Edge>)
    ensures kept == set e | e in edges && e.src in VisibleNodes(nodes, labels) && e.dst in VisibleNodes(nodes, labels)
    ensures forall e :: e in kept <==>
              e in edges && e.src in nodes && nodes[e.src].lab in labels && e.dst in nodes && nodes[e.dst].lab in labels
  {
    kept := {};
    var left := edges;
    while left != {}
      invariant left <= edges
      invariant kept == set e | e in edges - left && e.src in VisibleNodes(nodes, labels) && e.dst in VisibleNodes(nodes, labels)
    {
      var e :| e in left;
      left := left - {e};
      if e.src in nodes && nodes[e.src].lab in labels && e.dst in nodes && nodes[e.dst].lab in labels {
        kept := kept + {e};
      }
    }
  }

  /** Visibility commutes with derivation: filtering what was derived is the same as
      deriving over what is visible. */
  method VisibleDerivation(dist: Distance, nodes: World, rules: seq<Rule>, labels: set<string>) returns (kept: set<Edge>)
    ensures kept == AllDerived(dist, VisibleNodes(nodes, labels), rules)
    ensures forall e :: e in kept <==>
              Derived(dist, nodes, rules, e) && nodes[e.src].lab in labels && nodes[e.dst].lab in labels
  {
    var all := DerivedEdges(dist, nodes, rules);
    kept := Visible(nodes, labels, all);
    assert forall e :: Derived(dist, VisibleNodes(nodes, labels), rules, e) <==>
                       Derived(dist, nodes, rules, e) && e.src in VisibleNodes(nodes, labels) && e.dst in VisibleNodes(nodes, labels);
  }
}
