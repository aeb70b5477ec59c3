/**
 * The mutable side of node.py: the `Node` objects and the class-level id counter,
 * held by one graph so that the counter is owned by an explicit context.
 *
 * `nodes[i]` is the state of the node whose `node_id` is `i`; `nodeId` is the
 * counter `Node.node_id`, the id the next node will receive.
 */
module NodeGraph {
  import opened Wrappers
  import opened Trie
  import opened Mermaid
  import opened Words

  /** The right operand of `node + other`: a token, a node object, or any other value. */
  datatype Operand = Token(w: string) | NodeOperand(id: NodeId) | Other

  datatype Error = TypeMismatch

  /**
   * `Node.__radd__` (node.py:60-64): `0 + node` is `node`; any other left operand
   * is a type error.
   */
  function RAdd(s: NodeId, other: int): Result<NodeId, Error> {
    if other == 0 then Ok(s) else Err(TypeMismatch)
  }

  /**
   * Python's `sum([s, w1, ..., wn], start)`: `start + s` goes to `s.__radd__(start)`,
   * and each token is then added with `+` to the running node, left to right.
   */
  function Sum(nodes: seq<Node>, start: int, s: NodeId, tokens: seq<string>): (r: (seq<Node>, Result<NodeId, Error>))
    requires WellFormed(nodes) && s < |nodes|
    ensures WellFormed(r.0) && (r.1.Ok? ==> r.1.value < |r.0|)
    decreases |tokens|
  {
    if tokens == [] then (nodes, RAdd(s, start))
    else
      var (m, acc) := Sum(nodes, start, s, tokens[..|tokens| - 1]);
      match acc
      case Err(e) => (m, Err(e))
      case Ok(n) =>
        var (m', c) := ExtendToken(m, n, tokens[|tokens| - 1]);
        (m', Ok(c))
  }

  /**
   * `__radd__` is what lets `sum` build a chain: summing a node and tokens from the
   * default start 0 is `node_sum(tokens, node)`; any other start is a type error
   * and leaves the tree as it was.
   */
  lemma {:induction false} SumIsNodeSum(nodes: seq<Node>, start: int, s: NodeId, tokens: seq<string>)
    requires WellFormed(nodes) && s < |nodes|
    ensures var r := Accumulate(nodes, s, tokens);
            Sum(nodes, start, s, tokens) == if start == 0 then (r.0, Ok(r.1)) else (nodes, Err(TypeMismatch))
    decreases |tokens|
  {
    if tokens != [] {
      var init, w := tokens[..|tokens| - 1], tokens[|tokens| - 1];
      SumIsNodeSum(nodes, start, s, init);
      assert init + [w] == tokens;
      AccumulateSnoc(nodes, s, init, w);
    }
  }

  class Graph {
    var nodes: seq<Node>
    var nodeId: nat

    ghost predicate Valid()
      reads this
    {
      WellFormed(nodes) && nodeId == |nodes|
    }

    constructor ()
      ensures Valid() && nodes == [] && nodeId == 0
    {
      nodes := [];
      nodeId := 0;
    }

    /** `Node.__init__` (node.py:18-24): the new node takes the counter's value as its id. */
    method NewNode(data: string) returns (id: NodeId)
      requires Valid()
      modifies this
      ensures Valid()
      ensures id == old(nodeId) && nodeId == old(nodeId) + 1
      ensures nodes == old(nodes) + [Fresh(data)]
      ensures nodes[id].data == data && nodes[id].freq == 0 && nodes[id].father == None
      ensures nodes[id].keys == [] && nodes[id].next == map[]
    {
      FreshKeepsWellFormed(nodes, data);
      id := nodeId;
      nodes := nodes + [Node(data, 0, None, [], map[])];
      nodeId := nodeId + 1;
    }

    /**
     * `Node.__add__` (node.py:49-58). A node operand is accepted when its token is
     * already a key of `s`, or when it is a node without a father allocated after `s`.
     */
    method Add(s: NodeId, x: Operand) returns (r: Result<NodeId, Error>)
      requires Valid() && s < |nodes|
      requires x.NodeOperand? ==>
                 x.id < |nodes| && (nodes[x.id].data in nodes[s].next || (s < x.id && nodes[x.id].father == None))
      modifies this
      ensures Valid()
      ensures x.Other? ==> r == Err(TypeMismatch) && nodes == old(nodes)
      ensures x.Token? ==> r.Ok? && (nodes, r.value) == ExtendToken(old(nodes), s, x.w)
      ensures x.NodeOperand? ==> r.Ok? && (nodes, r.value) == Adopt(old(nodes), s, x.id)
    {
      var o: NodeId;
      match x {
        case Other =>
          return Err(TypeMismatch);
        case Token(w) =>
          o := NewNode(w);
        case NodeOperand(id) =>
          o := id;
      }
      var c := Attach(s, o);
      r := Ok(c);
    }

    /** The common tail of `Node.__add__` (node.py:52-58): link `o` under `s` if its token is new there, then count the child. */
    method Attach(s: NodeId, o: NodeId) returns (c: NodeId)
      requires Valid() && s < |nodes| && o < |nodes|
      requires nodes[o].data in nodes[s].next || (s < o && nodes[o].father == None)
      modifies this
      ensures Valid() && (nodes, c) == Adopt(old(nodes), s, o)
    {
      ghost var before := nodes;
      assert NodeOk(before, s);
      var key := nodes[o].data;
      if key !in nodes[s].next {
        nodes := nodes[s := nodes[s].(keys := nodes[s].keys + [key], next := nodes[s].next[key := o])];
        nodes := nodes[o := nodes[o].(father := Some(s))];
      }
      c := nodes[s].next[key];
      nodes := nodes[c := nodes[c].(freq := nodes[c].freq + 1)];
      assert (nodes, c) == Adopt(before, s, o);
    }

    /** `node_sum` (node.py:95-101) on tokens; without a start node it starts from a new `"<s>"` node. */
    method NodeSum(vals: seq<string>, start: Option<NodeId>) returns (ans: NodeId)
      requires Valid() && (start.Some? ==> start.value < |nodes|)
      modifies this
      ensures Valid() && (nodes, ans) == NodeSumResult(old(nodes), vals, start)
    {
      if start.None? {
        ans := NewNode("<s>");
      } else {
        ans := start.value;
      }
      ghost var n0, s0 := nodes, ans;
      for k := 0 to |vals|
        invariant Valid() && ans < |nodes|
        invariant Accumulate(nodes, ans, vals[k..]) == Accumulate(n0, s0, vals)
      {
        ghost var before, from := nodes, ans;
        var r := Add(ans, Token(vals[k]));
        ans := r.value;
        assert vals[k..][0] == vals[k] && vals[k..][1..] == vals[k + 1..];
        assert Accumulate(before, from, vals[k..]) == Accumulate(nodes, ans, vals[k + 1..]);
      }
    }

    /**
     * `node_sum_sent` (node.py:124-135): tokenize, keep the words whose normalised
     * form passes `filter_words`, transform them, and add them in order.
     */
    method NodeSumSent(sent: string, start: Option<NodeId>, abandoned: set<string>, stopWords: set<string>,
                       tokenize: string -> seq<string>, transform: string -> string) returns (ans: NodeId)
      requires Valid() && (start.Some? ==> start.value < |nodes|)
      modifies this
      ensures Valid()
      ensures (nodes, ans) == NodeSumResult(old(nodes), SentenceTokens(tokenize(sent), abandoned, stopWords, transform), start)
    {
      var tokens := SentenceTokens(tokenize(sent), abandoned, stopWords, transform);
      ans := NodeSum(tokens, start);
    }

    /** `Node._print` (node.py:66-74): the edge lines of the subtree of `s`. */
    method PrintLines(s: NodeId, minFreq: int, maxDepth: Budget) returns (lines: seq<string>)
      requires Valid() && s < |nodes|
      ensures lines == Render(nodes, Edges(nodes, s, minFreq, maxDepth))
      decreases |nodes| - s, 1
    {
      lines := [];
      var keys := nodes[s].keys;
      for k := 0 to |keys|
        invariant lines == Render(nodes, ChildEdges(nodes, s, k, minFreq, maxDepth))
      {
        RenderChildEdgesStep(nodes, s, k, minFreq, maxDepth);
        var block := PrintBlock(s, keys[k], minFreq, maxDepth);
        lines := lines + block;
      }
    }

    /** One pass of the loop in `Node._print` (node.py:68-74): the lines for the child of `s` under `key`. */
    method PrintBlock(s: NodeId, key: string, minFreq: int, maxDepth: Budget) returns (lines: seq<string>)
      requires Valid() && s < |nodes| && key in nodes[s].next
      ensures lines == Render(nodes, Block(nodes, s, key, minFreq, maxDepth))
      decreases |nodes| - s, 0
    {
      RenderBlock(nodes, s, key, minFreq, maxDepth);
      var child := nodes[s].next[key];
      if nodes[child].freq < minFreq {
        return [];
      }
      lines := [Line(nodes, Edge(s, nodes[child].freq, child))];
      if Below(Depth(nodes, child), maxDepth) {
        var sub := PrintLines(child, minFreq, Decrement(maxDepth));
        lines := lines + sub;
      }
    }

    /** `Node.print` (node.py:76-92); `maxDepth == -1` means no depth limit. */
    method Print(s: NodeId, minFreq: int, maxDepth: int) returns (doc: string)
      requires Valid() && s < |nodes|
      ensures doc == Document(Render(nodes, Edges(nodes, s, minFreq, BudgetOf(maxDepth))))
    {
      var lines := PrintLines(s, minFreq, BudgetOf(maxDepth));
      doc := Join(["```mermaid", "graph LR"] + lines + ["```"], "\n");
    }
  }

  /** tests/test_node.py:13-23 through the class: a new child has frequency 1, adding it again makes 2. */
  method AdditionScenario() returns (first: nat, second: nat, sameChild: bool)
    ensures first == 1 && second == 2 && sameChild
  {
    var g := new Graph();
    var root := g.NewNode("root");
    var r1 := g.Add(root, Token("child"));
    first := g.nodes[r1.value].freq;
    var r2 := g.Add(root, Token("child"));
    second := g.nodes[r2.value].freq;
    sameChild := r1.value == r2.value && Child(g.nodes, root, "child") == Some(r1.value);
  }
}
