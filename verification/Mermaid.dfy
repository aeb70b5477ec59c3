/**
 * `Node._print` and `Node.print` of node.py: the Mermaid rendering of a subtree.
 *
 * The traversal is specified on structured edges (`Edges`); `Render` turns each
 * edge into the text line `N<id>[<data>] --<freq>--> N<id>[<data>]` and `Document`
 * frames the lines as a Mermaid block.
 */
module Mermaid {
  import opened Wrappers
  import opened Trie

  /** The `max_depth` argument of `_print`: an int, or `float("inf")`. */
  datatype Budget = Limit(n: int) | Unlimited

  /** `print` turns the default `max_depth == -1` into an unlimited budget; any other value is kept. */
  function BudgetOf(maxDepth: int): Budget {
    if maxDepth == -1 then Unlimited else Limit(maxDepth)
  }

  /** `depth < max_depth`, where `inf` exceeds every depth. */
  predicate Below(d: nat, b: Budget) {
    b.Unlimited? || d < b.n
  }

  /** `max_depth - 1`, where `inf - 1 == inf`. */
  function Decrement(b: Budget): Budget {
    match b
    case Unlimited => Unlimited
    case Limit(n) => Limit(n - 1)
  }

  /** One line of the diagram: the edge from `from` to its child `to`, labelled with the child's frequency. */
  datatype Edge = Edge(from: NodeId, freq: nat, to: NodeId)

  /** The edges `_print(min_freq, max_depth)` lists for node `i`. */
  function Edges(nodes: seq<Node>, i: NodeId, minFreq: int, b: Budget): (es: seq<Edge>)
    requires WellFormed(nodes) && i < |nodes|
    ensures forall k :: 0 <= k < |es| ==> i <= es[k].from < es[k].to < |nodes| && i < es[k].to
    decreases |nodes| - i, |nodes[i].keys| + 1
  {
    ChildEdges(nodes, i, |nodes[i].keys|, minFreq, b)
  }

  /** The edges `_print` lists for the first `k` entries of `i.next`, in insertion order. */
  function ChildEdges(nodes: seq<Node>, i: NodeId, k: nat, minFreq: int, b: Budget): (es: seq<Edge>)
    requires WellFormed(nodes) && i < |nodes| && k <= |nodes[i].keys|
    ensures forall j :: 0 <= j < |es| ==> i <= es[j].from < es[j].to < |nodes| && i < es[j].to
    decreases |nodes| - i, k
  {
    if k == 0 then []
    else
      assert NodeOk(nodes, i);
      ChildEdges(nodes, i, k - 1, minFreq, b) + Block(nodes, i, nodes[i].keys[k - 1], minFreq, b)
  }

  /**
   * One iteration of the loop in `_print`: a child below `minFreq` is skipped with
   * everything under it; otherwise its edge is listed and, when the child's own
   * depth is below the budget, its subtree follows with the budget decremented.
   */
  function Block(nodes: seq<Node>, i: NodeId, key: string, minFreq: int, b: Budget): (es: seq<Edge>)
    requires WellFormed(nodes) && i < |nodes| && key in nodes[i].next
    ensures forall j :: 0 <= j < |es| ==> i <= es[j].from < es[j].to < |nodes| && i < es[j].to
    decreases |nodes| - i, 0
  {
    assert NodeOk(nodes, i);
    var c := nodes[i].next[key];
    if nodes[c].freq < minFreq then []
    else
      [Edge(i, nodes[c].freq, c)]
      + (if Below(Depth(nodes, c), b) then Edges(nodes, c, minFreq, Decrement(b)) else [])
  }

  /** `x` lies under `i`, and every node on the way down from `i` to `x` (`i` excluded) has frequency at least `minFreq`. */
  ghost predicate Qualified(nodes: seq<Node>, i: NodeId, x: NodeId, minFreq: int)
    requires WellFormed(nodes) && x < |nodes|
    decreases x
  {
    x == i
    || (nodes[x].freq >= minFreq
        && match nodes[x].father
           case None => false
           case Some(f) => assert NodeOk(nodes, x); Qualified(nodes, i, f, minFreq))
  }

  /**
   * The renderer descends into `y` when started at `i` with budget `b`. Because the
   * source compares the absolute depth of a child with a budget that also shrinks by
   * one per level, this is `2 * depth(y) < max_depth + depth(i) + 1`, not
   * "fewer than max_depth levels below i".
   */
  ghost predicate WithinCutoff(nodes: seq<Node>, i: NodeId, b: Budget, y: NodeId)
    requires WellFormed(nodes) && i < |nodes| && y < |nodes|
  {
    b.Unlimited? || 2 * Depth(nodes, y) < b.n + Depth(nodes, i) + 1
  }

  lemma {:induction false} QualifiedTrans(nodes: seq<Node>, i: NodeId, c: NodeId, x: NodeId, minFreq: int)
    requires WellFormed(nodes) && c < |nodes| && x < |nodes|
    requires Qualified(nodes, i, c, minFreq) && Qualified(nodes, c, x, minFreq)
    ensures Qualified(nodes, i, x, minFreq)
    decreases x
  {
    if x != c && x != i {
      assert NodeOk(nodes, x);
      QualifiedTrans(nodes, i, c, nodes[x].father.value, minFreq);
    }
  }

  lemma {:induction false} QualifiedDepth(nodes: seq<Node>, i: NodeId, x: NodeId, minFreq: int)
    requires WellFormed(nodes) && i < |nodes| && x < |nodes|
    requires Qualified(nodes, i, x, minFreq)
    ensures x != i ==> i < x && Depth(nodes, i) < Depth(nodes, x)
    decreases x
  {
    if x != i {
      assert NodeOk(nodes, x);
      QualifiedDepth(nodes, i, nodes[x].father.value, minFreq);
    }
  }

  /** The child of `i` on the way down from `i` to `x`. */
  ghost function ChildOnPath(nodes: seq<Node>, i: NodeId, x: NodeId, minFreq: int): (r: NodeId)
    requires WellFormed(nodes) && x < |nodes| && x != i && Qualified(nodes, i, x, minFreq)
    ensures r <= x && nodes[r].father == Some(i)
    ensures Qualified(nodes, i, r, minFreq) && Qualified(nodes, r, x, minFreq)
    decreases x
  {
    assert NodeOk(nodes, x);
    var p := nodes[x].father.value;
    if p == i then x else ChildOnPath(nodes, i, p, minFreq)
  }

  /**
   * Soundness of `_print`: every listed edge goes from a node to one of its
   * children and carries that child's frequency; the child lies under the start
   * node along a path of nodes that all pass `minFreq` (so a child below
   * `minFreq` hides its whole subtree); and the parent is the start node or a node
   * within the depth cutoff.
   */
  lemma {:induction false} ChildEdgesSound(nodes: seq<Node>, i: NodeId, k: nat, minFreq: int, b: Budget, n: nat)
    requires WellFormed(nodes) && i < |nodes| && k <= |nodes[i].keys|
    requires n < |ChildEdges(nodes, i, k, minFreq, b)|
    ensures var e := ChildEdges(nodes, i, k, minFreq, b)[n];
            nodes[e.to].father == Some(e.from) && e.freq == nodes[e.to].freq
            && Qualified(nodes, i, e.to, minFreq)
            && (e.from == i || WithinCutoff(nodes, i, b, e.from))
    decreases |nodes| - i, k
  {
    assert NodeOk(nodes, i);
    var es := ChildEdges(nodes, i, k - 1, minFreq, b);
    if n < |es| {
      ChildEdgesSound(nodes, i, k - 1, minFreq, b, n);
    } else {
      var key := nodes[i].keys[k - 1];
      var c := nodes[i].next[key];
      assert NodeOk(nodes, c);
      var bl := Block(nodes, i, key, minFreq, b);
      assert ChildEdges(nodes, i, k, minFreq, b)[n] == bl[n - |es|];
      if n - |es| > 0 {
        var sub := Edges(nodes, c, minFreq, Decrement(b));
        assert Below(Depth(nodes, c), b);
        assert bl[n - |es|] == sub[n - |es| - 1];
        EdgesSound(nodes, c, minFreq, Decrement(b), n - |es| - 1);
        var e := sub[n - |es| - 1];
        assert Qualified(nodes, i, c, minFreq);
        QualifiedTrans(nodes, i, c, e.to, minFreq);
      }
    }
  }

  lemma {:induction false} EdgesSound(nodes: seq<Node>, i: NodeId, minFreq: int, b: Budget, n: nat)
    requires WellFormed(nodes) && i < |nodes|
    requires n < |Edges(nodes, i, minFreq, b)|
    ensures var e := Edges(nodes, i, minFreq, b)[n];
            nodes[e.to].father == Some(e.from) && e.freq == nodes[e.to].freq
            && Qualified(nodes, i, e.to, minFreq)
            && (e.from == i || WithinCutoff(nodes, i, b, e.from))
    decreases |nodes| - i, |nodes[i].keys| + 1
  {
    ChildEdgesSound(nodes, i, |nodes[i].keys|, minFreq, b, n);
  }

  lemma {:induction false} BlockInChildEdges(nodes: seq<Node>, i: NodeId, k: nat, a: nat, minFreq: int, b: Budget, e: Edge)
    requires WellFormed(nodes) && i < |nodes| && a < k <= |nodes[i].keys|
    requires NodeOk(nodes, i) && e in Block(nodes, i, nodes[i].keys[a], minFreq, b)
    ensures e in ChildEdges(nodes, i, k, minFreq, b)
    decreases k
  {
    if a < k - 1 {
      BlockInChildEdges(nodes, i, k - 1, a, minFreq, b, e);
    }
  }

  /**
   * Completeness of `_print`: every node `x` under the start node that is reached
   * through nodes passing `minFreq`, and whose parent is the start node or within
   * the depth cutoff, has its edge listed.
   */
  lemma {:induction false} EdgesComplete(nodes: seq<Node>, i: NodeId, minFreq: int, b: Budget, p: NodeId, x: NodeId)
    requires WellFormed(nodes) && i < |nodes| && p < |nodes| && x < |nodes| && x != i
    requires Qualified(nodes, i, x, minFreq) && nodes[x].father == Some(p)
    requires p == i || WithinCutoff(nodes, i, b, p)
    ensures Edge(p, nodes[x].freq, x) in Edges(nodes, i, minFreq, b)
    decreases |nodes| - i
  {
    assert NodeOk(nodes, i);
    var c := ChildOnPath(nodes, i, x, minFreq);
    assert NodeOk(nodes, c);
    var key := nodes[c].data;
    var a :| 0 <= a < |nodes[i].keys| && nodes[i].keys[a] == key;
    var e := Edge(p, nodes[x].freq, x);
    if x != c {
      assert NodeOk(nodes, x);
      QualifiedDepth(nodes, c, p, minFreq);
      assert Below(Depth(nodes, c), b);
      EdgesComplete(nodes, c, minFreq, Decrement(b), p, x);
    }
    assert e in Block(nodes, i, key, minFreq, b);
    BlockInChildEdges(nodes, i, |nodes[i].keys|, a, minFreq, b, e);
  }

  /** No two edges of `es` lead to the same node. */
  predicate DistinctTargets(es: seq<Edge>) {
    forall a1, a2 :: 0 <= a1 < a2 < |es| ==> es[a1].to != es[a2].to
  }

  /** A node reached from a child `c` of `i` lies on the branch of `c`. */
  lemma {:induction false} ChildOnPathOf(nodes: seq<Node>, i: NodeId, c: NodeId, x: NodeId, minFreq: int)
    requires WellFormed(nodes) && c < |nodes| && x < |nodes|
    requires nodes[c].father == Some(i) && nodes[c].freq >= minFreq && Qualified(nodes, c, x, minFreq)
    ensures x != i && Qualified(nodes, i, x, minFreq) && ChildOnPath(nodes, i, x, minFreq) == c
    decreases x
  {
    assert NodeOk(nodes, c);
    assert Qualified(nodes, i, c, minFreq);
    QualifiedTrans(nodes, i, c, x, minFreq);
    QualifiedDepth(nodes, c, x, minFreq);
    if x != c {
      assert NodeOk(nodes, x);
      var p := nodes[x].father.value;
      QualifiedDepth(nodes, c, p, minFreq);
      ChildOnPathOf(nodes, i, c, p, minFreq);
    }
  }

  /** Every edge of one pass of the loop leads into the branch of that pass's child. */
  lemma BlockBranch(nodes: seq<Node>, i: NodeId, key: string, minFreq: int, b: Budget, n: nat)
    requires WellFormed(nodes) && i < |nodes| && key in nodes[i].next
    requires n < |Block(nodes, i, key, minFreq, b)|
    ensures var e := Block(nodes, i, key, minFreq, b)[n];
            e.to != i && Qualified(nodes, i, e.to, minFreq)
            && ChildOnPath(nodes, i, e.to, minFreq) == nodes[i].next[key]
  {
    assert NodeOk(nodes, i);
    var c := nodes[i].next[key];
    var e := Block(nodes, i, key, minFreq, b)[n];
    if n == 0 {
      ChildOnPathOf(nodes, i, c, c, minFreq);
    } else {
      var sub := Edges(nodes, c, minFreq, Decrement(b));
      assert Below(Depth(nodes, c), b);
      assert e == sub[n - 1];
      EdgesSound(nodes, c, minFreq, Decrement(b), n - 1);
      ChildOnPathOf(nodes, i, c, e.to, minFreq);
    }
  }

  /** Every edge of the first `k` passes leads into the branch of one of the first `k` keys. */
  lemma {:induction false} ChildEdgesBranch(nodes: seq<Node>, i: NodeId, k: nat, minFreq: int, b: Budget, n: nat)
    requires WellFormed(nodes) && i < |nodes| && k <= |nodes[i].keys|
    requires n < |ChildEdges(nodes, i, k, minFreq, b)|
    ensures var e := ChildEdges(nodes, i, k, minFreq, b)[n];
            e.to != i && Qualified(nodes, i, e.to, minFreq)
            && nodes[ChildOnPath(nodes, i, e.to, minFreq)].data in nodes[i].keys[..k]
    decreases k
  {
    assert NodeOk(nodes, i);
    var es := ChildEdges(nodes, i, k - 1, minFreq, b);
    var key := nodes[i].keys[k - 1];
    assert nodes[i].keys[..k] == nodes[i].keys[..k - 1] + [key];
    if n < |es| {
      ChildEdgesBranch(nodes, i, k - 1, minFreq, b, n);
    } else {
      assert ChildEdges(nodes, i, k, minFreq, b)[n] == Block(nodes, i, key, minFreq, b)[n - |es|];
      BlockBranch(nodes, i, key, minFreq, b, n - |es|);
    }
  }

  /**
   * `_print` lists each node at most once: no two of its lines lead to the same
   * child, so no (parent, child) pair appears twice.
   */
  lemma {:induction false} EdgesDistinct(nodes: seq<Node>, i: NodeId, minFreq: int, b: Budget)
    requires WellFormed(nodes) && i < |nodes|
    ensures DistinctTargets(Edges(nodes, i, minFreq, b))
    decreases |nodes| - i, |nodes[i].keys| + 1
  {
    ChildEdgesDistinct(nodes, i, |nodes[i].keys|, minFreq, b);
  }

  lemma {:induction false} ChildEdgesDistinct(nodes: seq<Node>, i: NodeId, k: nat, minFreq: int, b: Budget)
    requires WellFormed(nodes) && i < |nodes| && k <= |nodes[i].keys|
    ensures DistinctTargets(ChildEdges(nodes, i, k, minFreq, b))
    decreases |nodes| - i, k
  {
    if k > 0 {
      assert NodeOk(nodes, i);
      var es := ChildEdges(nodes, i, k - 1, minFreq, b);
      var key := nodes[i].keys[k - 1];
      var bl := Block(nodes, i, key, minFreq, b);
      ChildEdgesDistinct(nodes, i, k - 1, minFreq, b);
      BlockDistinct(nodes, i, key, minFreq, b);
      forall a1, a2 | 0 <= a1 < |es| && 0 <= a2 < |bl|
        ensures es[a1].to != bl[a2].to
      {
        ChildEdgesBranch(nodes, i, k - 1, minFreq, b, a1);
        BlockBranch(nodes, i, key, minFreq, b, a2);
        assert key !in nodes[i].keys[..k - 1];
      }
      assert ChildEdges(nodes, i, k, minFreq, b) == es + bl;
    }
  }

  lemma {:induction false} BlockDistinct(nodes: seq<Node>, i: NodeId, key: string, minFreq: int, b: Budget)
    requires WellFormed(nodes) && i < |nodes| && key in nodes[i].next
    ensures DistinctTargets(Block(nodes, i, key, minFreq, b))
    decreases |nodes| - i, 0
  {
    assert NodeOk(nodes, i);
    var c := nodes[i].next[key];
    if nodes[c].freq >= minFreq && Below(Depth(nodes, c), b) {
      EdgesDistinct(nodes, c, minFreq, Decrement(b));
      var sub := Edges(nodes, c, minFreq, Decrement(b));
      assert Block(nodes, i, key, minFreq, b) == [Edge(i, nodes[c].freq, c)] + sub;
    }
  }

  /** The edges of `es` that leave `i`, in order. */
  function Outgoing(es: seq<Edge>, i: NodeId): seq<Edge> {
    if es == [] then [] else (if es[0].from == i then [es[0]] else []) + Outgoing(es[1..], i)
  }

  lemma {:induction false} OutgoingConcat(xs: seq<Edge>, ys: seq<Edge>, i: NodeId)
    ensures Outgoing(xs + ys, i) == Outgoing(xs, i) + Outgoing(ys, i)
    decreases |xs|
  {
    if xs != [] {
      assert (xs + ys)[1..] == xs[1..] + ys;
      OutgoingConcat(xs[1..], ys, i);
    } else {
      assert xs + ys == ys;
    }
  }

  lemma {:induction false} OutgoingNone(es: seq<Edge>, i: NodeId)
    requires forall k :: 0 <= k < |es| ==> es[k].from != i
    ensures Outgoing(es, i) == []
    decreases |es|
  {
    if es != [] {
      OutgoingNone(es[1..], i);
    }
  }

  /** The children among the first `k` keys of `i` whose frequency passes `minFreq`, as edges, in insertion order. */
  function DirectEdges(nodes: seq<Node>, i: NodeId, k: nat, minFreq: int): seq<Edge>
    requires WellFormed(nodes) && i < |nodes| && k <= |nodes[i].keys|
  {
    if k == 0 then []
    else
      assert NodeOk(nodes, i);
      var c := nodes[i].next[nodes[i].keys[k - 1]];
      DirectEdges(nodes, i, k - 1, minFreq) + (if nodes[c].freq >= minFreq then [Edge(i, nodes[c].freq, c)] else [])
  }

  /** The edges for the first `k + 1` keys are those for the first `k`, then the block of key `k`. */
  lemma ChildEdgesStep(nodes: seq<Node>, i: NodeId, k: nat, minFreq: int, b: Budget)
    requires WellFormed(nodes) && i < |nodes| && k < |nodes[i].keys|
    ensures nodes[i].keys[k] in nodes[i].next
    ensures ChildEdges(nodes, i, k + 1, minFreq, b)
            == ChildEdges(nodes, i, k, minFreq, b) + Block(nodes, i, nodes[i].keys[k], minFreq, b)
  {
    assert NodeOk(nodes, i);
  }

  /** Of one child's block, only the child's own edge leaves `i`, and only if its frequency passes `minFreq`. */
  lemma BlockTopLevel(nodes: seq<Node>, i: NodeId, key: string, minFreq: int, b: Budget)
    requires WellFormed(nodes) && i < |nodes| && key in nodes[i].next
    ensures nodes[i].next[key] < |nodes|
    ensures var c := nodes[i].next[key];
            Outgoing(Block(nodes, i, key, minFreq, b), i) == if nodes[c].freq >= minFreq then [Edge(i, nodes[c].freq, c)] else []
  {
    assert NodeOk(nodes, i);
    var c := nodes[i].next[key];
    if nodes[c].freq >= minFreq {
      var sub := if Below(Depth(nodes, c), b) then Edges(nodes, c, minFreq, Decrement(b)) else [];
      OutgoingConcat([Edge(i, nodes[c].freq, c)], sub, i);
      OutgoingNone(sub, i);
    }
  }

  /** One more key of `i` adds, among the edges leaving `i`, the child's own edge when its frequency passes `minFreq`. */
  lemma OutgoingStep(nodes: seq<Node>, i: NodeId, k: nat, minFreq: int, b: Budget)
    requires WellFormed(nodes) && i < |nodes| && k < |nodes[i].keys|
    ensures nodes[i].keys[k] in nodes[i].next && nodes[i].next[nodes[i].keys[k]] < |nodes|
    ensures var c := nodes[i].next[nodes[i].keys[k]];
            Outgoing(ChildEdges(nodes, i, k + 1, minFreq, b), i)
            == Outgoing(ChildEdges(nodes, i, k, minFreq, b), i) + (if nodes[c].freq >= minFreq then [Edge(i, nodes[c].freq, c)] else [])
  {
    var key := nodes[i].keys[k];
    ChildEdgesStep(nodes, i, k, minFreq, b);
    OutgoingConcat(ChildEdges(nodes, i, k, minFreq, b), Block(nodes, i, key, minFreq, b), i);
    BlockTopLevel(nodes, i, key, minFreq, b);
  }

  /**
   * The lines `_print` writes for the start node itself are one per child whose
   * frequency passes `minFreq`, in the insertion order of `next`, whatever the budget.
   */
  lemma {:induction false} ChildEdgesTopLevel(nodes: seq<Node>, i: NodeId, k: nat, minFreq: int, b: Budget)
    requires WellFormed(nodes) && i < |nodes| && k <= |nodes[i].keys|
    ensures Outgoing(ChildEdges(nodes, i, k, minFreq, b), i) == DirectEdges(nodes, i, k, minFreq)
    decreases k
  {
    if k > 0 {
      OutgoingStep(nodes, i, k - 1, minFreq, b);
      ChildEdgesTopLevel(nodes, i, k - 1, minFreq, b);
    }
  }

  lemma EdgesTopLevel(nodes: seq<Node>, i: NodeId, minFreq: int, b: Budget)
    requires WellFormed(nodes) && i < |nodes|
    ensures Outgoing(Edges(nodes, i, minFreq, b), i) == DirectEdges(nodes, i, |nodes[i].keys|, minFreq)
  {
    ChildEdgesTopLevel(nodes, i, |nodes[i].keys|, minFreq, b);
  }

  predicate IsDigit(ch: char) {
    '0' <= ch <= '9'
  }

  function Digit(d: nat): (ch: char)
    requires d < 10
    ensures IsDigit(ch) && ch as int - '0' as int == d
  {
    ('0' as int + d) as char
  }

  /** The decimal text Python's f-strings give a non-negative int. */
  function NatStr(n: nat): (s: string)
    ensures |s| > 0 && forall k :: 0 <= k < |s| ==> IsDigit(s[k])
  {
    if n < 10 then [Digit(n)] else NatStr(n / 10) + [Digit(n % 10)]
  }

  /** The number a string of decimal digits denotes. */
  function DigitsValue(s: string): nat
    requires forall k :: 0 <= k < |s| ==> IsDigit(s[k])
  {
    if s == [] then 0
    else
      assert IsDigit(s[|s| - 1]);
      DigitsValue(s[..|s| - 1]) * 10 + (s[|s| - 1] as int - '0' as int)
  }

  lemma {:induction false} NatStrRoundTrip(n: nat)
    ensures DigitsValue(NatStr(n)) == n
  {
    if n >= 10 {
      NatStrRoundTrip(n / 10);
      var s := NatStr(n);
      assert s[..|s| - 1] == NatStr(n / 10);
    }
  }

  /** The length of the run of digits that starts `s`. */
  function DigitRun(s: string): (d: nat)
    ensures d <= |s| && (forall k :: 0 <= k < d ==> IsDigit(s[k])) && (d < |s| ==> !IsDigit(s[d]))
  {
    if s == [] || !IsDigit(s[0]) then 0 else 1 + DigitRun(s[1..])
  }

  /** `Node.__str__` (node.py:40-41): `N<id>[<data>]`. */
  function Label(nodes: seq<Node>, i: NodeId): string
    requires i < |nodes|
  {
    "N" + NatStr(i) + "[" + nodes[i].data + "]"
  }

  /** The id shown by a label: the digits between the leading `N` and the first non-digit. */
  function LabelId(text: string): Option<nat> {
    if |text| < 2 || text[0] != 'N' then None
    else
      var d := DigitRun(text[1..]);
      if d == 0 then None else Some(DigitsValue(text[1..1 + d]))
  }

  /** Whatever follows a label, the text starts by showing the label's id. */
  lemma LabelPrefixShowsId(nodes: seq<Node>, i: NodeId, tail: string)
    requires i < |nodes|
    ensures LabelId(Label(nodes, i) + tail) == Some(i)
  {
    var text := Label(nodes, i) + tail;
    var digits := NatStr(i);
    assert text[1..] == digits + ("[" + nodes[i].data + "]" + tail);
    DigitRunOf(digits, "[" + nodes[i].data + "]" + tail);
    assert text[1..1 + |digits|] == digits;
    NatStrRoundTrip(i);
  }

  /** A label shows its node's id, so distinct nodes never print the same label. */
  lemma LabelShowsId(nodes: seq<Node>, i: NodeId)
    requires i < |nodes|
    ensures LabelId(Label(nodes, i)) == Some(i)
  {
    LabelPrefixShowsId(nodes, i, "");
    assert Label(nodes, i) + "" == Label(nodes, i);
  }

  lemma {:induction false} DigitRunOf(digits: string, rest: string)
    requires forall k :: 0 <= k < |digits| ==> IsDigit(digits[k])
    requires rest != [] && !IsDigit(rest[0])
    ensures DigitRun(digits + rest) == |digits|
    decreases |digits|
  {
    if digits != [] {
      assert (digits + rest)[1..] == digits[1..] + rest;
      DigitRunOf(digits[1..], rest);
    } else {
      assert digits + rest == rest;
    }
  }

  lemma LabelsDistinct(nodes: seq<Node>, i: NodeId, j: NodeId)
    requires i < |nodes| && j < |nodes| && i != j
    ensures Label(nodes, i) != Label(nodes, j)
  {
    LabelShowsId(nodes, i);
    LabelShowsId(nodes, j);
  }

  /** The text of one edge (node.py:71). */
  function Line(nodes: seq<Node>, e: Edge): string
    requires e.from < |nodes| && e.to < |nodes|
  {
    Label(nodes, e.from) + " --" + NatStr(e.freq) + "--> " + Label(nodes, e.to)
  }

  /** Reads the label of a node of `nodes` off the front of `text`, giving its id and what follows. */
  function ReadLabel(nodes: seq<Node>, text: string): Option<(NodeId, string)> {
    match LabelId(text)
    case None => None
    case Some(i) =>
      if i < |nodes| && |Label(nodes, i)| <= |text| && text[..|Label(nodes, i)|] == Label(nodes, i)
      then Some((i, text[|Label(nodes, i)|..]))
      else None
  }

  /** Reads the fixed text `lit` off the front of `text`. */
  function ReadLiteral(lit: string, text: string): Option<string> {
    if |lit| <= |text| && text[..|lit|] == lit then Some(text[|lit|..]) else None
  }

  /** Reads a number written as Python writes it (digits, no leading zero) off the front of `text`. */
  function ReadNat(text: string): Option<(nat, string)> {
    var d := DigitRun(text);
    if d == 0 || NatStr(DigitsValue(text[..d])) != text[..d] then None
    else Some((DigitsValue(text[..d]), text[d..]))
  }

  lemma ReadLabelOf(nodes: seq<Node>, i: NodeId, tail: string)
    requires i < |nodes|
    ensures ReadLabel(nodes, Label(nodes, i) + tail) == Some((i, tail))
  {
    LabelPrefixShowsId(nodes, i, tail);
    var text := Label(nodes, i) + tail;
    assert text[..|Label(nodes, i)|] == Label(nodes, i);
    assert text[|Label(nodes, i)|..] == tail;
  }

  lemma ReadLabelInverse(nodes: seq<Node>, text: string)
    requires ReadLabel(nodes, text).Some?
    ensures var (i, tail) := ReadLabel(nodes, text).value; i < |nodes| && text == Label(nodes, i) + tail
  {
    var i := LabelId(text).value;
    assert text == text[..|Label(nodes, i)|] + text[|Label(nodes, i)|..];
  }

  lemma ReadLiteralOf(lit: string, tail: string)
    ensures ReadLiteral(lit, lit + tail) == Some(tail)
  {
    assert (lit + tail)[..|lit|] == lit;
    assert (lit + tail)[|lit|..] == tail;
  }

  lemma ReadLiteralInverse(lit: string, text: string)
    requires ReadLiteral(lit, text).Some?
    ensures text == lit + ReadLiteral(lit, text).value
  {
    assert text == text[..|lit|] + text[|lit|..];
  }

  lemma ReadNatOf(n: nat, tail: string)
    requires tail != [] && !IsDigit(tail[0])
    ensures ReadNat(NatStr(n) + tail) == Some((n, tail))
  {
    var text := NatStr(n) + tail;
    DigitRunOf(NatStr(n), tail);
    assert text[..|NatStr(n)|] == NatStr(n);
    assert text[|NatStr(n)|..] == tail;
    NatStrRoundTrip(n);
  }

  lemma ReadNatInverse(text: string)
    requires ReadNat(text).Some?
    ensures var (n, tail) := ReadNat(text).value; text == NatStr(n) + tail
  {
    var d := DigitRun(text);
    assert text == text[..d] + text[d..];
  }

  /**
   * Reads a line of the diagram back: the parent's label, ` --`, the frequency,
   * `--> ` and the child's label, and nothing after it.
   */
  function ParseLine(nodes: seq<Node>, text: string): Option<Edge> {
    match ReadLabel(nodes, text)
    case None => None
    case Some((from, t1)) =>
      match ReadLiteral(" --", t1)
      case None => None
      case Some(t2) =>
        match ReadNat(t2)
        case None => None
        case Some((freq, t3)) =>
          match ReadLiteral("--> ", t3)
          case None => None
          case Some(t4) =>
            match ReadLabel(nodes, t4)
            case None => None
            case Some((to, t5)) => if t5 == [] then Some(Edge(from, freq, to)) else None
  }

  /** A line, grouped from the right the way it is read. */
  lemma LineShape(nodes: seq<Node>, e: Edge)
    requires e.from < |nodes| && e.to < |nodes|
    ensures Line(nodes, e) == Label(nodes, e.from) + (" --" + (NatStr(e.freq) + ("--> " + Label(nodes, e.to))))
  {
  }

  /** Every line reads back to the edge it was written for: parent id, frequency and child id. */
  lemma LineRoundTrip(nodes: seq<Node>, e: Edge)
    requires e.from < |nodes| && e.to < |nodes|
    ensures ParseLine(nodes, Line(nodes, e)) == Some(e)
  {
    var t4 := Label(nodes, e.to);
    var t3 := "--> " + t4;
    var t2 := NatStr(e.freq) + t3;
    var t1 := " --" + t2;
    LineShape(nodes, e);
    assert t4 + [] == t4;
    ReadLabelOf(nodes, e.from, t1);
    ReadLiteralOf(" --", t2);
    ReadNatOf(e.freq, t3);
    ReadLiteralOf("--> ", t4);
    ReadLabelOf(nodes, e.to, []);
  }

  /** Only the lines of edges read back: a text that parses is the line of the edge it parses to. */
  lemma ParseLineOnlyLines(nodes: seq<Node>, text: string)
    requires ParseLine(nodes, text).Some?
    ensures var e := ParseLine(nodes, text).value;
            e.from < |nodes| && e.to < |nodes| && text == Line(nodes, e)
  {
    var (from, t1) := ReadLabel(nodes, text).value;
    ReadLabelInverse(nodes, text);
    var t2 := ReadLiteral(" --", t1).value;
    ReadLiteralInverse(" --", t1);
    var (freq, t3) := ReadNat(t2).value;
    ReadNatInverse(t2);
    var t4 := ReadLiteral("--> ", t3).value;
    ReadLiteralInverse("--> ", t3);
    var (to, t5) := ReadLabel(nodes, t4).value;
    ReadLabelInverse(nodes, t4);
    assert t4 == Label(nodes, to);
    LineShape(nodes, Edge(from, freq, to));
  }

  /** Distinct edges are written as distinct lines. */
  lemma LinesDistinct(nodes: seq<Node>, e1: Edge, e2: Edge)
    requires e1.from < |nodes| && e1.to < |nodes| && e2.from < |nodes| && e2.to < |nodes|
    requires e1 != e2
    ensures Line(nodes, e1) != Line(nodes, e2)
  {
    LineRoundTrip(nodes, e1);
    LineRoundTrip(nodes, e2);
  }

  /** The lines of a list of edges, one per edge, in order (node.py:71). */
  function Render(nodes: seq<Node>, es: seq<Edge>): seq<string>
    requires forall k :: 0 <= k < |es| ==> es[k].from < |nodes| && es[k].to < |nodes|
  {
    seq(|es|, k requires 0 <= k < |es| => Line(nodes, es[k]))
  }

  lemma RenderConcat(nodes: seq<Node>, xs: seq<Edge>, ys: seq<Edge>)
    requires forall k :: 0 <= k < |xs| ==> xs[k].from < |nodes| && xs[k].to < |nodes|
    requires forall k :: 0 <= k < |ys| ==> ys[k].from < |nodes| && ys[k].to < |nodes|
    ensures Render(nodes, xs + ys) == Render(nodes, xs) + Render(nodes, ys)
  {
    var l, r := Render(nodes, xs + ys), Render(nodes, xs) + Render(nodes, ys);
    forall k | 0 <= k < |l| ensures l[k] == r[k] {
      if k < |xs| {
        assert (xs + ys)[k] == xs[k];
      } else {
        assert (xs + ys)[k] == ys[k - |xs|];
      }
    }
  }

  /** The lines of one child's block: nothing, its edge, or its edge followed by its subtree. */
  lemma RenderBlock(nodes: seq<Node>, i: NodeId, key: string, minFreq: int, b: Budget)
    requires WellFormed(nodes) && i < |nodes| && key in nodes[i].next
    ensures NodeOk(nodes, i)
    ensures var c := nodes[i].next[key];
            Render(nodes, Block(nodes, i, key, minFreq, b))
            == if nodes[c].freq < minFreq then []
               else if Below(Depth(nodes, c), b) then
                 [Line(nodes, Edge(i, nodes[c].freq, c))] + Render(nodes, Edges(nodes, c, minFreq, Decrement(b)))
               else [Line(nodes, Edge(i, nodes[c].freq, c))]
  {
    assert NodeOk(nodes, i);
    var c := nodes[i].next[key];
    if nodes[c].freq >= minFreq {
      var edge := Edge(i, nodes[c].freq, c);
      assert Render(nodes, [edge]) == [Line(nodes, edge)];
      if Below(Depth(nodes, c), b) {
        RenderConcat(nodes, [edge], Edges(nodes, c, minFreq, Decrement(b)));
      }
    }
  }

  /** One more child of `i` appends the lines of that child's block, as the loop of `_print` does. */
  lemma RenderChildEdgesStep(nodes: seq<Node>, i: NodeId, k: nat, minFreq: int, b: Budget)
    requires WellFormed(nodes) && i < |nodes| && k < |nodes[i].keys|
    ensures nodes[i].keys[k] in nodes[i].next
    ensures Render(nodes, ChildEdges(nodes, i, k + 1, minFreq, b))
            == Render(nodes, ChildEdges(nodes, i, k, minFreq, b)) + Render(nodes, Block(nodes, i, nodes[i].keys[k], minFreq, b))
  {
    assert NodeOk(nodes, i);
    RenderConcat(nodes, ChildEdges(nodes, i, k, minFreq, b), Block(nodes, i, nodes[i].keys[k], minFreq, b));
  }

  /** `sep.join(xs)`. */
  function Join(xs: seq<string>, sep: string): string {
    if |xs| == 0 then "" else if |xs| == 1 then xs[0] else xs[0] + sep + Join(xs[1..], sep)
  }

  /** The lines concatenated, each followed by a newline. */
  function Terminated(lines: seq<string>): string {
    if lines == [] then "" else lines[0] + "\n" + Terminated(lines[1..])
  }

  /** `Node.print` (node.py:88-92): the lines between the Mermaid header and the closing fence. */
  function Document(lines: seq<string>): string {
    Join(["```mermaid", "graph LR"] + lines + ["```"], "\n")
  }

  /**
   * The document is the header `"```mermaid\ngraph LR\n"`, then every line followed
   * by a newline, then the closing fence.
   */
  lemma DocumentShape(lines: seq<string>)
    ensures Document(lines) == "```mermaid\ngraph LR\n" + Terminated(lines) + "```"
  {
    var xs := ["```mermaid", "graph LR"] + lines + ["```"];
    assert xs[1..] == ["graph LR"] + (lines + ["```"]);
    assert xs[1..][1..] == lines + ["```"];
    JoinTerminated(lines, "```");
    assert Join(xs[1..], "\n") == "graph LR" + "\n" + (Terminated(lines) + "```");
    assert Document(lines) == "```mermaid" + "\n" + ("graph LR" + "\n" + (Terminated(lines) + "```"));
    assert "```mermaid" + "\n" + "graph LR" + "\n" == "```mermaid\ngraph LR\n";
  }

  lemma {:induction false} JoinTerminated(lines: seq<string>, last: string)
    ensures Join(lines + [last], "\n") == Terminated(lines) + last
    decreases |lines|
  {
    if lines != [] {
      assert (lines + [last])[1..] == lines[1..] + [last];
      JoinTerminated(lines[1..], last);
    } else {
      assert lines + [last] == [last];
    }
  }
}
