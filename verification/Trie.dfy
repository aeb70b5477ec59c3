/**
 * The frequency-weighted prefix tree of node.py, as a value.
 *
 * Every `Node` object the program allocates is an entry of one sequence; a node's
 * identity (`node_id` in the source) is its index there. `father` is the back
 * pointer, `keys` the insertion order of the `next` dictionary and `next` the
 * dictionary itself, from token to child.
 */
module Trie {
  import opened Wrappers

  type NodeId = nat

  datatype Node = Node(data: string, freq: nat, father: Option<NodeId>, keys: seq<string>, next: map<string, NodeId>)

  /** The state `Node.__init__` gives a new node. */
  function Fresh(data: string): Node {
    Node(data, 0, None, [], map[])
  }

  /**
   * The invariant of node `i`: its father was allocated before it and lists it under
   * its token; its keys are distinct and are exactly the keys of `next`; every child
   * was allocated after it, carries its key as token and points back to it.
   */
  ghost predicate NodeOk(nodes: seq<Node>, i: NodeId)
    requires i < |nodes|
  {
    var n := nodes[i];
    (n.father.Some? ==>
       n.father.value < i && n.data in nodes[n.father.value].next && nodes[n.father.value].next[n.data] == i)
    && (forall a, b :: 0 <= a < b < |n.keys| ==> n.keys[a] != n.keys[b])
    && (forall k :: k in n.next <==> k in n.keys)
    && (forall k :: k in n.next ==>
          i < n.next[k] < |nodes| && nodes[n.next[k]].data == k && nodes[n.next[k]].father == Some(i))
  }

  ghost predicate WellFormed(nodes: seq<Node>) {
    forall i :: 0 <= i < |nodes| ==> NodeOk(nodes, i)
  }

  /** `Node.depth`: the number of father links above `i`. */
  function Depth(nodes: seq<Node>, i: NodeId): nat
    requires WellFormed(nodes) && i < |nodes|
    decreases i
  {
    match nodes[i].father
    case None => 0
    case Some(f) => assert NodeOk(nodes, i); Depth(nodes, f) + 1
  }

  /** `Node.root`: the node reached by following father links to the end. */
  function Root(nodes: seq<Node>, i: NodeId): (r: NodeId)
    requires WellFormed(nodes) && i < |nodes|
    ensures r <= i && nodes[r].father == None
    ensures nodes[i].father == None ==> r == i
    decreases i
  {
    match nodes[i].father
    case None => i
    case Some(f) => assert NodeOk(nodes, i); Root(nodes, f)
  }

  /** `Node.__getitem__`: the child under `key`, or None where the source raises KeyError. */
  function Child(nodes: seq<Node>, s: NodeId, key: string): (r: Option<NodeId>)
    requires WellFormed(nodes) && s < |nodes|
    ensures r.Some? <==> key in nodes[s].keys
    ensures r.Some? ==> s < r.value < |nodes| && nodes[r.value].data == key && nodes[r.value].father == Some(s)
  {
    assert NodeOk(nodes, s);
    if key in nodes[s].next then Some(nodes[s].next[key]) else None
  }

  /** The node reached from `i` by `k` father links, stopping at a node without a father. */
  function Up(nodes: seq<Node>, i: NodeId, k: nat): (r: NodeId)
    requires WellFormed(nodes) && i < |nodes|
    ensures r <= i
    decreases k
  {
    if k == 0 || nodes[i].father.None? then i
    else assert NodeOk(nodes, i); Up(nodes, nodes[i].father.value, k - 1)
  }

  /** Allocating a node keeps the tree well formed. */
  lemma FreshKeepsWellFormed(nodes: seq<Node>, w: string)
    requires WellFormed(nodes)
    ensures WellFormed(nodes + [Fresh(w)])
  {
    var m := nodes + [Fresh(w)];
    forall i | 0 <= i < |m| ensures NodeOk(m, i) {
      if i < |nodes| {
        assert NodeOk(nodes, i);
      }
    }
  }

  /** Linking the root `o` under `s` (the branch of `__add__` for a key not yet present). */
  function Link(nodes: seq<Node>, s: NodeId, o: NodeId): seq<Node>
    requires s < o < |nodes|
  {
    var key := nodes[o].data;
    var linked := nodes[s := nodes[s].(keys := nodes[s].keys + [key], next := nodes[s].next[key := o])];
    linked[o := linked[o].(father := Some(s))]
  }

  lemma LinkKeepsWellFormed(nodes: seq<Node>, s: NodeId, o: NodeId)
    requires WellFormed(nodes) && s < o < |nodes|
    requires nodes[o].data !in nodes[s].next && nodes[o].father == None
    ensures WellFormed(Link(nodes, s, o))
  {
    var m := Link(nodes, s, o);
    var key := nodes[o].data;
    forall i | 0 <= i < |m| ensures NodeOk(m, i) {
      assert NodeOk(nodes, i);
      if i == s {
        var n := m[s];
        forall a, b | 0 <= a < b < |n.keys| ensures n.keys[a] != n.keys[b] {
          if b == |n.keys| - 1 {
            assert nodes[s].keys[a] in nodes[s].next;
          }
        }
        forall k | k in n.next
          ensures i < n.next[k] < |m| && m[n.next[k]].data == k && m[n.next[k]].father == Some(i)
        {
          if k != key {
            var c := nodes[s].next[k];
            assert NodeOk(nodes, c);
          }
        }
      } else if i == o {
        var n := m[o];
        forall k | k in n.next
          ensures i < n.next[k] < |m| && m[n.next[k]].data == k && m[n.next[k]].father == Some(i)
        {
          assert NodeOk(nodes, nodes[o].next[k]);
        }
      } else {
        var n := m[i];
        if n.father.Some? && n.father.value == s {
          assert n.data in nodes[s].next;
        }
        forall k | k in n.next
          ensures i < n.next[k] < |m| && m[n.next[k]].data == k && m[n.next[k]].father == Some(i)
        {
          assert NodeOk(nodes, nodes[i].next[k]);
        }
      }
    }
  }

  /** Bumping the frequency of one node keeps the tree well formed. */
  lemma BumpKeepsWellFormed(nodes: seq<Node>, c: NodeId)
    requires WellFormed(nodes) && c < |nodes|
    ensures WellFormed(nodes[c := nodes[c].(freq := nodes[c].freq + 1)])
  {
    var m := nodes[c := nodes[c].(freq := nodes[c].freq + 1)];
    forall i | 0 <= i < |m| ensures NodeOk(m, i) {
      assert NodeOk(nodes, i);
    }
  }

  /**
   * `self + other` for a node object `other` (node.py:49-58): when its token is already
   * a key of `s`, the existing child is bumped and `o` is ignored; otherwise `o`
   * itself becomes the child: its father is overwritten and its own frequency, not
   * a reset one, is incremented, and its subtree stays attached.
   */
  function Adopt(nodes: seq<Node>, s: NodeId, o: NodeId): (r: (seq<Node>, NodeId))
    requires WellFormed(nodes) && s < |nodes| && o < |nodes|
    requires nodes[o].data in nodes[s].next || (s < o && nodes[o].father == None)
    ensures WellFormed(r.0) && |r.0| == |nodes| && s < r.1 < |nodes|
    ensures r.1 == if nodes[o].data in nodes[s].next then nodes[s].next[nodes[o].data] else o
    ensures Child(r.0, s, nodes[o].data) == Some(r.1)
    ensures r.0[r.1] == nodes[r.1].(freq := nodes[r.1].freq + 1, father := Some(s))
    ensures r.0[s] == nodes[s].(keys := if nodes[o].data in nodes[s].next then nodes[s].keys else nodes[s].keys + [nodes[o].data],
                                next := nodes[s].next[nodes[o].data := r.1])
    ensures forall j :: 0 <= j < |nodes| && j != s && j != r.1 ==> r.0[j] == nodes[j]
  {
    var key := nodes[o].data;
    assert NodeOk(nodes, s);
    if key in nodes[s].next then
      var c := nodes[s].next[key];
      assert NodeOk(nodes, c);
      BumpKeepsWellFormed(nodes, c);
      (nodes[c := nodes[c].(freq := nodes[c].freq + 1)], c)
    else
      var linked := Link(nodes, s, o);
      LinkKeepsWellFormed(nodes, s, o);
      BumpKeepsWellFormed(linked, o);
      (linked[o := linked[o].(freq := linked[o].freq + 1)], o)
  }

  /**
   * `self + w` for a token `w` (node.py:49-58): the source always allocates `Node(w)`
   * first, so one node is appended whether or not `w` is already a key; that node
   * then goes through the same lookup as a node argument.
   */
  function ExtendToken(nodes: seq<Node>, s: NodeId, w: string): (r: (seq<Node>, NodeId))
    requires WellFormed(nodes) && s < |nodes|
    ensures WellFormed(r.0) && |r.0| == |nodes| + 1 && s < r.1 < |r.0|
    ensures Child(r.0, s, w) == Some(r.1) && r.0[r.1].data == w && r.0[r.1].father == Some(s)
    ensures w !in nodes[s].next ==>
              r.1 == |nodes| && r.0[r.1] == Node(w, 1, Some(s), [], map[])
              && r.0[s] == nodes[s].(keys := nodes[s].keys + [w], next := nodes[s].next[w := r.1])
    ensures w in nodes[s].next ==>
              r.1 == nodes[s].next[w] && r.0[r.1] == nodes[r.1].(freq := nodes[r.1].freq + 1)
              && r.0[s] == nodes[s] && r.0[|nodes|] == Fresh(w)
  {
    FreshKeepsWellFormed(nodes, w);
    assert NodeOk(nodes, s);
    Adopt(nodes + [Fresh(w)], s, |nodes|)
  }

  /**
   * Adding a token changes only `s` and the child it returns, and raises the
   * frequency of that child, and of no other node, by one.
   */
  lemma ExtendTokenFrame(nodes: seq<Node>, s: NodeId, w: string)
    requires WellFormed(nodes) && s < |nodes|
    ensures var r := ExtendToken(nodes, s, w);
            (forall j :: 0 <= j < |nodes| && j != s && j != r.1 ==> r.0[j] == nodes[j])
            && forall j :: 0 <= j < |r.0| ==>
                 r.0[j].freq == (if j < |nodes| then nodes[j].freq else 0) + (if j == r.1 then 1 else 0)
  {
    FreshKeepsWellFormed(nodes, w);
    assert NodeOk(nodes, s);
  }

  /** `node_sum` (node.py:95-101) on a list of tokens: `+` folded from `s`. */
  function Accumulate(nodes: seq<Node>, s: NodeId, vals: seq<string>): (r: (seq<Node>, NodeId))
    requires WellFormed(nodes) && s < |nodes|
    ensures WellFormed(r.0) && |r.0| == |nodes| + |vals| && s <= r.1 < |r.0|
    ensures vals == [] <==> r.1 == s
    decreases |vals|
  {
    if vals == [] then (nodes, s)
    else
      var (m, c) := ExtendToken(nodes, s, vals[0]);
      Accumulate(m, c, vals[1..])
  }

  /** `node_sum` over one more token is `node_sum` followed by one `+`: the fold is a left fold. */
  lemma {:induction false} AccumulateSnoc(nodes: seq<Node>, s: NodeId, vals: seq<string>, w: string)
    requires WellFormed(nodes) && s < |nodes|
    ensures var r := Accumulate(nodes, s, vals);
            Accumulate(nodes, s, vals + [w]) == ExtendToken(r.0, r.1, w)
    decreases |vals|
  {
    if vals == [] {
      assert vals + [w] == [w];
      var e := ExtendToken(nodes, s, w);
      assert Accumulate(nodes, s, [w]) == Accumulate(e.0, e.1, []);
    } else {
      assert (vals + [w])[0] == vals[0] && (vals + [w])[1..] == vals[1..] + [w];
      var e := ExtendToken(nodes, s, vals[0]);
      AccumulateSnoc(e.0, e.1, vals[1..], w);
    }
  }

  /** `node_sum(vals, start_node)`: a missing start node is a new `"<s>"` node. */
  function NodeSumResult(nodes: seq<Node>, vals: seq<string>, start: Option<NodeId>): (r: (seq<Node>, NodeId))
    requires WellFormed(nodes) && (start.Some? ==> start.value < |nodes|)
    ensures WellFormed(r.0) && r.1 < |r.0|
  {
    match start
    case Some(s) => Accumulate(nodes, s, vals)
    case None =>
      FreshKeepsWellFormed(nodes, "<s>");
      Accumulate(nodes + [Fresh("<s>")], |nodes|, vals)
  }

  /** Chained `__getitem__`: the nodes met when following `path` from `s`, if every key exists. */
  function Follow(nodes: seq<Node>, s: NodeId, path: seq<string>): (r: Option<seq<NodeId>>)
    requires WellFormed(nodes) && s < |nodes|
    ensures r.Some? ==> |r.value| == |path|
    ensures r.Some? ==> forall k :: 0 <= k < |r.value| ==> s < r.value[k] < |nodes|
    ensures r.Some? ==> forall a, b :: 0 <= a < b < |r.value| ==> r.value[a] < r.value[b]
    decreases |path|
  {
    if path == [] then Some([])
    else
      match Child(nodes, s, path[0])
      case None => None
      case Some(c) =>
        match Follow(nodes, c, path[1..])
        case None => None
        case Some(rest) => Some([c] + rest)
  }

  /** Depth and root only depend on the father links at and below `i`. */
  lemma {:induction false} FatherFrame(m: seq<Node>, n: seq<Node>, i: NodeId)
    requires WellFormed(m) && WellFormed(n) && i < |m| && i < |n|
    requires forall j :: 0 <= j <= i ==> m[j].father == n[j].father
    ensures Depth(m, i) == Depth(n, i) && Root(m, i) == Root(n, i)
    decreases i
  {
    match m[i].father
    case None =>
    case Some(f) =>
      assert NodeOk(m, i);
      FatherFrame(m, n, f);
  }

  /**
   * `depth` counts the father links from `i` to a node without a father, and `root`
   * is that node: after `Depth(i)` steps up the chain ends, before it it does not.
   */
  lemma {:induction false} DepthCountsFatherLinks(nodes: seq<Node>, i: NodeId)
    requires WellFormed(nodes) && i < |nodes|
    ensures Up(nodes, i, Depth(nodes, i)) == Root(nodes, i)
    ensures forall k :: 0 <= k < Depth(nodes, i) ==> nodes[Up(nodes, i, k)].father.Some?
    decreases i
  {
    match nodes[i].father
    case None =>
    case Some(f) =>
      assert NodeOk(nodes, i);
      DepthCountsFatherLinks(nodes, f);
      forall k | 0 <= k < Depth(nodes, i) ensures nodes[Up(nodes, i, k)].father.Some? {
        if k > 0 {
          assert Up(nodes, i, k) == Up(nodes, f, k - 1);
        }
      }
  }

  /**
   * Adding a token under `s` returns a node one level below `s` in the same tree,
   * and the depth and root of every node that existed before are unchanged.
   */
  lemma ExtendTokenAncestry(nodes: seq<Node>, s: NodeId, w: string)
    requires WellFormed(nodes) && s < |nodes|
    ensures var r := ExtendToken(nodes, s, w);
              Depth(r.0, r.1) == Depth(nodes, s) + 1 && Root(r.0, r.1) == Root(nodes, s)
              && forall j :: 0 <= j < |nodes| ==> Depth(r.0, j) == Depth(nodes, j) && Root(r.0, j) == Root(nodes, j)
  {
    var r := ExtendToken(nodes, s, w);
    ExtendTokenFrame(nodes, s, w);
    assert NodeOk(nodes, s);
    assert forall j :: 0 <= j < |nodes| ==> r.0[j].father == nodes[j].father by {
      forall j | 0 <= j < |nodes| ensures r.0[j].father == nodes[j].father {
        if j == r.1 {
          assert NodeOk(nodes, j);
        }
      }
    }
    forall j | 0 <= j < |nodes|
      ensures Depth(r.0, j) == Depth(nodes, j) && Root(r.0, j) == Root(nodes, j)
    {
      FatherFrame(r.0, nodes, j);
    }
    assert r.0[r.1].father == Some(s);
  }

  /**
   * Adopting the root `o` under `s` moves o's whole tree: every node whose root was
   * `o` ends up `Depth(s) + 1` levels deeper with the root of `s`; every other node
   * keeps its depth and root. When the token is already a key nothing moves.
   */
  lemma {:induction false} AdoptAncestry(nodes: seq<Node>, s: NodeId, o: NodeId, j: NodeId)
    requires WellFormed(nodes) && s < |nodes| && o < |nodes| && j < |nodes|
    requires nodes[o].data in nodes[s].next || (s < o && nodes[o].father == None)
    ensures var r := Adopt(nodes, s, o);
            var moved := nodes[o].data !in nodes[s].next && Root(nodes, j) == o;
            Depth(r.0, j) == Depth(nodes, j) + (if moved then Depth(nodes, s) + 1 else 0)
            && Root(r.0, j) == (if moved then Root(nodes, s) else Root(nodes, j))
    decreases j
  {
    var r := Adopt(nodes, s, o);
    assert NodeOk(nodes, s);
    if nodes[o].data in nodes[s].next {
      var c := r.1;
      assert NodeOk(nodes, c);
      assert forall k :: 0 <= k < |nodes| ==> r.0[k].father == nodes[k].father;
      FatherFrame(r.0, nodes, j);
    } else if j == o {
      assert forall k :: 0 <= k <= s ==> r.0[k].father == nodes[k].father;
      FatherFrame(r.0, nodes, s);
    } else {
      assert r.0[j].father == nodes[j].father;
      match nodes[j].father
      case None =>
      case Some(f) =>
        assert NodeOk(nodes, j);
        AdoptAncestry(nodes, s, o, f);
    }
  }

  /** `n` grew out of `m`: no node was removed, and every token, father link and edge of `m` is still there. */
  ghost predicate Grows(m: seq<Node>, n: seq<Node>) {
    |m| <= |n|
    && (forall j :: 0 <= j < |m| ==> n[j].data == m[j].data && n[j].father == m[j].father)
    && (forall j, k :: 0 <= j < |m| && k in m[j].next ==> k in n[j].next && n[j].next[k] == m[j].next[k])
  }

  lemma GrowsTrans(a: seq<Node>, b: seq<Node>, c: seq<Node>)
    requires Grows(a, b) && Grows(b, c)
    ensures Grows(a, c)
  {
  }

  /** Adding a token only adds: an edge, a node, and frequency. */
  lemma ExtendTokenGrows(nodes: seq<Node>, s: NodeId, w: string)
    requires WellFormed(nodes) && s < |nodes|
    ensures Grows(nodes, ExtendToken(nodes, s, w).0)
  {
    var (m, c) := ExtendToken(nodes, s, w);
    ExtendTokenFrame(nodes, s, w);
    assert NodeOk(nodes, s);
    forall j | 0 <= j < |nodes| ensures m[j].father == nodes[j].father {
      if j == c {
        assert NodeOk(nodes, j);
      }
    }
  }

  /** What `Accumulate` leaves alone: nodes before `s` entirely, and the token, the
   *  father and every existing edge of every node that existed before. */
  lemma {:induction false} AccumulateFrame(nodes: seq<Node>, s: NodeId, vals: seq<string>)
    requires WellFormed(nodes) && s < |nodes|
    ensures var r := Accumulate(nodes, s, vals);
            Grows(nodes, r.0) && forall j :: 0 <= j < s ==> r.0[j] == nodes[j]
    decreases |vals|
  {
    if vals != [] {
      var (m, c) := ExtendToken(nodes, s, vals[0]);
      AccumulateFrame(m, c, vals[1..]);
      ExtendTokenGrows(nodes, s, vals[0]);
      GrowsTrans(nodes, m, Accumulate(m, c, vals[1..]).0);
    }
  }

  /**
   * `node_sum` returns a node `|vals|` levels below `s` in the same tree; nodes that
   * existed before keep their depth and root.
   */
  lemma {:induction false} AccumulateAncestry(nodes: seq<Node>, s: NodeId, vals: seq<string>)
    requires WellFormed(nodes) && s < |nodes|
    ensures var r := Accumulate(nodes, s, vals);
            Depth(r.0, r.1) == Depth(nodes, s) + |vals| && Root(r.0, r.1) == Root(nodes, s)
            && forall j :: 0 <= j < |nodes| ==> Depth(r.0, j) == Depth(nodes, j) && Root(r.0, j) == Root(nodes, j)
    decreases |vals|
  {
    if vals != [] {
      var (m, c) := ExtendToken(nodes, s, vals[0]);
      ExtendTokenAncestry(nodes, s, vals[0]);
      AccumulateAncestry(m, c, vals[1..]);
    }
  }

  /** A child found under `s` is still found there once the tree has grown. */
  lemma GrowsKeepsChild(m: seq<Node>, n: seq<Node>, s: NodeId, key: string)
    requires WellFormed(m) && WellFormed(n) && s < |m| && Grows(m, n)
    requires Child(m, s, key).Some?
    ensures Child(n, s, key) == Child(m, s, key)
  {
    assert NodeOk(m, s);
    assert NodeOk(n, s);
  }

  /** The first step of `node_sum`: the child added under `s` stays `s`'s child while the rest is added below it. */
  lemma AccumulateStep(nodes: seq<Node>, s: NodeId, vals: seq<string>)
    requires WellFormed(nodes) && s < |nodes| && vals != []
    ensures var e := ExtendToken(nodes, s, vals[0]);
            var r := Accumulate(nodes, s, vals);
            r == Accumulate(e.0, e.1, vals[1..]) && Child(r.0, s, vals[0]) == Some(e.1)
  {
    var e := ExtendToken(nodes, s, vals[0]);
    AccumulateFrame(e.0, e.1, vals[1..]);
    GrowsKeepsChild(e.0, Accumulate(e.0, e.1, vals[1..]).0, s, vals[0]);
  }

  /** After `node_sum`, the tokens of `vals` spell a path from `s` that ends at the returned node. */
  lemma {:induction false} AccumulateFollows(nodes: seq<Node>, s: NodeId, vals: seq<string>)
    requires WellFormed(nodes) && s < |nodes|
    ensures var r := Accumulate(nodes, s, vals);
            var p := Follow(r.0, s, vals);
            p.Some? && (vals != [] ==> p.value[|vals| - 1] == r.1)
    decreases |vals|
  {
    if vals != [] {
      var e := ExtendToken(nodes, s, vals[0]);
      AccumulateStep(nodes, s, vals);
      AccumulateFollows(e.0, e.1, vals[1..]);
      var r := Accumulate(nodes, s, vals);
      assert Follow(r.0, s, vals) == Some([e.1] + Follow(r.0, e.1, vals[1..]).value);
    }
  }

  /**
   * After `node_sum`, the frequency of node `j` went up by exactly one if it lies on
   * the path the tokens spell from `s` and stayed the same otherwise (nodes
   * allocated by the call count from 0).
   */
  lemma {:induction false} AccumulateFreq(nodes: seq<Node>, s: NodeId, vals: seq<string>, j: NodeId)
    requires WellFormed(nodes) && s < |nodes| && j < |nodes| + |vals|
    ensures var r := Accumulate(nodes, s, vals);
            var p := Follow(r.0, s, vals);
            p.Some? && r.0[j].freq == (if j < |nodes| then nodes[j].freq else 0) + (if j in p.value then 1 else 0)
    decreases |vals|
  {
    AccumulateFollows(nodes, s, vals);
    if vals != [] {
      var e := ExtendToken(nodes, s, vals[0]);
      AccumulateStep(nodes, s, vals);
      AccumulateFreq(e.0, e.1, vals[1..], j);
      ExtendTokenFrame(nodes, s, vals[0]);
      var r := Accumulate(nodes, s, vals);
      var q := Follow(r.0, e.1, vals[1..]).value;
      assert Follow(r.0, s, vals).value == [e.1] + q;
      assert j in q ==> j != e.1;
    }
  }

  /** `node_sum` in full: the tokens spell a path ending at the result, and exactly the nodes on it gained one. */
  lemma AccumulatePath(nodes: seq<Node>, s: NodeId, vals: seq<string>)
    requires WellFormed(nodes) && s < |nodes|
    ensures var r := Accumulate(nodes, s, vals);
            var p := Follow(r.0, s, vals);
            p.Some? && (vals != [] ==> p.value[|vals| - 1] == r.1)
            && forall j :: 0 <= j < |r.0| ==>
                 r.0[j].freq == (if j < |nodes| then nodes[j].freq else 0) + (if j in p.value then 1 else 0)
  {
    AccumulateFollows(nodes, s, vals);
    forall j | 0 <= j < |nodes| + |vals|
      ensures Accumulate(nodes, s, vals).0[j].freq
              == (if j < |nodes| then nodes[j].freq else 0) + (if j in Follow(Accumulate(nodes, s, vals).0, s, vals).value then 1 else 0)
    {
      AccumulateFreq(nodes, s, vals, j);
    }
  }

  /** Paths that exist stay where they are when a tree only gains edges. */
  lemma {:induction false} FollowStable(m: seq<Node>, n: seq<Node>, s: NodeId, path: seq<string>)
    requires WellFormed(m) && WellFormed(n) && s < |m| && Grows(m, n)
    requires Follow(m, s, path).Some?
    ensures Follow(n, s, path) == Follow(m, s, path)
    decreases |path|
  {
    if path != [] {
      assert NodeOk(m, s);
      var c := Child(m, s, path[0]).value;
      FollowStable(m, n, c, path[1..]);
    }
  }

  /** A path's prefix leads through the path's first nodes. */
  lemma {:induction false} FollowPrefix(nodes: seq<Node>, s: NodeId, path: seq<string>, k: nat)
    requires WellFormed(nodes) && s < |nodes| && k <= |path|
    requires Follow(nodes, s, path).Some?
    ensures Follow(nodes, s, path[..k]) == Some(Follow(nodes, s, path).value[..k])
    decreases k
  {
    if k > 0 {
      var c := Child(nodes, s, path[0]).value;
      var rest := Follow(nodes, c, path[1..]).value;
      assert path[..k][0] == path[0] && path[..k][1..] == path[1..][..k - 1];
      FollowPrefix(nodes, c, path[1..], k - 1);
      assert Follow(nodes, s, path).value[..k] == [c] + rest[..k - 1];
    }
  }

  /**
   * Inserting the tokens `x, y, z` and then `x, y` from a fresh start node: the
   * nodes under `x` and `x, y` are traversed twice, the node under `x, y, z` once,
   * and six ids have been handed out (one per token added, even when the token was
   * already a key). The tokens need not be distinct.
   */
  lemma RepeatedInsertion(start: string, x: string, y: string, z: string)
    ensures var g0 := [Fresh(start)];
            var (g1, _) := Accumulate(g0, 0, [x, y, z]);
            var (g2, _) := Accumulate(g1, 0, [x, y]);
            var p := Follow(g2, 0, [x, y, z]);
            p.Some? && g2[p.value[0]].freq == 2 && g2[p.value[1]].freq == 2 && g2[p.value[2]].freq == 1 && |g2| == 6
  {
    var g0 := [Fresh(start)];
    assert NodeOk(g0, 0);
    var (g1, _) := Accumulate(g0, 0, [x, y, z]);
    var (g2, _) := Accumulate(g1, 0, [x, y]);
    AccumulatePath(g0, 0, [x, y, z]);
    var p1 := Follow(g1, 0, [x, y, z]).value;
    AccumulatePath(g1, 0, [x, y]);
    AccumulateFrame(g1, 0, [x, y]);
    FollowStable(g1, g2, 0, [x, y, z]);
    FollowPrefix(g1, 0, [x, y, z], 2);
    assert [x, y, z][..2] == [x, y];
    FollowStable(g1, g2, 0, [x, y]);
    var p2 := Follow(g2, 0, [x, y]).value;
    assert p2 == p1[..2];
    assert p1[2] !in p2;
  }
}
