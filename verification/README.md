# A verified model of the frequency-weighted prefix tree of `node.py`

`node.py` builds a prefix tree (trie) of word sequences. Each `Node` holds:

- a token `data`;
- a traversal count `freq`;
- a back-pointer `father`;
- an insertion-ordered dictionary `next` from token to child;
- an id taken from the class-level counter `Node.node_id`.

`node + token` finds or creates the child for a token, counts the traversal and returns the child, so sums chain. `node_sum` folds `+` over a list of tokens. `node_sum_sent` tokenizes a sentence, filters and lemmatizes the words and hands them to `node_sum`. `_print` / `print` render a subtree as Mermaid edge lines `N<id>[<data>] --<freq>--> N<id>[<data>]`, cut off by a minimum frequency and a depth budget.

The model is written in Dafny and split into five modules:

- `Wrappers`: `Option` and `Result`.
- `Trie`: the tree itself, and what `+` and `node_sum` do to it, as functions on an arena.
  - The Python heap of `Node` objects is a `seq<Node>`, and a node's id is its index in it.
  - `father` and `next` hold indices.
  - `next` is a `map` plus the key sequence `keys`, which records the dictionary's insertion order.
  - `WellFormed` is the invariant every reachable state keeps:
    - a father was allocated before its children and lists each of them under its token;
    - keys are distinct and are exactly the keys of `next`;
    - every child carries its key as its token and points back to its father.
- `Mermaid`: what `_print` lists, as a sequence of edges (`Edges`, `ChildEdges`, `Block`, mutually recursive like the source), and how those edges become text (`Label`, `Line`, `Render`, `Document`).
- `Words`: the token pipeline of `node_sum_sent`:
  - `filter_words`;
  - the normalisation `word.lower().strip()`;
  - the lemmatizer wrapper;
  - the list comprehension.
- `NodeGraph`: the imperative side.
  - The class `Graph` owns the arena `nodes` and the counter `nodeId`, so the counter is held by an explicit context.
  - Its methods are `__init__`, `__add__`, `node_sum`, `node_sum_sent`, `_print` and `print`, written with fields updated in place and loops with invariants.
  - Each method is proved against the `Trie`, `Mermaid` or `Words` function that specifies it.

In four places `node.py` behaves differently from what one would expect of a prefix tree; the model follows `node.py`:

- **Adding a token always allocates a node.** `node + "w"` allocates `Node("w")` before looking the key up (node.py:50-51). When `"w"` is already a key, that node is left unattached and the counter has still advanced. One would expect a node to be created only when a new child is needed. `ExtendToken` appends the node in both cases.
- **An adopted node keeps its frequency.** When it adopts a node object, `__add__` keeps that node's `freq` and increments it (node.py:54-57). One would expect the adopted node's count to restart with this traversal.
- **The depth cutoff is not "levels below".** `_print` compares the child's absolute depth with a budget that also shrinks by one per level (node.py:72-73). So the cutoff is `2 * depth(y) < max_depth + depth(start) + 1`, which `WithinCutoff` states, and not "`max_depth` levels below the start node".
- **The filter and the lemmatizer see different strings.** `filter_words` tests the normalised word, but the transformer receives the word as tokenized (node.py:130-132). The transformer normalises it again itself (`WordTransformerNormalizes`).

## Model

| member | source | states |
|---|---|---|
| Trie.Root | node.py:26-31 | `root` is a node without a father whose id is at most `i`; a node without a father is its own root (that it is reached by father links is `Trie.DepthCountsFatherLinks`) |
| Trie.Child | node.py:46-47 | `__getitem__` finds a child exactly for the keys of the node (None where Python raises KeyError); the child has a larger id, carries the key as its token and has the node as father |
| Trie.Up | node.py:26-38 | climbing `k` father links never reaches a node allocated later |
| Trie.FreshKeepsWellFormed | node.py:18-24 | allocating a fresh node (no father, no children) keeps the tree invariant |
| Trie.LinkKeepsWellFormed | node.py:54-56 | linking a fatherless, later-allocated node under `s`, when its token is not yet a key of `s`, keeps the invariant: keys stay distinct and agree with `next`, and the father link points back |
| Trie.BumpKeepsWellFormed | node.py:57 | incrementing one node's frequency keeps the invariant |
| Trie.Adopt | node.py:49-58 | `self + node`: the result is the existing child under the node's token if there is one, else the node itself; `Child(s, token)` then returns it; its frequency is one more than before and its father is `s`; `s` gains the key only if it was new; every other node is unchanged; the invariant and the number of nodes are kept |
| Trie.ExtendToken | node.py:49-58 | `self + w`: exactly one node is allocated; a new key gets a child with frequency 1, father `s` and no children, appended to `s`'s keys; an existing key bumps the existing child by one, leaves `s` unchanged and leaves the allocated node a fresh orphan; `Child(s, w)` returns the result |
| Trie.ExtendTokenFrame | node.py:54-58 | adding a token changes no node except `s` and the returned child, and raises the frequency of exactly that child by one |
| Trie.Accumulate | node.py:95-101 | `node_sum` keeps the invariant, allocates one node per token, and returns the start node exactly when the token list is empty |
| Trie.NodeSumResult | node.py:95-101 | `node_sum` with or without a start node keeps the invariant and returns an existing node |
| Trie.Follow | node.py:46-47 | following a path of keys with `__getitem__` meets one node per key, each allocated after the one before |
| Trie.FatherFrame | node.py:26-38 | `depth` and `root` of `i` depend only on the father links of nodes up to `i` |
| Trie.DepthCountsFatherLinks | node.py:26-38 | `depth(i)` is the number of father links from `i` up to a node without a father, and `root(i)` is that node (tests/test_node.py:26-39) |
| Trie.ExtendTokenAncestry | node.py:33-38 | the child returned by `s + w` has depth `depth(s) + 1` and the root of `s`; no existing node changes depth or root |
| Trie.AdoptAncestry | node.py:54-58 | adopting the root `o` moves its whole tree `depth(s) + 1` levels down under the root of `s`; every other node, and every node when the key already existed, keeps depth and root |
| Trie.ExtendTokenGrows | node.py:54-58 | adding a token removes nothing: every node keeps its token, father link and edges |
| Trie.AccumulateFrame | node.py:95-101 | `node_sum` removes nothing and leaves every node allocated before the start node untouched |
| Trie.AccumulateAncestry | node.py:95-101 | the node `node_sum` returns has depth `depth(start) + len(vals)` and the start's root; existing nodes keep depth and root (tests/test_node.py:33-39) |
| Trie.AccumulateSnoc | node.py:99-100 | `node_sum` over one more token is `node_sum` followed by one `+`: the loop is a left fold |
| Trie.AccumulateStep | node.py:99-100 | `node_sum` is the first `+` followed by `node_sum` of the rest from its result, and the first child is still the start's child under the first token afterwards |
| Trie.AccumulateFollows | node.py:95-101 | after `node_sum` the tokens spell a path from the start node that ends at the returned node (tests/test_node.py:61-67) |
| Trie.AccumulateFreq | node.py:95-101 | after `node_sum`, node `j` gained exactly one traversal if it lies on the spelled path and none otherwise |
| Trie.AccumulatePath | node.py:95-101 | `node_sum` in full: the path exists and ends at the result, and exactly the nodes on it gained one in frequency (tests/test_node.py:61-67) |
| Trie.FollowStable | node.py:46-47 | a path that exists leads to the same nodes once the tree has only grown |
| Trie.FollowPrefix | node.py:46-47 | the prefix of a path leads through the path's first nodes |
| Trie.RepeatedInsertion | node.py:95-101 | inserting `x y z`, then `x y`, from a fresh node counts 2, 2 and 1 along the path and hands out six ids, orphans included: a repeated prefix, the multi-token counterpart of the single re-added token of tests/test_node.py:21-23 |
| Mermaid.Edges | node.py:66-74 | every listed edge runs from an id at or after the start node's to a larger id (that it joins a parent to its child below the start node is `Mermaid.EdgesSound`) |
| Mermaid.ChildEdges | node.py:68-74 | every edge listed for the first `k` keys runs from an id at or after the start node's to a larger id (the tree facts are `Mermaid.ChildEdgesSound`) |
| Mermaid.Block | node.py:69-73 | every edge one loop pass lists runs from an id at or after the start node's to a larger id |
| Mermaid.QualifiedDepth | node.py:33-38 | a node reached downwards from `i` has a larger id and a larger depth |
| Mermaid.ChildEdgesSound | node.py:68-74 | every edge listed for the first `k` keys joins a node and its child, carries the child's frequency, reaches it through nodes passing `min_freq`, and starts at the start node or within the depth cutoff |
| Mermaid.EdgesSound | node.py:66-74 | the same for the whole of `_print`: a child below `min_freq` hides its subtree, and nothing beyond the cutoff is listed |
| Mermaid.EdgesComplete | node.py:66-74 | every node reached through nodes passing `min_freq`, whose parent is the start node or within the cutoff, has its edge listed |
| Mermaid.EdgesDistinct | node.py:66-74 | `_print` lists every node at most once: no two of its edges lead to the same child, so each (parent, child) pair has one line; with `Mermaid.LinesDistinct` no line is repeated |
| Mermaid.BlockTopLevel | node.py:69-71 | of one block, only the child's own edge leaves the start node, and only if the child passes `min_freq` |
| Mermaid.OutgoingStep | node.py:68-71 | each further key adds to the start node's own lines just its child's edge when the child passes `min_freq` |
| Mermaid.ChildEdgesTopLevel | node.py:68-74 | the lines for the start node itself are one per child passing `min_freq`, in insertion order, for the first `k` keys, whatever the budget |
| Mermaid.EdgesTopLevel | node.py:66-74 | `_print` emits for the start node exactly one line per child with `freq >= min_freq`, in the insertion order of `next` |
| Mermaid.NatStr | node.py:41 | the f-string text of an id or frequency is a non-empty string of decimal digits |
| Mermaid.NatStrRoundTrip | node.py:41 | that text reads back as the number it was made from |
| Mermaid.LabelShowsId | node.py:40-41 | `str(node)` shows the node's id between `N` and `[` (tests/test_node.py:42-44) |
| Mermaid.LabelsDistinct | node.py:40-41 | distinct nodes never get the same label, so the diagram's node names are unambiguous |
| Mermaid.LineRoundTrip | node.py:71 | an edge line `N<id>[<data>] --<freq>--> N<id>[<data>]` reads back to its edge: parent id, frequency and child id |
| Mermaid.ParseLineOnlyLines | node.py:71 | the converse: a text that reads back to an edge is exactly that edge's line |
| Mermaid.LinesDistinct | node.py:71 | distinct edges are written as distinct lines |
| Mermaid.RenderConcat | node.py:73 | extending the edge list extends the lines the same way, as `ans.extend` does |
| Mermaid.DocumentShape | node.py:88-92 | `print` returns the header "```mermaid", "graph LR", then each line followed by a newline, then the closing fence (tests/test_node.py:54-58) |
| Words.FilterWordsMeaning | node.py:104-112 | a token is kept exactly when it has more than two characters, all letters, and is neither a stop word nor abandoned; the emptiness and punctuation tests never decide alone |
| Words.FilterWordsExamples | tests/test_node.py:70-75 | "hello" is kept; "a", "!" and an abandoned word are not |
| Words.Lower | node.py:121 | `lower()` keeps the length and lower-cases each character in place |
| Words.LowerHasNoUpper | node.py:121 | a lower-cased word has no upper-case letter |
| Words.LowerOfLowered | node.py:121 | lower-casing a word without upper-case letters changes nothing |
| Words.StripStable | node.py:121 | `strip()` leaves a word that neither starts nor ends with white space alone |
| Words.NormalizedHasNoUpper | node.py:121 | `word.lower().strip()` has no upper-case letter |
| Words.NormalizedIsStripped | node.py:121 | `word.lower().strip()` neither starts nor ends with white space |
| Words.NormalizeIdempotent | node.py:121 | normalising twice is normalising once |
| Words.WordTransformerNormalizes | node.py:118-121 | the transformer gives a word and its normalised form the same result, so passing the raw word (node.py:130-132) changes nothing |
| Words.SentenceTokens | node.py:128-133 | the comprehension keeps at most one token per tokenized word (which tokens, and in what order, are `Words.SentenceTokensMember` and `Words.SentenceTokensConcat`) |
| Words.SentenceTokensConcat | node.py:128-133 | the comprehension keeps order: the tokens of two runs of words are those of the first run followed by those of the second, for any transformer |
| Words.SentenceTokensMember | node.py:128-133 | a token is handed to `node_sum` exactly when some tokenized word's normalised form passes `filter_words` and the transformer turns that word into the token |
| Words.SentenceTokensFiltered | node.py:128-133 | with a lemmatizer that returns its (normalised) input, every token handed to `node_sum` passes `filter_words` |
| Words.SentenceTokensAllKept | node.py:128-133 | when every word passes the filter, the tokens are the transformed words, one per word and in order |
| Words.LowerOfAlpha | node.py:111 | lower-casing an alphabetic word keeps it alphabetic |
| Words.AlphaWordKept | node.py:128-133 | an alphabetic word of more than two letters whose lower-case form is neither stop word nor abandoned normalises to that form and is kept (tests/test_node.py:78-87) |
| NodeGraph.SumIsNodeSum | node.py:60-64 | through `__radd__`, Python's `sum` over a node and tokens from the default start 0 is `node_sum(tokens, node)`; any other start is a type error that changes nothing |
| NodeGraph.Graph.constructor | node.py:16 | the graph starts with no nodes and the counter at 0 |
| NodeGraph.Graph.NewNode | node.py:18-24 | a new node has the counter's value as id, the given token, frequency 0, no father and no children; the counter goes up by one and nothing else changes (tests/test_node.py:5-10) |
| NodeGraph.Graph.Add | node.py:49-58 | `+` with a token is `ExtendToken`, with a node object is `Adopt`, and with anything else is a type error that changes nothing; the invariant is kept |
| NodeGraph.Graph.Attach | node.py:54-58 | the lookup, link and increment shared by both kinds of operand compute exactly `Adopt` |
| NodeGraph.Graph.NodeSum | node.py:95-101 | the loop of `node_sum` computes `Accumulate` from the start node, or from a new `"<s>"` node when there is none |
| NodeGraph.Graph.NodeSumSent | node.py:124-135 | `node_sum_sent` is `node_sum` over the filtered, transformed tokens of the sentence |
| NodeGraph.Graph.PrintLines | node.py:66-74 | the loop of `_print` produces the rendered `Edges` of the start node |
| NodeGraph.Graph.PrintBlock | node.py:69-73 | one pass of that loop produces the rendered block of its child |
| NodeGraph.Graph.Print | node.py:76-92 | `print` is the Mermaid document of `_print`'s lines, with `max_depth == -1` meaning no limit; it changes no node |
| NodeGraph.AdditionScenario | tests/test_node.py:13-23 | a new child has frequency 1, adding the same token again returns the same child with frequency 2 |

## Left out

- Trie.Adopt: adding a node object is modelled only when its token is already a key of `s`, or when it has no father and was allocated after `s`. The reason is the arena's id order: every father has a smaller id than its children, which is what makes `depth`, `root` and `_print` recursions on ids. The other cases do the following in Python:
  - A fatherless node allocated before `s` and outside `s`'s tree (`a = Node("a"); s = Node("<s>"); s + a`) is adopted without a cycle or sharing. It is left out only because its id is smaller than its new father's.
  - Adopting the root of `s`'s own tree, or `s` itself, makes the father links a cycle; `root` and `depth` then recurse forever.
  - A node that already has a father becomes a shared child: its old father's `next` still lists it, `_print` lists its subtree under both fathers, and `root` and `depth` follow the new father (and terminate unless `s` lies in the adopted subtree).
- NodeGraph.Graph.Add: node operands are restricted as for `Trie.Adopt`, for the same reason.
- NodeGraph.Graph.NodeSum: `vals` holds tokens only. A list holding node objects is not modelled: `node_sum([Node("a")])` creates `"<s>"` after `"a"` (node.py:96-97), which is the older-node adoption left out at `Trie.Adopt`.
- Words.SentenceTokensFiltered: the property is proved only for a lemmatizer that returns its (already normalised) input. A real lemmatizer may map a kept word to one the filter would reject.
- Tokenizer, lemmatizer and stop words:
  - `word_tokenize` and the WordNet lemmatizer are function parameters;
  - the NLTK English stop-word list is a set parameter;
  - `lru_cache` is left out because it changes no result.
- `str.isalpha`, `str.lower` and `str.strip` are modelled on ASCII letters and ASCII white space, not on Unicode.
- The model works on the integer budgets `print` can receive and on `float("inf")`. A non-integral float `max_depth` is not modelled.
- Python default arguments (`min_freq=1`, `max_depth=-1`, `start_node=None`, `abandoned_words=None`) are explicit parameters, and `None` is `Option.None`.
- `__repr__` (node.py:43-44) is debug text and is not modelled.
- The `__main__` demo (node.py:138-150) is not modelled.
- scrapper.py, classifier.py and main.py are not part of this model. They are network, file and plotting code.
- The test with literal "Hello world" tokens is covered by the general `Words.AlphaWordKept` and `Words.SentenceTokensAllKept` rather than by the concrete strings.
