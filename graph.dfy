/** An acyclic graph of audio devices sharing one bus of samples: every node
    owns a contiguous range of the bus for its outputs, each input reads one
    bus index or nothing, and the nodes are ticked in a topological order
    found by Kahn's algorithm. */
module Graph {
  import opened Types
  import opened Device
  import opened Queues

  datatype GraphError = SrcOutOfRange | SrcChOutOfRange | DestOutOfRange | DestChOutOfRange | CreatesCycle

  /** A node: its device's model, the bus index each input reads (`None`
      when unconnected), and its output range `start .. end` of the bus.
      The devices' call histories are kept beside the nodes, in the graph. */
  datatype Node = Node(model: Model, inputs: seq<Option<nat>>, start: nat, end: nat)

  /** Bus index `b` is one of the node's outputs. */
  predicate InSpan(n: Node, b: nat)
  {
    n.start <= b < n.end
  }

  /** The output ranges tile the bus `0 .. busLen` in node order, each as
      wide as its device's output count. */
  ghost predicate Tiled(nodes: seq<Node>, busLen: nat)
    decreases |nodes|
  {
    if nodes == [] then busLen == 0
    else
      var last := nodes[|nodes| - 1];
      && last.end == busLen && last.start + last.model.numOutputs == last.end
      && Tiled(nodes[..|nodes| - 1], last.start)
  }

  /** Every connected input reads an index of the bus. */
  ghost predicate InputsInBus(nodes: seq<Node>, busLen: nat)
  {
    forall j, b: nat :: 0 <= j < |nodes| && Some(b) in nodes[j].inputs ==> b < busLen
  }

  /** Each range lies inside the bus, below the ranges of later nodes. */
  lemma {:induction false} SpansOrdered(nodes: seq<Node>, busLen: nat, a: nat)
    requires Tiled(nodes, busLen) && a < |nodes|
    ensures nodes[a].start <= nodes[a].end <= busLen
    ensures nodes[a].end - nodes[a].start == nodes[a].model.numOutputs
    ensures forall c :: a < c < |nodes| ==> nodes[a].end <= nodes[c].start
    decreases |nodes|
  {
    var m := |nodes| - 1;
    if a < m {
      SpansOrdered(nodes[..m], nodes[m].start, a);
    }
  }

  /** No bus index belongs to two nodes. */
  lemma SpanOwner(nodes: seq<Node>, busLen: nat, a: nat, c: nat, b: nat)
    requires Tiled(nodes, busLen) && a < |nodes| && c < |nodes|
    requires InSpan(nodes[a], b) && InSpan(nodes[c], b)
    ensures a == c
  {
    if a < c {
      SpansOrdered(nodes, busLen, a);
    } else if c < a {
      SpansOrdered(nodes, busLen, c);
    }
  }

  /** Every bus index belongs to some node. */
  lemma {:induction false} OwnerExists(nodes: seq<Node>, busLen: nat, b: nat) returns (o: nat)
    requires Tiled(nodes, busLen) && b < busLen
    ensures o < |nodes| && InSpan(nodes[o], b)
    decreases |nodes|
  {
    var m := |nodes| - 1;
    if b >= nodes[m].start {
      o := m;
    } else {
      o := OwnerExists(nodes[..m], nodes[m].start, b);
    }
  }

  /** The bus indices of the connected inputs, in slot order
      (`filter_map` over the input slots). */
  function Connected(inputs: seq<Option<nat>>): (r: seq<nat>)
    ensures forall b :: multiset(r)[b] == multiset(inputs)[Some(b)]
    ensures forall b :: b in r <==> Some(b) in inputs
  {
    if inputs == [] then []
    else
      var n := |inputs| - 1;
      assert inputs == inputs[..n] + [inputs[n]];
      Connected(inputs[..n]) + match inputs[n] case Some(b) => [b] case None => []
  }

  /** `edges` holds the edges of every node as multisets of bus indices:
      the algorithm only asks whether a node's list holds a given index and
      whether it is empty, so the order within a list plays no part. */
  ghost predicate EdgesOf(nodes: seq<Node>, edges: seq<multiset<nat>>)
  {
    && |edges| == |nodes|
    && forall j, b: nat :: 0 <= j < |nodes| ==> edges[j][b] == multiset(nodes[j].inputs)[Some(b)]
  }

  /** The edge lists of all nodes, each the node's connected inputs. */
  method CollectEdges(nodes: seq<Node>) returns (edges: seq<multiset<nat>>)
    ensures EdgesOf(nodes, edges)
  {
    edges := [];
    for j := 0 to |nodes|
      invariant |edges| == j
      invariant forall j', b: nat :: 0 <= j' < j ==> edges[j'][b] == multiset(nodes[j'].inputs)[Some(b)]
    {
      edges := edges + [multiset(Connected(nodes[j].inputs))];
    }
  }

  /** The nodes among the first `n` with no edge, in index order: the
      initial queue. */
  function Sources(ins: seq<multiset<nat>>, n: nat): (r: seq<nat>)
    requires n <= |ins|
    ensures Distinct(r)
    ensures forall x :: x in r <==> 0 <= x < n && ins[x] == multiset{}
  {
    if n == 0 then []
    else
      var r := Sources(ins, n - 1);
      if ins[n - 1] == multiset{} then AddDistinct(r, n - 1); r + [n - 1] else r
  }

  /** A sequence without repeats of numbers below `n` has at most `n`
      elements, and holds every number below `n` when it has exactly `n`. */
  lemma {:induction false} DistinctBound(s: seq<nat>, n: nat)
    requires Distinct(s) && forall x :: x in s ==> x < n
    ensures |s| <= n
    ensures |s| == n ==> forall x :: 0 <= x < n ==> x in s
    decreases n
  {
    if s != [] {
      assert s[0] in s;
      var r := Remove(s, n - 1);
      RemoveMembers(s, n - 1);
      assert forall x :: x in r ==> x < n - 1;
      DistinctBound(r, n - 1);
    }
  }

  /** A sequence without repeats that holds every number below `n`, and
      nothing else, has exactly `n` elements. */
  lemma {:induction false} Covers(s: seq<nat>, n: nat)
    requires Distinct(s) && (forall x :: x in s ==> x < n) && (forall x :: 0 <= x < n ==> x in s)
    ensures |s| == n
    decreases n
  {
    DistinctBound(s, n);
    if n > 0 {
      var r := Remove(s, n - 1);
      RemoveMembers(s, n - 1);
      assert forall x :: x in r ==> x < n - 1;
      assert forall x :: 0 <= x < n - 1 ==> x in r;
      Covers(r, n - 1);
    }
  }

  /** A descending chain of ranks inside a set ends: a set of nodes each of
      which has a member of lower rank is empty. */
  lemma {:induction false} NoDescent(stuck: set<nat>, rank: seq<nat>, j: nat)
    requires forall x :: x in stuck ==> x < |rank|
    requires forall x :: x in stuck ==> exists y :: y in stuck && rank[y] < rank[x]
    ensures j !in stuck
    decreases if j < |rank| then rank[j] else 0
  {
    if j in stuck {
      var y :| y in stuck && rank[y] < rank[j];
      NoDescent(stuck, rank, y);
    }
  }

  /** A ranking under which every node reads only nodes of lower rank: a
      witness that the wiring has no cycle. */
  ghost predicate Ranked(nodes: seq<Node>, rank: seq<nat>)
  {
    && |rank| == |nodes|
    && forall j, o, b :: 0 <= j < |nodes| && 0 <= o < |nodes| && Some(b) in nodes[j].inputs && InSpan(nodes[o], b) ==>
         rank[o] < rank[j]
  }

  /** In `order`, every node comes after each node whose outputs it reads;
      in particular no node in it reads its own outputs. */
  ghost predicate SourcesFirst(nodes: seq<Node>, order: seq<nat>)
  {
    forall p, q, b ::
      && 0 <= p < |order| && 0 <= q < |order| && order[p] < |nodes| && order[q] < |nodes|
      && Some(b) in nodes[order[p]].inputs && InSpan(nodes[order[q]], b)
      ==> q < p
  }

  // The state of Kahn's algorithm: `ins` holds the edges still to be removed
  // from each node, `queue` the nodes whose edges are all gone but which are
  // not yet placed, `order` the nodes placed so far. The ghost map `who`
  // sends every bus index already swept to the position of its node in
  // `order`.

  /** Placed and queued nodes: no repeats, and exactly the nodes with no
      edge left. */
  ghost predicate Bookkeeping(n: nat, ins: seq<multiset<nat>>, queue: seq<nat>, order: seq<nat>)
  {
    && |ins| == n && Distinct(order + queue)
    && (forall x :: x in order + queue ==> x < n)
    && forall j :: 0 <= j < n ==> (ins[j] == multiset{} <==> j in order + queue)
  }

  /** Edges are only ever removed, and only for swept bus indices. */
  ghost predicate Removed(orig: seq<multiset<nat>>, ins: seq<multiset<nat>>, who: map<nat, nat>)
    requires |ins| == |orig|
  {
    forall j, b: nat {:trigger ins[j][b]} :: 0 <= j < |ins| ==> ins[j][b] <= orig[j][b] && (ins[j][b] < orig[j][b] ==> b in who)
  }

  /** A swept bus index belongs to the node at its recorded position. */
  ghost predicate Owners(nodes: seq<Node>, order: seq<nat>, who: map<nat, nat>)
  {
    forall b :: b in who ==> who[b] < |order| && order[who[b]] < |nodes| && InSpan(nodes[order[who[b]]], b)
  }

  /** Each placed node's inputs were all swept before it was placed. */
  ghost predicate ReadsBefore(orig: seq<multiset<nat>>, order: seq<nat>, who: map<nat, nat>)
  {
    forall p, b: nat {:trigger orig[order[p]][b]} :: 0 <= p < |order| && order[p] < |orig| && orig[order[p]][b] > 0 ==>
      b in who && who[b] < p
  }

  /** The first `m` placed nodes have had all their outputs swept. */
  ghost predicate Finished(nodes: seq<Node>, order: seq<nat>, who: map<nat, nat>, m: nat)
  {
    forall q, b: nat {:trigger InSpan(nodes[order[q]], b)} ::
      0 <= q < m && q < |order| && order[q] < |nodes| && InSpan(nodes[order[q]], b) ==> b in who
  }

  /** Every copy of every swept bus index is gone (the corrected sweep). */
  ghost predicate Clean(ins: seq<multiset<nat>>, who: map<nat, nat>)
  {
    forall j, b: nat {:trigger ins[j][b]} :: 0 <= j < |ins| && b in who ==> ins[j][b] == 0
  }

  /** At most one copy of each swept bus index is gone (the sweep as
      written). */
  ghost predicate Counted(orig: seq<multiset<nat>>, ins: seq<multiset<nat>>, who: map<nat, nat>)
    requires |ins| == |orig|
  {
    forall j, b: nat {:trigger ins[j][b]} :: 0 <= j < |ins| ==> ins[j][b] + (if b in who then 1 else 0) >= orig[j][b]
  }

  /** Every copy of every swept bus index is gone (the corrected sweep),
      except `out` in the nodes from `j` on. */
  ghost predicate CleanBut(ins: seq<multiset<nat>>, who: map<nat, nat>, out: nat, j: nat)
  {
    forall j', b: nat {:trigger ins[j'][b]} :: 0 <= j' < |ins| && b in who && (b != out || j' < j) ==> ins[j'][b] == 0
  }

  /** At most one copy of each swept bus index is gone (the sweep as
      written), and none of `out` in the nodes from `j` on. */
  ghost predicate CountedBut(orig: seq<multiset<nat>>, ins: seq<multiset<nat>>, who: map<nat, nat>, out: nat, j: nat)
    requires |ins| == |orig|
  {
    forall j', b: nat {:trigger ins[j'][b]} :: 0 <= j' < |ins| ==>
      ins[j'][b] + (if b in who && (b != out || j' < j) then 1 else 0) >= orig[j'][b]
  }

  /** The sweep of one output `out` over every node's edges. As written, one
      copy of `out` is removed from each node that holds it (the search for
      its first position, then `swap_remove`); with `everyCopy`, every copy
      is. A node whose last edge goes is queued. */
  method SweepOutput(n: nat, ghost orig: seq<multiset<nat>>, ins: seq<multiset<nat>>, queue: seq<nat>,
                     ghost order: seq<nat>, ghost who: map<nat, nat>, out: nat, everyCopy: bool)
    returns (ins': seq<multiset<nat>>, queue': seq<nat>)
    requires |orig| == n && Bookkeeping(n, ins, queue, order) && Removed(orig, ins, who) && out in who
    requires everyCopy ==> CleanBut(ins, who, out, 0)
    requires !everyCopy ==> CountedBut(orig, ins, who, out, 0)
    ensures Bookkeeping(n, ins', queue', order) && Removed(orig, ins', who)
    ensures |queue'| >= |queue| && queue'[..|queue|] == queue
    ensures everyCopy ==> CleanBut(ins', who, out, n)
    ensures !everyCopy ==> CountedBut(orig, ins', who, out, n)
  {
    ins', queue' := ins, queue;
    for j := 0 to n
      invariant Bookkeeping(n, ins', queue', order) && Removed(orig, ins', who)
      invariant |queue'| >= |queue| && queue'[..|queue|] == queue
      invariant everyCopy ==> CleanBut(ins', who, out, j)
      invariant !everyCopy ==> CountedBut(orig, ins', who, out, j)
    {
      ghost var q := queue';
      ins', queue' := Unlink(n, orig, ins', queue', order, who, out, j, everyCopy);
      assert queue'[..|queue|] == q[..|queue|];
    }
  }

  /** The sweep of `out` over node `j`: its edges from `out` go (one of them
      as written, all of them with `everyCopy`), and the node is queued if
      that was its last edge. */
  method Unlink(n: nat, ghost orig: seq<multiset<nat>>, ins: seq<multiset<nat>>, queue: seq<nat>,
                ghost order: seq<nat>, ghost who: map<nat, nat>, out: nat, j: nat, everyCopy: bool)
    returns (ins': seq<multiset<nat>>, queue': seq<nat>)
    requires |orig| == n && j < n && Bookkeeping(n, ins, queue, order) && Removed(orig, ins, who) && out in who
    requires everyCopy ==> CleanBut(ins, who, out, j)
    requires !everyCopy ==> CountedBut(orig, ins, who, out, j)
    ensures Bookkeeping(n, ins', queue', order) && Removed(orig, ins', who)
    ensures |queue'| >= |queue| && queue'[..|queue|] == queue
    ensures everyCopy ==> CleanBut(ins', who, out, j + 1)
    ensures !everyCopy ==> CountedBut(orig, ins', who, out, j + 1)
  {
    ins', queue' := ins, queue;
    UnlinkCounts(orig, ins, who, out, j, everyCopy);
    if out in ins[j] {
      var s := if everyCopy then ins[j][out := 0] else ins[j] - multiset{out};
      assert s == Unlinked(ins[j], out, everyCopy);
      Requeue(n, ins, queue, order, j, s);
      ins' := ins[j := s];
      if s == multiset{} {
        queue' := queue + [j];
      }
    }
  }

  /** Replacing the edges of a node that still had some keeps the
      bookkeeping once the node is queued if it has none left. */
  lemma Requeue(n: nat, ins: seq<multiset<nat>>, queue: seq<nat>, order: seq<nat>, j: nat, s: multiset<nat>)
    requires Bookkeeping(n, ins, queue, order) && j < n && ins[j] != multiset{}
    ensures var queue' := if s == multiset{} then queue + [j] else queue;
      Bookkeeping(n, ins[j := s], queue', order) && |queue'| >= |queue| && queue'[..|queue|] == queue
  {
    if s == multiset{} {
      AddDistinct(order + queue, j);
      assert order + (queue + [j]) == order + queue + [j];
      assert (queue + [j])[..|queue|] == queue;
    }
  }

  /** A node's edges after the sweep of `out` over it. */
  function Unlinked(s: multiset<nat>, out: nat, everyCopy: bool): (r: multiset<nat>)
    ensures r[out] <= s[out] && forall b :: b != out ==> r[b] == s[b]
    ensures everyCopy ==> r[out] == 0
    ensures !everyCopy ==> r[out] + 1 >= s[out]
  {
    if out !in s then s
    else if everyCopy then s[out := 0]
    else s - multiset{out}
  }

  /** The sweep of `out` over node `j` keeps the record of removals and
      extends the cleaned (or counted) part past `j`. */
  lemma UnlinkCounts(orig: seq<multiset<nat>>, ins: seq<multiset<nat>>, who: map<nat, nat>, out: nat, j: nat,
                     everyCopy: bool)
    requires |ins| == |orig| && j < |ins| && Removed(orig, ins, who) && out in who
    requires everyCopy ==> CleanBut(ins, who, out, j)
    requires !everyCopy ==> CountedBut(orig, ins, who, out, j)
    ensures var ins' := ins[j := Unlinked(ins[j], out, everyCopy)];
      && Removed(orig, ins', who)
      && (everyCopy ==> CleanBut(ins', who, out, j + 1))
      && (!everyCopy ==> CountedBut(orig, ins', who, out, j + 1))
  {
    var s := Unlinked(ins[j], out, everyCopy);
    DropEdges(orig, ins, who, j, s, out);
    var ins' := ins[j := s];
    forall j', b: nat | 0 <= j' < |ins|
      ensures everyCopy && b in who && (b != out || j' < j + 1) ==> ins'[j'][b] == 0
      ensures !everyCopy ==> ins'[j'][b] + (if b in who && (b != out || j' < j + 1) then 1 else 0) >= orig[j'][b]
    {
      if j' == j {
        assert ins'[j'] == s;
      } else {
        assert ins'[j'] == ins[j'];
      }
    }
  }

  /** Removing copies of a swept index from one node keeps the record of
      removals. */
  lemma DropEdges(orig: seq<multiset<nat>>, ins: seq<multiset<nat>>, who: map<nat, nat>, j: nat,
                  s: multiset<nat>, out: nat)
    requires |ins| == |orig| && j < |ins| && Removed(orig, ins, who) && out in who
    requires s[out] <= ins[j][out] && forall b :: b != out ==> s[b] == ins[j][b]
    ensures Removed(orig, ins[j := s], who)
  {
    var ins' := ins[j := s];
    forall j', b: nat | 0 <= j' < |ins|
      ensures ins'[j'][b] <= orig[j'][b] && (ins'[j'][b] < orig[j'][b] ==> b in who)
    {
      assert ins[j'][b] <= orig[j'][b] && (ins[j'][b] < orig[j'][b] ==> b in who);
      if j' == j {
        assert ins'[j'] == s;
        if b != out {
          assert s[b] == ins[j][b];
        } else {
          assert s[b] <= ins[j][b];
        }
      } else {
        assert ins'[j'] == ins[j'];
      }
    }
    assert |ins'| == |orig|;
    assert Removed(orig, ins', who);
  }

  /** Placing node `i`: every one of its outputs, in increasing order, is
      swept from every node's edges. */
  method SweepNode(nodes: seq<Node>, ghost orig: seq<multiset<nat>>, ins: seq<multiset<nat>>, queue: seq<nat>,
                   ghost order: seq<nat>, ghost who: map<nat, nat>, i: nat, everyCopy: bool)
    returns (ins': seq<multiset<nat>>, queue': seq<nat>, ghost who': map<nat, nat>)
    requires |orig| == |nodes| && |order| >= 1 && order[|order| - 1] == i < |nodes|
    requires nodes[i].start <= nodes[i].end
    requires Bookkeeping(|nodes|, ins, queue, order) && Removed(orig, ins, who)
    requires Owners(nodes, order, who) && ReadsBefore(orig, order, who)
    requires Finished(nodes, order, who, |order| - 1)
    requires forall b :: b in who ==> !InSpan(nodes[i], b)
    requires everyCopy ==> Clean(ins, who)
    requires !everyCopy ==> Counted(orig, ins, who)
    ensures Bookkeeping(|nodes|, ins', queue', order) && Removed(orig, ins', who')
    ensures Owners(nodes, order, who') && ReadsBefore(orig, order, who')
    ensures Finished(nodes, order, who', |order|)
    ensures |queue'| >= |queue| && queue'[..|queue|] == queue
    ensures everyCopy ==> Clean(ins', who')
    ensures !everyCopy ==> Counted(orig, ins', who')
  {
    ins', queue', who' := ins, queue, who;
    for out := nodes[i].start to nodes[i].end
      invariant Bookkeeping(|nodes|, ins', queue', order) && Removed(orig, ins', who')
      invariant Owners(nodes, order, who') && ReadsBefore(orig, order, who')
      invariant Finished(nodes, order, who', |order| - 1)
      invariant forall b :: nodes[i].start <= b < out ==> b in who'
      invariant forall b :: b in who' && InSpan(nodes[i], b) ==> b < out
      invariant forall b :: b in who' ==> b in who || InSpan(nodes[i], b)
      invariant forall b :: b in who ==> b in who' && who'[b] == who[b]
      invariant |queue'| >= |queue| && queue'[..|queue|] == queue
      invariant everyCopy ==> Clean(ins', who')
      invariant !everyCopy ==> Counted(orig, ins', who')
    {
      SweepStart(|nodes|, orig, ins', who', out, |order| - 1, everyCopy);
      who' := who'[out := |order| - 1];
      ghost var q := queue';
      ins', queue' := SweepOutput(|nodes|, orig, ins', queue', order, who', out, everyCopy);
      assert queue'[..|queue|] == q[..|queue|];
      SweepEnd(|nodes|, orig, ins', who', out, everyCopy);
    }
  }

  /** Recording a fresh output `out` as swept keeps the bookkeeping, with
      `out` itself still to be removed from every node. */
  lemma SweepStart(n: nat, orig: seq<multiset<nat>>, ins: seq<multiset<nat>>, who: map<nat, nat>, out: nat, p: nat,
                   everyCopy: bool)
    requires |orig| == |ins| == n && Removed(orig, ins, who) && out !in who
    requires everyCopy ==> Clean(ins, who)
    requires !everyCopy ==> Counted(orig, ins, who)
    ensures Removed(orig, ins, who[out := p])
    ensures everyCopy ==> CleanBut(ins, who[out := p], out, 0)
    ensures !everyCopy ==> CountedBut(orig, ins, who[out := p], out, 0)
  {
    var who' := who[out := p];
    forall j, b: nat | 0 <= j < n
      ensures ins[j][b] <= orig[j][b] && (ins[j][b] < orig[j][b] ==> b in who')
      ensures everyCopy && b in who' && b != out ==> ins[j][b] == 0
      ensures !everyCopy ==> ins[j][b] + (if b in who' && b != out then 1 else 0) >= orig[j][b]
    {
      assert b in who' && b != out ==> b in who;
    }
  }

  /** Once `out` has been removed from every node, it is like any other
      swept index. */
  lemma SweepEnd(n: nat, orig: seq<multiset<nat>>, ins: seq<multiset<nat>>, who: map<nat, nat>, out: nat,
                 everyCopy: bool)
    requires |orig| == |ins| == n
    requires everyCopy ==> CleanBut(ins, who, out, n)
    requires !everyCopy ==> CountedBut(orig, ins, who, out, n)
    ensures everyCopy ==> Clean(ins, who)
    ensures !everyCopy ==> Counted(orig, ins, who)
  {
    forall j, b: nat | 0 <= j < n
      ensures everyCopy && b in who ==> ins[j][b] == 0
      ensures !everyCopy ==> ins[j][b] + (if b in who then 1 else 0) >= orig[j][b]
    {
    }
  }

  /** Kahn's algorithm over the nodes' current wiring: starting from the
      nodes with no connected input, take the front of the queue, place it,
      and sweep its outputs from every node's edges. The placed order always
      puts every node after the nodes it reads. With `everyCopy`, it places
      every node whenever the wiring has no cycle; as written, a node that
      reads one bus index on two inputs is never placed. */
  method Kahn(nodes: seq<Node>, busLen: nat, everyCopy: bool) returns (order: seq<nat>)
    requires Tiled(nodes, busLen) && InputsInBus(nodes, busLen)
    ensures Distinct(order) && forall x :: x in order ==> x < |nodes|
    ensures |order| <= |nodes|
    ensures |order| == |nodes| ==> IsPermutation(order, |nodes|)
    ensures SourcesFirst(nodes, order)
    ensures everyCopy ==> forall rank :: Ranked(nodes, rank) ==> |order| == |nodes|
    ensures !everyCopy ==> forall j, b: nat :: 0 <= j < |nodes| && multiset(nodes[j].inputs)[Some(b)] >= 2 ==> j !in order
  {
    var n := |nodes|;
    var ins := CollectEdges(nodes);
    ghost var orig := ins;
    var queue := Sources(ins, n);
    ghost var who: map<nat, nat> := map[];
    order := [];
    assert order + queue == queue;
    while queue != []
      invariant Bookkeeping(n, ins, queue, order) && Removed(orig, ins, who)
      invariant Owners(nodes, order, who) && ReadsBefore(orig, order, who)
      invariant Finished(nodes, order, who, |order|)
      invariant everyCopy ==> Clean(ins, who)
      invariant !everyCopy ==> Counted(orig, ins, who)
      decreases n - |order|
    {
      DistinctBound(order + queue, n);
      var i := queue[0];
      assert i in order + queue;
      assert ins[i] == multiset{};
      assert (order + [i]) + queue[1..] == order + queue;
      ghost var placed := order;
      queue := queue[1..];
      order := order + [i];
      assert order[..|order| - 1] == placed;
      assert Distinct(order) by {
        assert forall k :: 0 <= k < |order| ==> order[k] == (order + queue)[k];
      }
      Placed(nodes, busLen, orig, ins, order, who);
      SpansOrdered(nodes, busLen, i);
      ins, queue, who := SweepNode(nodes, orig, ins, queue, order, who, i, everyCopy);
    }
    assert order + queue == order;
    DistinctBound(order, n);
    PlacedAfterSources(nodes, busLen, orig, order, who);
    if everyCopy {
      forall rank | Ranked(nodes, rank)
        ensures |order| == n
      {
        SweptAll(nodes, busLen, orig, ins, order, who, rank);
      }
    } else {
      DuplicateStays(nodes, orig, ins, order, who);
    }
  }

  /** Placing a node whose edges are all gone keeps the records of who owns
      each swept index and of what each placed node read, and the new node
      owns no swept index yet. */
  lemma Placed(nodes: seq<Node>, busLen: nat, orig: seq<multiset<nat>>, ins: seq<multiset<nat>>, order: seq<nat>,
               who: map<nat, nat>)
    requires Tiled(nodes, busLen) && |orig| == |ins| == |nodes| && |order| >= 1 && Distinct(order)
    requires order[|order| - 1] < |nodes| && ins[order[|order| - 1]] == multiset{}
    requires Removed(orig, ins, who)
    requires Owners(nodes, order[..|order| - 1], who) && ReadsBefore(orig, order[..|order| - 1], who)
    requires Finished(nodes, order[..|order| - 1], who, |order| - 1)
    ensures Owners(nodes, order, who) && ReadsBefore(orig, order, who)
    ensures Finished(nodes, order, who, |order| - 1)
    ensures forall b :: b in who ==> !InSpan(nodes[order[|order| - 1]], b)
  {
    PlacedOwners(nodes, order, who);
    PlacedReads(orig, ins, order, who);
    PlacedFresh(nodes, busLen, order, who);
  }

  lemma PlacedOwners(nodes: seq<Node>, order: seq<nat>, who: map<nat, nat>)
    requires |order| >= 1
    requires Owners(nodes, order[..|order| - 1], who) && Finished(nodes, order[..|order| - 1], who, |order| - 1)
    ensures Owners(nodes, order, who) && Finished(nodes, order, who, |order| - 1)
  {
    var m := |order| - 1;
    assert forall p :: 0 <= p < m ==> order[..m][p] == order[p];
  }

  lemma PlacedReads(orig: seq<multiset<nat>>, ins: seq<multiset<nat>>, order: seq<nat>, who: map<nat, nat>)
    requires |orig| == |ins| && |order| >= 1
    requires order[|order| - 1] < |ins| && ins[order[|order| - 1]] == multiset{}
    requires Removed(orig, ins, who) && Positioned(order[..|order| - 1], who)
    requires ReadsBefore(orig, order[..|order| - 1], who)
    ensures ReadsBefore(orig, order, who)
  {
    var m := |order| - 1;
    var i := order[m];
    assert forall p :: 0 <= p < m ==> order[..m][p] == order[p];
    forall p, b: nat | 0 <= p < |order| && order[p] < |orig| && orig[order[p]][b] > 0
      ensures b in who && who[b] < p
    {
      if p == m {
        assert ins[i][b] < orig[i][b];
      }
    }
  }

  lemma PlacedFresh(nodes: seq<Node>, busLen: nat, order: seq<nat>, who: map<nat, nat>)
    requires Tiled(nodes, busLen) && |order| >= 1 && Distinct(order) && order[|order| - 1] < |nodes|
    requires Owners(nodes, order[..|order| - 1], who)
    ensures forall b :: b in who ==> !InSpan(nodes[order[|order| - 1]], b)
  {
    var m := |order| - 1;
    var i := order[m];
    assert forall p :: 0 <= p < m ==> order[..m][p] == order[p];
    forall b | b in who
      ensures !InSpan(nodes[i], b)
    {
      if InSpan(nodes[i], b) {
        SpanOwner(nodes, busLen, order[who[b]], i, b);
      }
    }
  }

  /** Every swept bus index has a position among the placed nodes. */
  ghost predicate Positioned(order: seq<nat>, who: map<nat, nat>)
  {
    forall b :: b in who ==> who[b] < |order|
  }

  /** Placement order puts every node after the nodes it reads. */
  lemma PlacedAfterSources(nodes: seq<Node>, busLen: nat, orig: seq<multiset<nat>>, order: seq<nat>,
                           who: map<nat, nat>)
    requires Tiled(nodes, busLen) && EdgesOf(nodes, orig)
    requires Distinct(order) && forall x :: x in order ==> x < |nodes|
    requires Owners(nodes, order, who) && ReadsBefore(orig, order, who)
    ensures SourcesFirst(nodes, order)
  {
    forall p, q, b |
      && 0 <= p < |order| && 0 <= q < |order| && order[p] < |nodes| && order[q] < |nodes|
      && Some(b) in nodes[order[p]].inputs && InSpan(nodes[order[q]], b)
      ensures q < p
    {
      assert orig[order[p]][b] > 0;
      SpanOwner(nodes, busLen, order[who[b]], order[q], b);
    }
  }

  /** When the queue runs dry after the corrected sweep, a node left out
      would read an unplaced node of lower rank, which has a node of lower
      rank still, and so on without end: under a ranking nothing is left
      out. */
  lemma SweptAll(nodes: seq<Node>, busLen: nat, orig: seq<multiset<nat>>, ins: seq<multiset<nat>>,
                 order: seq<nat>, who: map<nat, nat>, rank: seq<nat>)
    requires Tiled(nodes, busLen) && InputsInBus(nodes, busLen) && EdgesOf(nodes, orig)
    requires Bookkeeping(|nodes|, ins, [], order) && Removed(orig, ins, who)
    requires Finished(nodes, order, who, |order|) && Clean(ins, who) && Ranked(nodes, rank)
    ensures |order| == |nodes|
  {
    var n := |nodes|;
    assert order + [] == order;
    var stuck := set j | 0 <= j < n && j !in order;
    forall x | x in stuck
      ensures exists y :: y in stuck && rank[y] < rank[x]
    {
      var b :| b in ins[x];
      assert ins[x][b] > 0 && orig[x][b] > 0 && b !in who;
      assert multiset(nodes[x].inputs)[Some(b)] > 0;
      assert Some(b) in nodes[x].inputs;
      var o := OwnerExists(nodes, busLen, b);
      assert o in stuck;
    }
    forall x | 0 <= x < n
      ensures x in order
    {
      NoDescent(stuck, rank, x);
    }
    Covers(order, n);
  }

  /** After the sweep as written, a node reading one bus index on two inputs
      still holds an edge, so it was never queued. */
  lemma DuplicateStays(nodes: seq<Node>, orig: seq<multiset<nat>>, ins: seq<multiset<nat>>, order: seq<nat>,
                       who: map<nat, nat>)
    requires EdgesOf(nodes, orig) && Bookkeeping(|nodes|, ins, [], order) && Counted(orig, ins, who)
    ensures forall j, b: nat :: 0 <= j < |nodes| && multiset(nodes[j].inputs)[Some(b)] >= 2 ==> j !in order
  {
    assert order + [] == order;
    forall j, b: nat | 0 <= j < |nodes| && multiset(nodes[j].inputs)[Some(b)] >= 2
      ensures j !in order
    {
      assert ins[j][b] >= 1;
    }
  }

  /** The wiring has no cycle: some ranking puts every node above the nodes
      it reads. */
  ghost predicate Acyclic(nodes: seq<Node>)
  {
    exists rank :: Ranked(nodes, rank)
  }

  /** The positions in a full order that puts every node after the nodes it
      reads are such a ranking. */
  lemma OrderRanks(nodes: seq<Node>, order: seq<nat>)
    requires IsPermutation(order, |nodes|) && SourcesFirst(nodes, order)
    ensures Acyclic(nodes)
  {
    var rank := seq(|nodes|, j => IndexOf(order, j));
    forall j, o, b | 0 <= j < |nodes| && 0 <= o < |nodes| && Some(b) in nodes[j].inputs && InSpan(nodes[o], b)
      ensures rank[o] < rank[j]
    {
      assert j in order && o in order;
      var p, q := IndexOf(order, j), IndexOf(order, o);
      assert order[p] == j && order[q] == o;
    }
    assert Ranked(nodes, rank);
  }

  /** The sort with every copy of a swept index removed: it places every
      node exactly when the wiring has no cycle. */
  method TopologicalOrder(nodes: seq<Node>, busLen: nat) returns (order: seq<nat>)
    requires Tiled(nodes, busLen) && InputsInBus(nodes, busLen)
    ensures Distinct(order) && forall x :: x in order ==> x < |nodes|
    ensures SourcesFirst(nodes, order)
    ensures |order| == |nodes| <==> Acyclic(nodes)
    ensures |order| == |nodes| ==> IsPermutation(order, |nodes|)
  {
    order := Kahn(nodes, busLen, true);
    if |order| == |nodes| {
      OrderRanks(nodes, order);
    }
  }

  /** The sort as written: one copy of a swept index is removed from each
      node, so a node reading one bus index on two inputs is never placed. */
  method TopologicalOrderAsWritten(nodes: seq<Node>, busLen: nat) returns (order: seq<nat>)
    requires Tiled(nodes, busLen) && InputsInBus(nodes, busLen)
    ensures Distinct(order) && forall x :: x in order ==> x < |nodes|
    ensures SourcesFirst(nodes, order)
    ensures |order| == |nodes| ==> IsPermutation(order, |nodes|) && Acyclic(nodes)
    ensures forall j, b: nat :: 0 <= j < |nodes| && multiset(nodes[j].inputs)[Some(b)] >= 2 ==> j !in order
  {
    order := Kahn(nodes, busLen, false);
    if |order| == |nodes| {
      OrderRanks(nodes, order);
    }
  }

  /** A device with no input and one output. */
  const OneOutput: Model := DeviceModel(0, 1, (h: History, t: Time, x: Frame) => [0.0])

  /** A device with two inputs and no output. */
  const TwoInputs: Model := DeviceModel(2, 0, (h: History, t: Time, x: Frame) => [])

  /** Two nodes: a source with one output, and a node reading that output
      on both of its inputs. */
  function FanIn(): (g: seq<Node>)
    ensures Tiled(g, 1) && InputsInBus(g, 1)
    ensures Ranked(g, [0, 1])
    ensures multiset(g[1].inputs)[Some(0)] == 2
  {
    var g := [Node(OneOutput, [], 0, 1), Node(TwoInputs, [Some(0), Some(0)], 1, 1)];
    assert g[..1][..0] == [];
    assert g[..1] == [g[0]];
    g
  }

  /** The sort as written reports a cycle in that acyclic wiring: the second
      node never loses its second edge. */
  method FanInRejected() returns (order: seq<nat>)
    ensures Acyclic(FanIn()) && |order| < |FanIn()|
  {
    var g := FanIn();
    order := TopologicalOrderAsWritten(g, 1);
    assert 1 !in order;
    DistinctBound(order, 1);
    assert Ranked(g, [0, 1]);
  }

  /** A node that reads one of its own outputs has no ranking. */
  lemma SelfReadUnranked(nodes: seq<Node>, rank: seq<nat>, j: nat, b: nat)
    requires j < |nodes| && Some(b) in nodes[j].inputs && InSpan(nodes[j], b)
    ensures !Ranked(nodes, rank)
  {
    if |rank| == |nodes| {
      assert !(rank[j] < rank[j]);
    }
  }

  /** A device with one input and one output. */
  const PassThrough: Model := DeviceModel(1, 1, (h: History, t: Time, x: Frame) => [0.0])

  /** A source on bus index 0 and a pass-through node on bus index 1 that
      reads it. */
  function SourceAndPass(): (g: seq<Node>)
    ensures Tiled(g, 2) && InputsInBus(g, 2) && Sized(g)
  {
    var g := [Node(OneOutput, [], 0, 1), Node(PassThrough, [Some(0)], 1, 2)];
    assert g[..1][..0] == [];
    assert g[..1] == [g[0]];
    g
  }

  /** `add_edge` as written changes the graph when it refuses an edge: wiring
      the pass-through's only input to its own output closes a cycle, and
      the error path empties the slot that read the source, although the
      documentation promises no change. */
  lemma CycleErrorClearsSlot()
    ensures var g := SourceAndPass();
      && Wirable(g, 1, 0, 1, 0)
      && !Acyclic(Rewire(g, 1, 0, Some(g[1].start)))
      && Rewire(g, 1, 0, None) != g
  {
    var g := SourceAndPass();
    var wired := Rewire(g, 1, 0, Some(1));
    forall rank
      ensures !Ranked(wired, rank)
    {
      assert wired[1].inputs[0] == Some(1);
      SelfReadUnranked(wired, rank, 1, 1);
    }
    assert Rewire(g, 1, 0, None)[1].inputs[0] != g[1].inputs[0];
  }

  /** Each node's range lies in the bus with its device's width, and its
      inputs read bus indices. */
  ghost predicate NodeFits(n: Node, busLen: nat)
  {
    && n.start + n.model.numOutputs == n.end <= busLen
    && forall b :: Some(b) in n.inputs ==> b < busLen
  }

  ghost predicate Fits(nodes: seq<Node>, busLen: nat)
  {
    forall j :: 0 <= j < |nodes| ==> NodeFits(nodes[j], busLen)
  }

  lemma TiledFits(nodes: seq<Node>, busLen: nat)
    requires Tiled(nodes, busLen) && InputsInBus(nodes, busLen)
    ensures Fits(nodes, busLen)
  {
    forall j | 0 <= j < |nodes|
      ensures NodeFits(nodes[j], busLen)
    {
      SpansOrdered(nodes, busLen, j);
    }
  }

  /** Every node has one slot per device input. */
  ghost predicate Sized(nodes: seq<Node>)
  {
    forall j :: 0 <= j < |nodes| ==> |nodes[j].inputs| == nodes[j].model.numInputs
  }

  /** The nodes with input `destCh` of node `dest` set to `slot`. */
  function Rewire(nodes: seq<Node>, dest: nat, destCh: nat, slot: Option<nat>): (r: seq<Node>)
    requires dest < |nodes| && destCh < |nodes[dest].inputs|
    ensures |r| == |nodes| && |r[dest].inputs| == |nodes[dest].inputs| && r[dest].inputs[destCh] == slot
    ensures forall j :: 0 <= j < |nodes| ==>
      && r[j].model == nodes[j].model && r[j].start == nodes[j].start && r[j].end == nodes[j].end
      && |r[j].inputs| == |nodes[j].inputs|
    ensures forall j, k :: 0 <= j < |nodes| && 0 <= k < |nodes[j].inputs| && (j, k) != (dest, destCh) ==>
      r[j].inputs[k] == nodes[j].inputs[k]
  {
    nodes[dest := nodes[dest].(inputs := nodes[dest].inputs[destCh := slot])]
  }

  /** Setting one slot, to nothing or to an index inside the bus, keeps the
      tiling, the inputs inside the bus and the slot counts. */
  lemma RewireFits(nodes: seq<Node>, busLen: nat, dest: nat, destCh: nat, slot: Option<nat>)
    requires Tiled(nodes, busLen) && InputsInBus(nodes, busLen) && Sized(nodes)
    requires dest < |nodes| && destCh < |nodes[dest].inputs| && (slot.Some? ==> slot.value < busLen)
    ensures var r := Rewire(nodes, dest, destCh, slot); Tiled(r, busLen) && InputsInBus(r, busLen) && Sized(r)
  {
    var r := Rewire(nodes, dest, destCh, slot);
    SameSpansTiled(nodes, r, busLen);
    forall j, b: nat | 0 <= j < |r| && Some(b) in r[j].inputs
      ensures b < busLen
    {
      var k :| 0 <= k < |r[j].inputs| && r[j].inputs[k] == Some(b);
      if (j, k) != (dest, destCh) {
        assert nodes[j].inputs[k] == Some(b);
      }
    }
  }

  /** Changing inputs leaves the tiling of the bus alone. */
  lemma {:induction false} SameSpansTiled(a: seq<Node>, c: seq<Node>, busLen: nat)
    requires Tiled(a, busLen) && |a| == |c|
    requires forall j :: 0 <= j < |a| ==>
      a[j].start == c[j].start && a[j].end == c[j].end && a[j].model.numOutputs == c[j].model.numOutputs
    ensures Tiled(c, busLen)
    decreases |a|
  {
    if a != [] {
      var m := |a| - 1;
      SameSpansTiled(a[..m], c[..m], a[m].start);
    }
  }

  /** Emptying an input slot keeps every order that put each node after the
      nodes it read. */
  lemma DisconnectKeepsOrder(nodes: seq<Node>, dest: nat, destCh: nat, order: seq<nat>)
    requires dest < |nodes| && destCh < |nodes[dest].inputs| && SourcesFirst(nodes, order)
    ensures SourcesFirst(Rewire(nodes, dest, destCh, None), order)
  {
    var r := Rewire(nodes, dest, destCh, None);
    forall j, b | 0 <= j < |nodes| && Some(b) in r[j].inputs
      ensures Some(b) in nodes[j].inputs
    {
      var k :| 0 <= k < |r[j].inputs| && r[j].inputs[k] == Some(b);
      assert nodes[j].inputs[k] == Some(b);
    }
  }

  /** What an input slot reads: its bus index's sample, or 0 when it is
      unconnected. */
  function Read(bus: seq<Sample>, slot: Option<nat>): Sample
    requires slot.Some? ==> slot.value < |bus|
  {
    match slot
    case Some(j) => bus[j]
    case None => 0.0
  }

  /** The input frame of a node with input slots `inputs`. */
  function Gather(inputs: seq<Option<nat>>, bus: seq<Sample>): (x: Frame)
    requires forall b :: Some(b) in inputs ==> b < |bus|
    ensures |x| == |inputs|
    ensures forall k :: 0 <= k < |inputs| ==> x[k] == Read(bus, inputs[k])
  {
    seq(|inputs|, k requires 0 <= k < |inputs| => Read(bus, inputs[k]))
  }

  /** A node's input frame depends only on the bus indices it reads. */
  lemma GatherSame(inputs: seq<Option<nat>>, bus: seq<Sample>, bus': seq<Sample>)
    requires |bus| == |bus'| && forall b :: Some(b) in inputs ==> b < |bus| && bus[b] == bus'[b]
    ensures Gather(inputs, bus) == Gather(inputs, bus')
  {
    var x, x' := Gather(inputs, bus), Gather(inputs, bus');
    forall k | 0 <= k < |inputs|
      ensures x[k] == x'[k]
    {
      assert inputs[k] in inputs;
    }
  }

  /** The loop that fills the input buffer: slot by slot, the bus sample it
      reads, or 0 for an unconnected slot. */
  method GatherInputs(inputs: seq<Option<nat>>, bus: seq<Sample>) returns (x: Frame)
    requires forall b :: Some(b) in inputs ==> b < |bus|
    ensures x == Gather(inputs, bus)
  {
    x := Zeros(|inputs|);
    for i := 0 to |inputs|
      invariant |x| == |inputs|
      invariant forall k :: 0 <= k < i ==> x[k] == Read(bus, inputs[k])
    {
      assert inputs[i] in inputs;
      x := x[i := Read(bus, inputs[i])];
    }
  }

  /** One node's tick: it reads its input frame from the bus, and its
      device's response is written over the node's own range. */
  function StepNode(nodes: seq<Node>, hist: seq<History>, i: nat, bus: seq<Sample>, t: Time)
    : (r: (seq<History>, seq<Sample>))
    requires i < |nodes| == |hist| && NodeFits(nodes[i], |bus|)
    ensures |r.0| == |hist| && |r.1| == |bus|
    ensures forall b :: 0 <= b < |bus| && !InSpan(nodes[i], b) ==> r.1[b] == bus[b]
    ensures forall j :: 0 <= j < |hist| && j != i ==> r.0[j] == hist[j]
  {
    var n := nodes[i];
    var x := Gather(n.inputs, bus);
    (hist[i := hist[i] + [Call(t, x)]], bus[..n.start] + Emit(n.model, hist[i], t, x) + bus[n.end..])
  }

  /** The nodes of `order` ticked one after the other at `t`. */
  function Run(nodes: seq<Node>, hist: seq<History>, order: seq<nat>, bus: seq<Sample>, t: Time)
    : (r: (seq<History>, seq<Sample>))
    requires |hist| == |nodes| && Fits(nodes, |bus|) && forall x :: x in order ==> x < |nodes|
    ensures |r.0| == |hist| && |r.1| == |bus|
    decreases |order|
  {
    if order == [] then (hist, bus)
    else
      var m := |order| - 1;
      assert order[m] in order && forall x :: x in order[..m] ==> x in order;
      var prev := Run(nodes, hist, order[..m], bus, t);
      StepNode(nodes, prev.0, order[m], prev.1, t)
  }

  /** Node `j` was ticked once at `t`, with the input frame the bus `bus`
      holds, and `bus` holds its device's response over its range. */
  ghost predicate Settled(nodes: seq<Node>, hist: seq<History>, j: nat, hist': seq<History>, bus: seq<Sample>,
                          t: Time)
    requires j < |nodes| == |hist| == |hist'| && NodeFits(nodes[j], |bus|)
  {
    var x := Gather(nodes[j].inputs, bus);
    && hist'[j] == hist[j] + [Call(t, x)]
    && bus[nodes[j].start..nodes[j].end] == Emit(nodes[j].model, hist[j], t, x)
  }

  /** Every node of `order` is settled, and the other nodes were not
      ticked. */
  ghost predicate AllSettled(nodes: seq<Node>, hist: seq<History>, order: seq<nat>, hist': seq<History>,
                             bus: seq<Sample>, t: Time)
    requires |nodes| == |hist| == |hist'| && Fits(nodes, |bus|) && forall x :: x in order ==> x < |nodes|
  {
    && (forall x :: x in order ==> Settled(nodes, hist, x, hist', bus, t))
    && (forall j :: 0 <= j < |nodes| && j !in order ==> hist'[j] == hist[j])
  }

  /** No node of `order` reads the outputs of node `i`. */
  ghost predicate ReadsNot(nodes: seq<Node>, order: seq<nat>, i: nat)
    requires i < |nodes| && forall x :: x in order ==> x < |nodes|
  {
    forall x, b :: x in order && Some(b) in nodes[x].inputs ==> !InSpan(nodes[i], b)
  }

  /** Ticking the nodes in an order that puts every node after the nodes it
      reads leaves a bus on which every ticked node's outputs are its
      device's response to the inputs that same bus holds: each node read
      its inputs after their writers had written them in this pass, and
      nothing wrote them again. Nodes outside the order are not ticked. */
  lemma {:induction false} RunSettles(nodes: seq<Node>, hist: seq<History>, order: seq<nat>, bus: seq<Sample>,
                                      t: Time)
    requires |hist| == |nodes| && Tiled(nodes, |bus|) && Fits(nodes, |bus|)
    requires Distinct(order) && (forall x :: x in order ==> x < |nodes|) && SourcesFirst(nodes, order)
    ensures var r := Run(nodes, hist, order, bus, t); AllSettled(nodes, hist, order, r.0, r.1, t)
    decreases |order|
  {
    if order != [] {
      var m := |order| - 1;
      var i := order[m];
      var before := order[..m];
      LastReadsNot(nodes, order);
      RunSettles(nodes, hist, before, bus, t);
      var prev := Run(nodes, hist, before, bus, t);
      StepAfter(nodes, hist, before, i, prev.0, prev.1, |bus|, t);
      assert Run(nodes, hist, order, bus, t) == StepNode(nodes, prev.0, i, prev.1, t);
    }
  }

  /** The last node of an order that puts every node after the nodes it
      reads is read by none of them, itself included, and the rest of the
      order is such an order too. */
  lemma LastReadsNot(nodes: seq<Node>, order: seq<nat>)
    requires order != [] && Distinct(order) && (forall x :: x in order ==> x < |nodes|) && SourcesFirst(nodes, order)
    ensures var m := |order| - 1;
      && order == order[..m] + [order[m]] && order[m] !in order[..m]
      && Distinct(order[..m]) && (forall x :: x in order[..m] ==> x in order) && SourcesFirst(nodes, order[..m])
      && order[m] < |nodes| && ReadsNot(nodes, order, order[m])
  {
    var m := |order| - 1;
    var before := order[..m];
    assert forall p :: 0 <= p < m ==> before[p] == order[p];
    assert order == before + [order[m]];
    assert order[m] in order;
    forall p, q, b |
      && 0 <= p < |before| && 0 <= q < |before| && before[p] < |nodes| && before[q] < |nodes|
      && Some(b) in nodes[before[p]].inputs && InSpan(nodes[before[q]], b)
      ensures q < p
    {
      assert before[p] == order[p] && before[q] == order[q];
    }
    LastUnread(nodes, order);
  }

  lemma LastUnread(nodes: seq<Node>, order: seq<nat>)
    requires order != [] && (forall x :: x in order ==> x < |nodes|) && SourcesFirst(nodes, order)
    ensures order[|order| - 1] in order && ReadsNot(nodes, order, order[|order| - 1])
  {
    var m := |order| - 1;
    var i := order[m];
    assert i in order;
    forall x, b | x in order && Some(b) in nodes[x].inputs
      ensures !InSpan(nodes[i], b)
    {
      var p := IndexOf(order, x);
    }
  }

  /** Ticking node `i`, which no node of `before + [i]` reads and which was
      not ticked yet, settles it and keeps the nodes of `before` settled. */
  lemma StepAfter(nodes: seq<Node>, hist: seq<History>, before: seq<nat>, i: nat, h: seq<History>, bus: seq<Sample>,
                  busLen: nat, t: Time)
    requires |nodes| == |hist| == |h| && |bus| == busLen && Tiled(nodes, busLen) && Fits(nodes, busLen)
    requires i < |nodes| && i !in before && forall x :: x in before ==> x < |nodes|
    requires AllSettled(nodes, hist, before, h, bus, t) && ReadsNot(nodes, before + [i], i)
    ensures var r := StepNode(nodes, h, i, bus, t); AllSettled(nodes, hist, before + [i], r.0, r.1, t)
  {
    var r := StepNode(nodes, h, i, bus, t);
    assert i in before + [i];
    StepSettles(nodes, hist, h, i, bus, t);
    forall x | x in before + [i]
      ensures Settled(nodes, hist, x, r.0, r.1, t)
    {
      if x != i {
        assert x in before + [i];
        StepKeepsSettled(nodes, hist, h, x, i, bus, busLen, t);
      }
    }
  }

  /** The node just ticked is settled, provided it does not read its own
      outputs and had not been ticked before. */
  lemma StepSettles(nodes: seq<Node>, hist: seq<History>, h: seq<History>, i: nat, bus: seq<Sample>, t: Time)
    requires i < |nodes| == |hist| == |h| && NodeFits(nodes[i], |bus|) && h[i] == hist[i]
    requires forall b :: Some(b) in nodes[i].inputs ==> !InSpan(nodes[i], b)
    ensures var r := StepNode(nodes, h, i, bus, t); Settled(nodes, hist, i, r.0, r.1, t)
  {
    var n := nodes[i];
    var r := StepNode(nodes, h, i, bus, t);
    GatherSame(n.inputs, bus, r.1);
    var y := Emit(n.model, hist[i], t, Gather(n.inputs, bus));
    assert r.1 == bus[..n.start] + y + bus[n.end..];
    assert r.1[n.start..n.end] == y;
  }

  /** Ticking node `i` keeps node `j` settled when `j` is another node that
      does not read `i`'s outputs. */
  lemma StepKeepsSettled(nodes: seq<Node>, hist: seq<History>, h: seq<History>, j: nat, i: nat, bus: seq<Sample>,
                         busLen: nat, t: Time)
    requires i < |nodes| && j < |nodes| && i != j && |nodes| == |hist| == |h|
    requires |bus| == busLen && Tiled(nodes, busLen) && Fits(nodes, busLen)
    requires Settled(nodes, hist, j, h, bus, t)
    requires forall b :: Some(b) in nodes[j].inputs ==> !InSpan(nodes[i], b)
    ensures var r := StepNode(nodes, h, i, bus, t); Settled(nodes, hist, j, r.0, r.1, t)
  {
    var r := StepNode(nodes, h, i, bus, t);
    GatherSame(nodes[j].inputs, bus, r.1);
    forall b | nodes[j].start <= b < nodes[j].end
      ensures r.1[b] == bus[b]
    {
      if InSpan(nodes[i], b) {
        SpanOwner(nodes, busLen, i, j, b);
      }
    }
    assert r.1[nodes[j].start..nodes[j].end] == bus[nodes[j].start..nodes[j].end];
  }

  /** A node for a device with model `model`, its outputs appended to the
      bus as zeros and every input unconnected. */
  method NewNode(model: Model, bus: seq<Sample>) returns (node: Node, bus': seq<Sample>)
    ensures bus' == bus + Zeros(model.numOutputs)
    ensures node.model == model && node.start == |bus| && node.end == |bus'|
    ensures |node.inputs| == model.numInputs && forall k :: 0 <= k < |node.inputs| ==> node.inputs[k] == None
  {
    var start := |bus|;
    bus' := bus;
    for k := 0 to model.numOutputs
      invariant bus' == bus + Zeros(k)
    {
      assert Zeros(k + 1) == Zeros(k) + [0.0];
      bus' := bus' + [0.0];
    }
    node := Node(model, seq(model.numInputs, _ => None), start, |bus'|);
  }

  /** Appending a node with no connected input, whose range starts at the
      end of the bus, keeps the tiling, keeps every input inside the bus,
      and keeps an order valid once the new node is placed last: nobody
      reads the new outputs yet. */
  lemma NodeAdded(nodes: seq<Node>, busLen: nat, order: seq<nat>, node: Node)
    requires Tiled(nodes, busLen) && InputsInBus(nodes, busLen)
    requires IsPermutation(order, |nodes|) && SourcesFirst(nodes, order)
    requires node.start == busLen && node.end == busLen + node.model.numOutputs
    requires forall b :: Some(b) !in node.inputs
    ensures Tiled(nodes + [node], node.end) && InputsInBus(nodes + [node], node.end)
    ensures IsPermutation(order + [|nodes|], |nodes| + 1) && SourcesFirst(nodes + [node], order + [|nodes|])
  {
    var nodes', order' := nodes + [node], order + [|nodes|];
    assert nodes'[..|nodes|] == nodes;
    assert |nodes| !in order;
    AddDistinct(order, |nodes|);
    forall p, q, b |
      && 0 <= p < |order'| && 0 <= q < |order'| && order'[p] < |nodes'| && order'[q] < |nodes'|
      && Some(b) in nodes'[order'[p]].inputs && InSpan(nodes'[order'[q]], b)
      ensures q < p
    {
      if p < |order| && q < |order| {
        assert order'[p] == order[p] && order'[q] == order[q];
        assert nodes'[order[p]] == nodes[order[p]] && nodes'[order[q]] == nodes[order[q]];
      }
    }
  }

  /** A graph of devices sharing one bus. `nodes[i]` is wired to the bus,
      `histories[i]` holds the calls its device has received, `topology` is
      the order in which the nodes are ticked and `time` the next time
      step. */
  class DeviceGraph {
    var nodes: seq<Node>
    var histories: seq<History>
    var topology: seq<nat>
    var bus: seq<Sample>
    var time: Time

    /** The ranges tile the bus, every input reads a bus index, every node
        has one slot per device input, and the topology ticks every node
        once, after every node it reads. */
    ghost predicate Valid()
      reads this
    {
      && Tiled(nodes, |bus|) && InputsInBus(nodes, |bus|) && Fits(nodes, |bus|) && Sized(nodes)
      && |histories| == |nodes|
      && IsPermutation(topology, |nodes|) && SourcesFirst(nodes, topology)
    }

    /** An empty graph at time 0. */
    constructor ()
      ensures Valid() && nodes == [] && histories == [] && topology == [] && bus == [] && time == 0
    {
      nodes, histories, topology, bus, time := [], [], [], [], 0;
    }

    /** Adds a device with no connections; its identifier is the previous
        node count, it is ticked last, and its outputs are new zeros at the
        end of the bus. */
    method AddNode(model: Model) returns (idx: nat)
      requires Valid()
      modifies this
      ensures Valid()
      ensures idx == old(|nodes|) && |nodes| == idx + 1 && nodes[..idx] == old(nodes)
      ensures nodes[idx].model == model && nodes[idx].start == old(|bus|) && nodes[idx].end == |bus|
      ensures forall k :: 0 <= k < |nodes[idx].inputs| ==> nodes[idx].inputs[k] == None
      ensures bus == old(bus) + Zeros(model.numOutputs)
      ensures topology == old(topology) + [idx]
      ensures histories == old(histories) + [[]] && time == old(time)
    {
      var node;
      node, bus := NewNode(model, bus);
      idx := |nodes|;
      NodeAdded(nodes, |bus| - model.numOutputs, topology, node);
      nodes := nodes + [node];
      histories := histories + [[]];
      topology := topology + [idx];
      assert nodes[..idx] == old(nodes);
      TiledFits(nodes, |bus|);
    }

    /** Connects output `srcCh` of node `src` to input `destCh` of node
        `dest`. The indices are checked in the order source node,
        destination node, source channel, destination channel, and a bad
        one changes nothing. A good edge replaces what the slot read; the
        topology is then sorted again, and an edge that closes a cycle is
        rejected by emptying the slot. */
    method AddEdge(src: nat, srcCh: nat, dest: nat, destCh: nat) returns (r: Result<(), GraphError>)
      requires Valid()
      modifies this
      ensures Valid()
      ensures histories == old(histories) && bus == old(bus) && time == old(time)
      ensures src >= old(|nodes|) ==> r == Err(SrcOutOfRange)
      ensures src < old(|nodes|) <= dest ==> r == Err(DestOutOfRange)
      ensures src < old(|nodes|) && dest < old(|nodes|) && srcCh >= old(nodes[src].model.numOutputs) ==>
        r == Err(SrcChOutOfRange)
      ensures (&& src < old(|nodes|) && dest < old(|nodes|) && srcCh < old(nodes[src].model.numOutputs)
               && destCh >= old(nodes[dest].model.numInputs)) ==> r == Err(DestChOutOfRange)
      ensures !Wirable(old(nodes), src, srcCh, dest, destCh) ==> nodes == old(nodes) && topology == old(topology)
      ensures Wirable(old(nodes), src, srcCh, dest, destCh) ==>
        var wired := Rewire(old(nodes), dest, destCh, Some(old(nodes[src].start) + srcCh));
        && (r.Ok? <==> Acyclic(wired))
        && (r.Ok? ==> nodes == wired)
        && (r.Err? ==> r == Err(CreatesCycle) && nodes == Rewire(old(nodes), dest, destCh, None)
                       && topology == old(topology))
    {
      if src >= |nodes| {
        return Err(SrcOutOfRange);
      } else if dest >= |nodes| {
        return Err(DestOutOfRange);
      }
      if nodes[src].model.numOutputs <= srcCh {
        return Err(SrcChOutOfRange);
      }
      if nodes[dest].model.numInputs <= destCh {
        return Err(DestChOutOfRange);
      }
      ghost var before := nodes;
      var start := nodes[src].start;
      SpansOrdered(nodes, |bus|, src);
      RewireFits(nodes, |bus|, dest, destCh, Some(start + srcCh));
      nodes := Rewire(nodes, dest, destCh, Some(start + srcCh));
      assert before[dest].inputs[destCh := Some(start + srcCh)][destCh := None] == before[dest].inputs[destCh := None];
      assert Rewire(nodes, dest, destCh, None) == Rewire(before, dest, destCh, None);
      DisconnectKeepsOrder(before, dest, destCh, topology);
      r := TopologicalSort(dest, destCh);
    }

    /** Sorts the nodes again after input `destCh` of node `dest` was set.
        When every node is placed the order becomes the topology; otherwise
        the slot is emptied and the topology kept. */
    method TopologicalSort(dest: nat, destCh: nat) returns (r: Result<(), GraphError>)
      requires dest < |nodes| && destCh < |nodes[dest].inputs|
      requires Tiled(nodes, |bus|) && InputsInBus(nodes, |bus|) && Sized(nodes) && |histories| == |nodes|
      requires IsPermutation(topology, |nodes|) && SourcesFirst(Rewire(nodes, dest, destCh, None), topology)
      modifies this
      ensures Valid()
      ensures histories == old(histories) && bus == old(bus) && time == old(time)
      ensures r.Ok? <==> Acyclic(old(nodes))
      ensures r.Ok? ==> nodes == old(nodes)
      ensures r.Err? ==>
        r == Err(CreatesCycle) && nodes == Rewire(old(nodes), dest, destCh, None) && topology == old(topology)
    {
      var order := TopologicalOrder(nodes, |bus|);
      if |order| == |nodes| {
        topology := order;
        r := Ok(());
      } else {
        RewireFits(nodes, |bus|, dest, destCh, None);
        nodes := Rewire(nodes, dest, destCh, None);
        r := Err(CreatesCycle);
      }
      TiledFits(nodes, |bus|);
    }

    /** `add_edge` as its documentation promises it: the same checks and the
        same sort, but an edge that would close a cycle puts back what the
        slot held before, so an error leaves the graph unchanged. */
    method AddEdgeKeepingGraph(src: nat, srcCh: nat, dest: nat, destCh: nat) returns (r: Result<(), GraphError>)
      requires Valid()
      modifies this
      ensures Valid()
      ensures histories == old(histories) && bus == old(bus) && time == old(time)
      ensures r.Err? ==> nodes == old(nodes) && topology == old(topology)
      ensures r.Err? <==> !Wirable(old(nodes), src, srcCh, dest, destCh) || r == Err(CreatesCycle)
      ensures Wirable(old(nodes), src, srcCh, dest, destCh) ==>
        var wired := Rewire(old(nodes), dest, destCh, Some(old(nodes[src].start) + srcCh));
        && (r.Ok? <==> Acyclic(wired))
        && (r.Ok? ==> nodes == wired)
    {
      ghost var before := nodes;
      var wirable := src < |nodes| && dest < |nodes| && srcCh < nodes[src].model.numOutputs
                     && destCh < nodes[dest].model.numInputs;
      var previous := if wirable then nodes[dest].inputs[destCh] else None;
      r := AddEdge(src, srcCh, dest, destCh);
      if wirable && r.Err? {
        assert nodes == Rewire(before, dest, destCh, None);
        assert before[dest].inputs[destCh := None][destCh := previous] == before[dest].inputs;
        nodes := Rewire(nodes, dest, destCh, previous);
        assert nodes == before;
      }
    }

    /** One tick: every node in topology order reads its inputs from the
        bus (0 for an unconnected input) and writes its device's response
        over its own range; then the time advances by one. Every node reads
        what its writers wrote in this same tick. */
    method Tick()
      requires Valid()
      modifies this
      ensures Valid()
      ensures nodes == old(nodes) && topology == old(topology) && time == old(time) + 1 && |bus| == old(|bus|)
      ensures (histories, bus) == Run(nodes, old(histories), topology, old(bus), old(time))
      ensures forall j :: 0 <= j < |nodes| ==> Settled(nodes, old(histories), j, histories, bus, old(time))
    {
      TiledFits(nodes, |bus|);
      for k := 0 to |topology|
        invariant nodes == old(nodes) && topology == old(topology) && time == old(time)
        invariant |bus| == old(|bus|) && |histories| == |nodes| && Fits(nodes, |bus|)
        invariant forall x :: x in topology[..k] ==> x in topology
        invariant (histories, bus) == Run(nodes, old(histories), topology[..k], old(bus), time)
      {
        assert topology[k] in topology;
        TickNode(topology[k]);
        assert topology[..k + 1][..k] == topology[..k];
      }
      assert topology[..|topology|] == topology;
      RunSettles(nodes, old(histories), topology, old(bus), time);
      time := time + 1;
    }

    /** Ticks node `i` at the current time. */
    method TickNode(i: nat)
      requires i < |nodes| == |histories| && Fits(nodes, |bus|)
      modifies this
      ensures nodes == old(nodes) && topology == old(topology) && time == old(time)
      ensures (histories, bus) == StepNode(nodes, old(histories), i, old(bus), time)
    {
      var node := nodes[i];
      var x := GatherInputs(node.inputs, bus);
      var y := Emit(node.model, histories[i], time, x);
      bus := bus[..node.start] + y + bus[node.end..];
      histories := histories[i := histories[i] + [Call(time, x)]];
    }
  }

  /** Both nodes exist, the source has output `srcCh` and the destination
      has input `destCh`. */
  predicate Wirable(nodes: seq<Node>, src: nat, srcCh: nat, dest: nat, destCh: nat)
  {
    src < |nodes| && dest < |nodes| && srcCh < nodes[src].model.numOutputs && destCh < nodes[dest].model.numInputs
  }
}
