/** The run queues of queue.c as linked lists threaded through a fixed pool of nodes. */
module MlfqNodes {
  import opened Procs
  import opened Mlfq

  /** struct node; `next` is a pool index, -1 for the null pointer. */
  datatype Node = Node(next: int, p: nat, use: bool)

  const NULL := -1

  /** The pool with what it stands for: `q[i]` lists the nodes of queue i in order, and
      `own[n]` says which queue node n is on (NULL for a free node). */
  datatype Pool = Pool(nodes: seq<Node>, heads: seq<int>, q: seq<seq<nat>>, own: seq<int>)

  /** The pointer to the k-th node of a list, null past its end. */
  function At(l: seq<nat>, k: nat): int { if k < |l| then l[k] else NULL }

  /** The list from `head` visits exactly the nodes `l`, in order, and ends; all are on queue i. */
  predicate List(nodes: seq<Node>, own: seq<int>, i: int, head: int, l: seq<nat>)
    requires |nodes| == |own| == NPROC
  {
    && head == At(l, 0)
    && (forall k | 0 <= k < |l| :: l[k] < NPROC && own[l[k]] == i && nodes[l[k]].next == At(l, k + 1))
    && Distinct(l)
  }

  predicate Sizes(a: Pool) {
    |a.nodes| == |a.own| == NPROC && |a.heads| == |a.q| == NUM_QUEUES
  }

  predicate Ok(a: Pool) {
    && Listed(a)
    && (forall i | 0 <= i < NUM_QUEUES :: List(a.nodes, a.own, i, a.heads[i], a.q[i]))
    && (forall n: nat | n < NPROC :: Placed(a, n))
  }

  predicate Placed(a: Pool, n: nat)
    requires Sizes(a) && n < NPROC
  {
    && NULL <= a.own[n] < NUM_QUEUES
    && (a.nodes[n].use <==> a.own[n] != NULL)
    && (a.own[n] != NULL ==> n in a.q[a.own[n]])
  }

  predicate InPool(l: seq<nat>) { forall k | 0 <= k < |l| :: l[k] < NPROC }

  /** The processes a list of nodes stands for. */
  function Slots(nodes: seq<Node>, l: seq<nat>): (r: seq<nat>)
    requires InPool(l) && |nodes| == NPROC
    ensures |r| == |l| && forall k | 0 <= k < |l| :: r[k] == nodes[l[k]].p
  {
    seq(|l|, k requires 0 <= k < |l| => nodes[l[k]].p)
  }

  predicate Listed(a: Pool) {
    Sizes(a) && forall i | 0 <= i < NUM_QUEUES :: InPool(a.q[i])
  }

  function Queues(a: Pool): (r: seq<seq<nat>>)
    requires Listed(a)
    ensures |r| == NUM_QUEUES && forall i | 0 <= i < NUM_QUEUES :: r[i] == Slots(a.nodes, a.q[i])
  {
    seq(NUM_QUEUES, i requires 0 <= i < NUM_QUEUES => Slots(a.nodes, a.q[i]))
  }

  /** Ok kept closed: code that only hands it on need not look inside. */
  ghost predicate Sound(a: Pool) { SoundBehind(a, 2) }

  ghost predicate SoundBehind(a: Pool, turns: nat) {
    if turns == 0 then Ok(a) else SoundBehind(a, turns - 1)
  }

  lemma SoundIs(a: Pool)
    ensures Sound(a) == Ok(a)
  {
    assert Sound(a) == SoundBehind(a, 1) == SoundBehind(a, 0);
  }

  function Empty(): Pool {
    Pool(seq(NPROC, i => Node(NULL, 0, false)), seq(NUM_QUEUES, i => NULL), [[], [], [], [], []], seq(NPROC, i => NULL))
  }

  lemma EmptyOk()
    ensures Ok(Empty()) && Queues(Empty()) == [[], [], [], [], []]
  {}

  /** A list none of whose nodes changed is still there, and still says the same. */
  lemma ListFrame(a: Pool, nodes: seq<Node>, own: seq<int>, i: int)
    requires Sizes(a) && |nodes| == |own| == NPROC && 0 <= i < NUM_QUEUES
    requires List(a.nodes, a.own, i, a.heads[i], a.q[i])
    requires forall n | 0 <= n < NPROC && a.own[n] == i :: nodes[n] == a.nodes[n] && own[n] == i
    ensures List(nodes, own, i, a.heads[i], a.q[i]) && Slots(nodes, a.q[i]) == Slots(a.nodes, a.q[i])
  {}

  // ----- push

  function PushNodes(nodes: seq<Node>, l: seq<nat>, n: nat, p: nat): (r: seq<Node>)
    requires |nodes| == NPROC && n < NPROC && InPool(l)
    ensures |r| == NPROC
  {
    var a := nodes[n := Node(NULL, p, true)];
    if l == [] then a else a[l[|l| - 1] := a[l[|l| - 1]].(next := n)]
  }

  function Push(a: Pool, i: nat, n: nat, p: nat): Pool
    requires Sizes(a) && i < NUM_QUEUES && n < NPROC && InPool(a.q[i])
  {
    Pool(PushNodes(a.nodes, a.q[i], n, p), a.heads[i := if a.q[i] == [] then n else a.heads[i]],
         a.q[i := a.q[i] + [n]], a.own[n := i])
  }

  lemma ListPush(nodes: seq<Node>, own: seq<int>, i: int, head: int, l: seq<nat>, n: nat, p: nat)
    requires |nodes| == |own| == NPROC && List(nodes, own, i, head, l) && n < NPROC && own[n] != i
    ensures var r := PushNodes(nodes, l, n, p);
            && List(r, own[n := i], i, if l == [] then n else head, l + [n])
            && Slots(r, l + [n]) == Slots(nodes, l) + [p]
  {
    var r, m := PushNodes(nodes, l, n, p), l + [n];
    assert m[..|l|] == l;
    DistinctPairs(l);
    assert forall k | 0 <= k < |l| :: l[k] != n;
    assert forall k | 0 <= k < |l| :: r[l[k]] == nodes[l[k]].(next := At(m, k + 1));
  }

  lemma PushPlaced(a: Pool, i: nat, n: nat, p: nat, m: nat)
    requires Sizes(a) && i < NUM_QUEUES && n < NPROC && InPool(a.q[i]) && m < NPROC
    requires a.own[n] == NULL && Placed(a, m) && forall k | 0 <= k < |a.q[i]| :: a.own[a.q[i][k]] == i && a.nodes[a.q[i][k]].use
    ensures Placed(Push(a, i, n, p), m)
  {
    if m == n {
      assert (a.q[i] + [n])[|a.q[i]|] == n;
    }
  }

  /** push onto queue i: one list grows at its end, the others do not notice. */
  lemma PoolPush(a: Pool, i: nat, n: nat, p: nat)
    requires Ok(a) && i < NUM_QUEUES && n < NPROC && !a.nodes[n].use
    ensures InPool(a.q[i])
    ensures Ok(Push(a, i, n, p)) && Queues(Push(a, i, n, p)) == Queues(a)[i := Queues(a)[i] + [p]]
  {
    assert List(a.nodes, a.own, i, a.heads[i], a.q[i]);
    assert Placed(a, n);
    var b := Push(a, i, n, p);
    forall j | 0 <= j < NUM_QUEUES
      ensures List(b.nodes, b.own, j, b.heads[j], b.q[j])
      ensures Slots(b.nodes, b.q[j]) == if j == i then Slots(a.nodes, a.q[j]) + [p] else Slots(a.nodes, a.q[j])
    {
      assert List(a.nodes, a.own, j, a.heads[j], a.q[j]);
      if j == i {
        ListPush(a.nodes, a.own, i, a.heads[i], a.q[i], n, p);
      } else {
        ListFrame(a, b.nodes, b.own, j);
      }
    }
    forall m: nat | m < NPROC
      ensures Placed(b, m)
    {
      assert forall k | 0 <= k < |a.q[i]| :: Placed(a, a.q[i][k]);
      PushPlaced(a, i, n, p, m);
    }
  }

  // ----- pop

  function Pop(a: Pool, i: nat): Pool
    requires Sizes(a) && i < NUM_QUEUES && InPool(a.q[i]) && a.q[i] != []
  {
    var n := a.q[i][0];
    Pool(a.nodes[n := a.nodes[n].(use := false)], a.heads[i := a.nodes[n].next], a.q[i := a.q[i][1..]], a.own[n := NULL])
  }

  lemma ListPop(nodes: seq<Node>, own: seq<int>, i: int, head: int, l: seq<nat>)
    requires |nodes| == |own| == NPROC && List(nodes, own, i, head, l) && l != []
    ensures var n := l[0];
            var r := nodes[n := nodes[n].(use := false)];
            List(r, own[n := NULL], i, nodes[n].next, l[1..]) && Slots(r, l[1..]) == Slots(nodes, l)[1..]
  {
    var m := l[1..];
    assert Distinct(m) && forall k | 0 <= k < |m| :: m[k] != l[0] by {
      DistinctPairs(l);
      DistinctPairs(m);
    }
    forall k | 0 <= k < |m|
      ensures m[k] < NPROC && own[m[k]] == i && nodes[m[k]].next == At(m, k + 1)
    {
      assert m[k] == l[k + 1];
    }
  }

  lemma PoolPop(a: Pool, i: nat)
    requires Ok(a) && i < NUM_QUEUES && a.q[i] != []
    ensures InPool(a.q[i])
    ensures Ok(Pop(a, i)) && Queues(Pop(a, i)) == Queues(a)[i := Queues(a)[i][1..]]
  {
    assert List(a.nodes, a.own, i, a.heads[i], a.q[i]);
    var b := Pop(a, i);
    forall j | 0 <= j < NUM_QUEUES
      ensures List(b.nodes, b.own, j, b.heads[j], b.q[j])
      ensures Slots(b.nodes, b.q[j]) == if j == i then Slots(a.nodes, a.q[j])[1..] else Slots(a.nodes, a.q[j])
    {
      assert List(a.nodes, a.own, j, a.heads[j], a.q[j]);
      if j == i {
        ListPop(a.nodes, a.own, i, a.heads[i], a.q[i]);
      } else {
        ListFrame(a, b.nodes, b.own, j);
      }
    }
    forall m: nat | m < NPROC
      ensures Placed(b, m)
    {
      PopPlaced(a, i, m);
    }
  }

  lemma PopPlaced(a: Pool, i: nat, m: nat)
    requires Sizes(a) && i < NUM_QUEUES && InPool(a.q[i]) && a.q[i] != [] && m < NPROC && Placed(a, m)
    ensures Placed(Pop(a, i), m)
  {
    assert a.q[i] == [a.q[i][0]] + a.q[i][1..];
  }

  // ----- split

  function Renamed(own: seq<int>, l: seq<nat>, i: int): (r: seq<int>)
    requires |own| == NPROC && InPool(l)
    ensures |r| == NPROC
    ensures forall n {:trigger r[n]} | 0 <= n < NPROC :: r[n] == if n in l then i else own[n]
  {
    if l == [] then own
    else
      assert l == l[..|l| - 1] + [l[|l| - 1]];
      Renamed(own, l[..|l| - 1], i)[l[|l| - 1] := i]
  }

  function SplitNodes(nodes: seq<Node>, from: seq<nat>, into: seq<nat>, k: nat): (r: seq<Node>)
    requires |nodes| == NPROC && InPool(from) && InPool(into) && 1 <= k <= |from|
    ensures |r| == NPROC
  {
    var a := nodes[from[k - 1] := nodes[from[k - 1]].(next := NULL)];
    if into == [] then a else a[into[|into| - 1] := a[into[|into| - 1]].(next := from[0])]
  }

  /** split's relinking once its first loop has walked past k >= 1 nodes of queue i. */
  function Split(a: Pool, i: nat, k: nat): Pool
    requires Sizes(a) && 1 <= i < NUM_QUEUES && InPool(a.q[i]) && InPool(a.q[i - 1]) && 1 <= k <= |a.q[i]|
  {
    Pool(SplitNodes(a.nodes, a.q[i], a.q[i - 1], k),
         a.heads[i - 1 := if a.q[i - 1] == [] then a.heads[i] else a.heads[i - 1]][i := At(a.q[i], k)],
         MoveUp(a.q, i, k), Renamed(a.own, a.q[i][..k], i - 1))
  }

  lemma SplitLists(nodes: seq<Node>, own: seq<int>, i: int, h1: int, from: seq<nat>, h0: int, into: seq<nat>, k: nat)
    requires |nodes| == |own| == NPROC && List(nodes, own, i, h1, from) && List(nodes, own, i - 1, h0, into)
    requires 1 <= k <= |from|
    ensures var r, own' := SplitNodes(nodes, from, into, k), Renamed(own, from[..k], i - 1);
            && List(r, own', i, At(from, k), from[k..])
            && List(r, own', i - 1, if into == [] then h1 else h0, into + from[..k])
            && (forall n | 0 <= n < NPROC :: r[n].p == nodes[n].p && r[n].use == nodes[n].use)
            && (forall n | 0 <= n < NPROC && own[n] != i && own[n] != i - 1 :: r[n] == nodes[n])
  {
    SplitUntouched(nodes, own, i, from, into, k);
    SplitRest(nodes, own, i, h1, from, h0, into, k);
    SplitJoined(nodes, own, i, h1, from, h0, into, k);
  }

  lemma SplitUntouched(nodes: seq<Node>, own: seq<int>, i: int, from: seq<nat>, into: seq<nat>, k: nat)
    requires |nodes| == |own| == NPROC && 1 <= k <= |from| && InPool(from) && InPool(into)
    requires own[from[k - 1]] == i && (into != [] ==> own[into[|into| - 1]] == i - 1)
    ensures var r := SplitNodes(nodes, from, into, k);
            && (forall n | 0 <= n < NPROC :: r[n].p == nodes[n].p && r[n].use == nodes[n].use)
            && (forall n | 0 <= n < NPROC && own[n] != i && own[n] != i - 1 :: r[n] == nodes[n])
  {}

  lemma SplitRest(nodes: seq<Node>, own: seq<int>, i: int, h1: int, from: seq<nat>, h0: int, into: seq<nat>, k: nat)
    requires |nodes| == |own| == NPROC && List(nodes, own, i, h1, from) && List(nodes, own, i - 1, h0, into)
    requires 1 <= k <= |from|
    ensures List(SplitNodes(nodes, from, into, k), Renamed(own, from[..k], i - 1), i, At(from, k), from[k..])
  {
    var r, m := SplitNodes(nodes, from, into, k), from[k..];
    DistinctPairs(from);
    DistinctPairs(m);
    forall j | 0 <= j < |m|
      ensures m[j] !in from[..k] && r[m[j]] == nodes[m[j]] && At(m, j + 1) == At(from, k + j + 1)
    {
      assert m[j] == from[k + j];
      assert own[m[j]] == i;
      if into != [] {
        assert own[into[|into| - 1]] == i - 1;
      }
    }
  }

  lemma SplitJoined(nodes: seq<Node>, own: seq<int>, i: int, h1: int, from: seq<nat>, h0: int, into: seq<nat>, k: nat)
    requires |nodes| == |own| == NPROC && List(nodes, own, i, h1, from) && List(nodes, own, i - 1, h0, into)
    requires 1 <= k <= |from|
    ensures List(SplitNodes(nodes, from, into, k), Renamed(own, from[..k], i - 1), i - 1,
                 if into == [] then h1 else h0, into + from[..k])
  {
    var r, own', m := SplitNodes(nodes, from, into, k), Renamed(own, from[..k], i - 1), into + from[..k];
    DistinctPairs(from);
    DistinctPairs(into);
    forall j | 0 <= j < |m|
      ensures m[j] < NPROC && own'[m[j]] == i - 1 && r[m[j]].next == At(m, j + 1)
    {
      if j < |into| {
        assert own[into[j]] == i - 1;
        assert into[j] !in from[..k];
      } else {
        assert m[j] == from[..k][j - |into|];
        assert own[m[j]] == i;
      }
    }
    forall x, y | 0 <= x < y < |m|
      ensures m[x] != m[y]
    {
      if x < |into| <= y {
        assert own[into[x]] == i - 1 && own[from[y - |into|]] == i;
      }
    }
    DistinctPairs(m);
  }

  lemma SplitPlaced(a: Pool, i: nat, k: nat, m: nat)
    requires Sizes(a) && 1 <= i < NUM_QUEUES && InPool(a.q[i]) && InPool(a.q[i - 1]) && 1 <= k <= |a.q[i]|
    requires m < NPROC && Placed(a, m)
    requires forall n | 0 <= n < NPROC :: Split(a, i, k).nodes[n].use == a.nodes[n].use
    requires m in a.q[i][..k] ==> a.own[m] == i
    ensures Placed(Split(a, i, k), m)
  {
    assert a.q[i] == a.q[i][..k] + a.q[i][k..];
  }

  lemma SplitSlots(nodes: seq<Node>, r: seq<Node>, from: seq<nat>, into: seq<nat>, k: nat)
    requires |nodes| == |r| == NPROC && InPool(from) && InPool(into) && k <= |from|
    requires forall n | 0 <= n < NPROC :: r[n].p == nodes[n].p
    ensures InPool(from[k..]) && Slots(r, from[k..]) == Slots(nodes, from)[k..]
    ensures InPool(into + from[..k]) && Slots(r, into + from[..k]) == Slots(nodes, into) + Slots(nodes, from)[..k]
  {}

  lemma SplitMoved(a: Pool, i: nat, k: nat)
    requires Listed(a) && 1 <= i < NUM_QUEUES && 1 <= k <= |a.q[i]|
    requires List(a.nodes, a.own, i, a.heads[i], a.q[i]) && List(a.nodes, a.own, i - 1, a.heads[i - 1], a.q[i - 1])
    ensures var b := Split(a, i, k);
            && List(b.nodes, b.own, i, b.heads[i], b.q[i])
            && List(b.nodes, b.own, i - 1, b.heads[i - 1], b.q[i - 1])
            && Slots(b.nodes, b.q[i]) == Slots(a.nodes, a.q[i])[k..]
            && Slots(b.nodes, b.q[i - 1]) == Slots(a.nodes, a.q[i - 1]) + Slots(a.nodes, a.q[i])[..k]
  {
    SplitLists(a.nodes, a.own, i, a.heads[i], a.q[i], a.heads[i - 1], a.q[i - 1], k);
    SplitSlots(a.nodes, Split(a, i, k).nodes, a.q[i], a.q[i - 1], k);
  }

  lemma SplitOther(a: Pool, i: nat, k: nat, j: nat)
    requires Listed(a) && 1 <= i < NUM_QUEUES && 1 <= k <= |a.q[i]| && j < NUM_QUEUES && j != i && j != i - 1
    requires List(a.nodes, a.own, i, a.heads[i], a.q[i]) && List(a.nodes, a.own, i - 1, a.heads[i - 1], a.q[i - 1])
    requires List(a.nodes, a.own, j, a.heads[j], a.q[j])
    ensures var b := Split(a, i, k);
            && List(b.nodes, b.own, j, b.heads[j], b.q[j])
            && Slots(b.nodes, b.q[j]) == Slots(a.nodes, a.q[j])
  {
    var b, moved := Split(a, i, k), a.q[i][..k];
    SplitUntouched(a.nodes, a.own, i, a.q[i], a.q[i - 1], k);
    assert forall x | 0 <= x < |moved| :: a.own[moved[x]] == i;
    ListFrame(a, b.nodes, b.own, j);
  }

  lemma PoolSplit(a: Pool, i: nat, k: nat)
    requires Ok(a) && 1 <= i < NUM_QUEUES && 1 <= k <= |a.q[i]|
    ensures InPool(a.q[i]) && InPool(a.q[i - 1])
    ensures Ok(Split(a, i, k)) && Queues(Split(a, i, k)) == MoveUp(Queues(a), i, k)
  {
    assert List(a.nodes, a.own, i, a.heads[i], a.q[i]) && List(a.nodes, a.own, i - 1, a.heads[i - 1], a.q[i - 1]);
    var b := Split(a, i, k);
    forall j: nat | j < NUM_QUEUES
      ensures List(b.nodes, b.own, j, b.heads[j], b.q[j])
      ensures Slots(b.nodes, b.q[j]) == MoveUp(Queues(a), i, k)[j]
    {
      if j == i || j == i - 1 {
        SplitMoved(a, i, k);
      } else {
        SplitOther(a, i, k, j);
      }
    }
    SplitUntouched(a.nodes, a.own, i, a.q[i], a.q[i - 1], k);
    forall m: nat | m < NPROC
      ensures Placed(b, m)
    {
      SplitPlaced(a, i, k, m);
    }
  }

  // ----- There is always a free node

  /** The node pool can never run out: a process about to be pushed is on no queue, and every used
      node holds a different one of the other processes. */
  lemma FreeNodeExists(a: Pool, procs: seq<Proc>, p: nat)
    requires Ok(a) && |procs| == NPROC && p < NPROC && procs[p].state != RUNNABLE
    requires forall i | 0 <= i < NUM_QUEUES :: QueueOk(procs, i, Queues(a)[i])
    ensures exists n :: 0 <= n < NPROC && !a.nodes[n].use
  {
    if forall n | 0 <= n < NPROC :: a.nodes[n].use {
      var s: seq<nat> := seq(NPROC, n requires 0 <= n < NPROC => a.nodes[n].p);
      forall n: nat | n < NPROC
        ensures s[n] < NPROC && procs[s[n]].state == RUNNABLE && procs[s[n]].queue == a.own[n]
      {
        UsedNode(a, procs, n);
      }
      forall j, k | 0 <= j < k < NPROC
        ensures s[j] != s[k]
      {
        UsedNodesDiffer(a, procs, j, k);
      }
      Pigeonhole(s + [p], NPROC);
      assert false;
    }
  }

  lemma UsedNode(a: Pool, procs: seq<Proc>, n: nat)
    requires Ok(a) && |procs| == NPROC && n < NPROC && a.nodes[n].use
    requires forall i | 0 <= i < NUM_QUEUES :: QueueOk(procs, i, Queues(a)[i])
    ensures var p := a.nodes[n].p; p < NPROC && procs[p].state == RUNNABLE && procs[p].queue == a.own[n]
  {
    assert Placed(a, n);
    var i := a.own[n];
    var k :| 0 <= k < |a.q[i]| && a.q[i][k] == n;
    assert QueueOk(procs, i, Queues(a)[i]);
    assert Queues(a)[i][k] == a.nodes[n].p;
  }

  lemma UsedNodesDiffer(a: Pool, procs: seq<Proc>, m: nat, n: nat)
    requires Ok(a) && |procs| == NPROC && m < NPROC && n < NPROC && m != n && a.nodes[m].use && a.nodes[n].use
    requires forall i | 0 <= i < NUM_QUEUES :: QueueOk(procs, i, Queues(a)[i])
    ensures a.nodes[m].p != a.nodes[n].p
  {
    UsedNode(a, procs, m);
    UsedNode(a, procs, n);
    if a.own[m] == a.own[n] {
      var i := a.own[n];
      assert Placed(a, m) && Placed(a, n);
      var j :| 0 <= j < |a.q[i]| && a.q[i][j] == m;
      var k :| 0 <= k < |a.q[i]| && a.q[i][k] == n;
      assert QueueOk(procs, i, Queues(a)[i]);
      DistinctPairs(Queues(a)[i]);
      assert Queues(a)[i][j] == a.nodes[m].p && Queues(a)[i][k] == a.nodes[n].p;
    }
  }
}
