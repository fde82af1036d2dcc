/** proc.c, queue.c and trap.c under the MLFQ scheduler: the code on its own data structures,
    proved against the state machine of Mlfq. */
module MlfqKernel {
  import opened Procs
  import opened Mlfq
  import opened MlfqNodes
  import opened MlfqWakeups

  /** Node k of l points at node k + 1 and holds slots[k]. */
  ghost predicate Chain(nodes: seq<Node>, l: seq<nat>, slots: seq<nat>) {
    |slots| == |l| && forall k | 0 <= k < |l| :: l[k] < |nodes| && nodes[l[k]].next == At(l, k + 1) && nodes[l[k]].p == slots[k]
  }

  /** Inv kept closed: code that only hands it on need not look inside. */
  ghost predicate Good(s: Sched) { GoodBehind(s, 1) }

  ghost predicate GoodBehind(s: Sched, turns: nat) {
    if turns == 0 then Inv(s) else GoodBehind(s, turns - 1)
  }

  /** How a turn of wait ends. */
  datatype WaitEnd = Collected(pid: int) | NoChild | Slept

  /** Exactly the sleepers on chan became ready, stamped now. */
  ghost predicate WokenOn(ps: seq<Proc>, qs: seq<Proc>, chan: int, ticks: nat) {
    |ps| == |qs| && forall p | 0 <= p < |ps| :: qs[p] == if SleepsOn(ps[p], chan) then Awake(ps[p], ticks) else ps[p]
  }

  lemma WakeAll(s: Sched, chan: int)
    requires Shape(s)
    ensures WokenOn(s.procs, WakeFrom(s, chan, 0).procs, chan, s.ticks)
  {
    forall p: nat | p < NPROC
      ensures WakeFrom(s, chan, 0).procs[p] == if SleepsOn(s.procs[p], chan) then Awake(s.procs[p], s.ticks) else s.procs[p]
    {
      WakeFromOn(s, chan, 0, p);
    }
  }

  /** surplus_nodes[], queues[] and ptable.proc[], with the clock. The ghost fields name the nodes
      on each queue and the queue each node is on. */
  class Kernel {
    const nodes: array<Node>
    const heads: array<int>
    const procs: array<Proc>
    var ticks: nat
    var init: nat
    var nextpid: int
    ghost var q: seq<seq<nat>>
    ghost var own: seq<int>

    ghost function PoolOf(): Pool
      reads this, nodes, heads
    {
      Pool(nodes[..], heads[..], q, own)
    }

    ghost predicate WellFormed()
      reads this, nodes, heads, procs
    {
      && nodes.Length == NPROC && heads.Length == NUM_QUEUES && procs.Length == NPROC
      && Listed(PoolOf()) && Sound(PoolOf())
    }

    /** What the machine state stands for. */
    ghost function View(): Sched
      requires WellFormed()
      reads this, nodes, heads, procs
    {
      Sched(procs[..], Queues(PoolOf()), ticks, init, nextpid)
    }

    ghost predicate Valid()
      reads this, nodes, heads, procs
    {
      WellFormed() && Shape(View()) && Good(View())
    }

    /** pinit: no node in use, every queue and every table slot empty. */
    constructor ()
      ensures Valid() && fresh(nodes) && fresh(heads) && fresh(procs)
      ensures View() == Boot()
    {
      nodes := new Node[NPROC](i => Node(NULL, 0, false));
      heads := new int[NUM_QUEUES](i => NULL);
      procs := new Proc[NPROC](i => Proc(UNUSED, 0, -1, 0, false, 0, 0, 0, false, 0));
      ticks, init, nextpid := 0, 0, 1;
      q, own := Empty().q, Empty().own;
      new;
      EmptyOk();
      SoundIs(Empty());
      BootInv();
      assert nodes[..] == Empty().nodes;
      assert heads[..] == Empty().heads;
      assert procs[..] == Boot().procs;
    }

    // ----- queue.c

    method QAlloc() returns (n: int)
      requires nodes.Length == NPROC
      modifies nodes
      ensures n == NULL ==> nodes[..] == old(nodes[..]) && forall m | 0 <= m < NPROC :: nodes[m].use
      ensures n != NULL ==> 0 <= n < NPROC && !old(nodes[n].use)
      ensures n != NULL ==> nodes[..] == old(nodes[..])[n := old(nodes[n]).(use := true)]
    {
      for i := 0 to NPROC
        invariant nodes[..] == old(nodes[..])
        invariant forall m | 0 <= m < i :: nodes[m].use
      {
        if !nodes[i].use {
          nodes[i] := nodes[i].(use := true);
          return i;
        }
      }
      return NULL;
    }

    method QFree(n: nat)
      requires n < nodes.Length
      modifies nodes
      ensures nodes[..] == old(nodes[..])[n := old(nodes[n]).(use := false)]
    {
      nodes[n] := nodes[n].(use := false);
    }

    /** push: the list `l` from `head` gets a fresh node for p at its end. */
    method Push(head: int, p: nat, ghost i: int, ghost l: seq<nat>) returns (h: int, ghost n: nat)
      requires nodes.Length == NPROC && |own| == NPROC && List(nodes[..], own, i, head, l)
      requires forall k | 0 <= k < |l| :: nodes[l[k]].use
      requires exists m :: 0 <= m < NPROC && !nodes[m].use
      modifies nodes
      ensures n < NPROC && !old(nodes[n].use)
      ensures nodes[..] == PushNodes(old(nodes[..]), l, n, p)
      ensures h == if l == [] then n else head
    {
      var node := QAlloc();
      n := node;
      nodes[node] := nodes[node].(p := p, next := NULL);
      ghost var a := nodes[..];
      assert a == old(nodes[..])[n := Node(NULL, p, true)];
      assert forall k | 0 <= k < |l| :: l[k] != n;
      if head == NULL {
        return node, n;
      }
      var cur := head;
      ghost var k := 0;
      while nodes[cur].next != NULL
        invariant 0 <= k < |l| && cur == l[k] && nodes[..] == a
        decreases |l| - k
      {
        cur, k := nodes[cur].next, k + 1;
      }
      nodes[cur] := nodes[cur].(next := node);
      return head, n;
    }

    method Pop(head: int) returns (h: int)
      requires head == NULL || 0 <= head < nodes.Length
      modifies nodes
      ensures head == NULL ==> h == NULL && nodes[..] == old(nodes[..])
      ensures head != NULL ==> h == old(nodes[head].next) && nodes[..] == old(nodes[..])[head := old(nodes[head]).(use := false)]
    {
      if head == NULL {
        return NULL;
      }
      h := nodes[head].next;
      QFree(head);
    }

    method Length(head: int, ghost i: int, ghost l: seq<nat>) returns (count: nat)
      requires nodes.Length == NPROC && |own| == NPROC && List(nodes[..], own, i, head, l)
      ensures count == |l|
    {
      count := 0;
      var cur := head;
      while cur != NULL
        invariant count <= |l| && cur == At(l, count)
        decreases |l| - count
      {
        cur := nodes[cur].next;
        count := count + 1;
      }
    }

    /** The first loop of split: walk and restamp the prefix that has waited too long. */
    method WalkOld(i: nat, ghost l: seq<nat>, ghost slots: seq<nat>) returns (cur: int, prev: int, k: nat)
      requires nodes.Length == NPROC && procs.Length == NPROC && i < heads.Length && heads[i] == At(l, 0)
      requires Chain(nodes[..], l, slots) && QueueOk(procs[..], i, slots)
      modifies procs
      ensures k == OldPrefix(old(procs[..]), ticks, slots)
      ensures cur == At(l, k) && prev == if k == 0 then NULL else l[k - 1]
      ensures procs[..] == Promote(old(procs[..]), ticks, slots[..k])
    {
      ghost var start := procs[..];
      cur, prev, k := heads[i], NULL, 0;
      while cur != NULL && ticks - procs[nodes[cur].p].age > AGE_LIMIT
        invariant k <= |l| && cur == At(l, k) && prev == if k == 0 then NULL else l[k - 1]
        invariant procs[..] == Promote(start, ticks, slots[..k])
        invariant forall j | 0 <= j < k :: ticks - start[slots[j]].age > AGE_LIMIT
        decreases |l| - k
      {
        var p := nodes[cur].p;
        ghost var now := procs[..];
        var lifted := Lift(procs[p], ticks);
        procs[p] := lifted;
        assert procs[..] == now[p := lifted];
        PromoteNext(start, ticks, slots, k);
        prev, cur, k := cur, nodes[cur].next, k + 1;
      }
      if k < |l| {
        PromoteNext(start, ticks, slots, k);
      }
      OldPrefixIs(start, ticks, slots, k);
    }

    /** The last node of a nonempty list. */
    method FindEnd(head: int, ghost i: int, ghost l: seq<nat>) returns (end: nat)
      requires nodes.Length == NPROC && |own| == NPROC && List(nodes[..], own, i, head, l) && l != []
      ensures end == l[|l| - 1]
    {
      end := head;
      ghost var k := 0;
      while nodes[end].next != NULL
        invariant 0 <= k < |l| && end == l[k]
        decreases |l| - k
      {
        end, k := nodes[end].next, k + 1;
      }
    }

    /** split's stores: cut the walked prefix after prev and hang it on queue i - 1. */
    method RelinkNodes(i: nat, cur: int, prev: nat, ghost from: seq<nat>, ghost into: seq<nat>, ghost k: nat)
      requires nodes.Length == NPROC && heads.Length == NUM_QUEUES && |own| == NPROC && 1 <= i < NUM_QUEUES
      requires List(nodes[..], own, i, heads[i], from) && List(nodes[..], own, i - 1, heads[i - 1], into)
      requires 1 <= k <= |from| && prev == from[k - 1]
      modifies nodes, heads
      ensures nodes[..] == SplitNodes(old(nodes[..]), from, into, k)
      ensures heads[..] == old(heads[..])[i - 1 := if into == [] then old(heads[i]) else old(heads[i - 1])][i := cur]
    {
      ghost var ns := nodes[..];
      if heads[i - 1] != NULL {
        var end := FindEnd(heads[i - 1], i - 1, into);
        nodes[prev] := nodes[prev].(next := NULL);
        assert nodes[..] == ns[prev := ns[prev].(next := NULL)];
        nodes[end] := nodes[end].(next := heads[i]);
      } else {
        nodes[prev] := nodes[prev].(next := NULL);
        heads[i - 1] := heads[i];
      }
      heads[i] := cur;
    }

    /** split's relinking: the first k nodes of queue i, up to prev, go to the end of queue i - 1. */
    method Relink(i: nat, cur: int, prev: nat, ghost k: nat)
      requires WellFormed() && 1 <= i < NUM_QUEUES && 1 <= k <= |q[i]|
      requires cur == At(q[i], k) && prev == q[i][k - 1]
      modifies this`q, this`own, nodes, heads
      ensures WellFormed() && Queues(PoolOf()) == MoveUp(old(Queues(PoolOf())), i, k)
    {
      ghost var a := PoolOf();
      SoundIs(a);
      PoolSplit(a, i, k);
      SoundIs(Split(a, i, k));
      assert List(a.nodes, a.own, i, a.heads[i], a.q[i]) && List(a.nodes, a.own, i - 1, a.heads[i - 1], a.q[i - 1]);
      RelinkNodes(i, cur, prev, q[i], q[i - 1], k);
      q, own := MoveUp(q, i, k), Renamed(own, a.q[i][..k], i - 1);
      assert PoolOf() == Split(a, i, k);
    }

    method SplitQueue(i: nat) returns (count: nat)
      requires WellFormed() && Lists(View()) && 1 <= i < NUM_QUEUES && QueueOk(procs[..], i, Queues(PoolOf())[i])
      modifies this`q, this`own, nodes, heads, procs
      ensures WellFormed() && View() == AgeLevel(old(View()), i)
      ensures count == OldPrefix(old(procs[..]), ticks, old(View()).queues[i])
    {
      ghost var a, s := PoolOf(), View();
      SoundIs(a);
      assert List(a.nodes, a.own, i, a.heads[i], a.q[i]);
      var cur, prev, k := WalkOld(i, q[i], s.queues[i]);
      count := k;
      if prev == NULL {
        MoveUpNothing(s.queues, i);
        return;
      }
      Relink(i, cur, prev, k);
    }

    /** split(&queues[i], &queues[i - 1], AGE_LIMIT) */
    method SplitLevel(i: nat) returns (count: nat)
      requires Valid() && 1 <= i < NUM_QUEUES
      modifies this`q, this`own, nodes, heads, procs
      ensures Valid() && View() == AgeLevel(old(View()), i)
    {
      assert GoodBehind(View(), 0);
      AgeLevelKeepsInv(View(), i);
      count := SplitQueue(i);
    }

    /** queues[i] = push(queues[i], p) */
    method PushProc(i: nat, p: nat)
      requires WellFormed() && i < NUM_QUEUES && exists m :: 0 <= m < NPROC && !nodes[m].use
      modifies this`q, this`own, nodes, heads
      ensures WellFormed() && Queues(PoolOf()) == old(Queues(PoolOf()))[i := old(Queues(PoolOf()))[i] + [p]]
    {
      ghost var a := PoolOf();
      SoundIs(a);
      assert List(a.nodes, a.own, i, a.heads[i], a.q[i]);
      assert forall k | 0 <= k < |q[i]| :: Placed(a, q[i][k]);
      var h: int;
      ghost var n: nat;
      h, n := Push(heads[i], p, i, q[i]);
      heads[i] := h;
      PoolPush(a, i, n, p);
      SoundIs(MlfqNodes.Push(a, i, n, p));
      q, own := q[i := q[i] + [n]], own[n := i];
      ghost var b := MlfqNodes.Push(a, i, n, p);
      assert nodes[..] == b.nodes;
      assert heads[..] == b.heads;
    }

    /** Make the record of p be pr and push it on the level pr names. */
    method EnqueueProc(p: nat, pr: Proc)
      requires Valid() && p < NPROC && ProcOk(pr, ticks)
      requires procs[p].state != RUNNABLE && pr.state == RUNNABLE && (pr.queue == 0 || pr.age == ticks)
      modifies this`q, this`own, nodes, heads, procs
      ensures Valid() && View() == Enqueue(old(View()), p, pr)
    {
      ghost var s := View();
      assert GoodBehind(s, 0);
      SoundIs(PoolOf());
      EnqueueKeepsInv(s, p, pr);
      FreeNodeExists(PoolOf(), s.procs, p);
      procs[p] := pr;
      assert procs[..] == s.procs[p := pr];
      PushProc(pr.queue, p);
    }

    /** Rewrite a record that is on no queue before or after. */
    method SetRecord(p: nat, pr: Proc)
      requires Valid() && p < NPROC && ProcOk(pr, ticks) && procs[p].state != RUNNABLE && pr.state != RUNNABLE
      modifies procs
      ensures Valid() && View() == SetProc(old(View()), p, pr)
    {
      assert GoodBehind(View(), 0);
      SetProcKeepsInv(View(), p, pr);
      ghost var s := procs[..];
      procs[p] := pr;
      assert procs[..] == s[p := pr];
    }

    /** p = queues[i]->p; queues[i] = pop(queues[i]) */
    method PopQueue(i: nat) returns (p: nat)
      requires WellFormed() && i < NUM_QUEUES && q[i] != []
      modifies this`q, this`own, nodes, heads
      ensures WellFormed()
      ensures old(Queues(PoolOf()))[i] != [] && p == old(Queues(PoolOf()))[i][0]
      ensures Queues(PoolOf()) == old(Queues(PoolOf()))[i := old(Queues(PoolOf()))[i][1..]]
    {
      ghost var a := PoolOf();
      SoundIs(a);
      assert List(a.nodes, a.own, i, a.heads[i], a.q[i]);
      PoolPop(a, i);
      SoundIs(MlfqNodes.Pop(a, i));
      p := nodes[heads[i]].p;
      var h := Pop(heads[i]);
      heads[i] := h;
      ghost var b := MlfqNodes.Pop(a, i);
      q, own := b.q, b.own;
      assert nodes[..] == b.nodes;
      assert heads[..] == b.heads;
    }

    // ----- proc.c and trap.c, one critical section each: the steps of Mlfq.Do

    lemma RecordOk(p: nat)
      requires Valid() && p < NPROC
      ensures ProcOk(procs[p], ticks)
    {
      assert GoodBehind(View(), 0);
      assert ProcOk(View().procs[p], ticks);
    }

    /** wakeup1 */
    method Wakeup1(chan: int)
      requires Valid()
      modifies this`q, this`own, nodes, heads, procs
      ensures Valid() && View() == WakeFrom(old(View()), chan, 0)
      ensures WokenOn(old(procs[..]), procs[..], chan, ticks)
    {
      ghost var s := View();
      WakeAll(s, chan);
      for j := 0 to NPROC
        invariant Valid() && WakeFrom(View(), chan, j) == WakeFrom(s, chan, 0)
      {
        if procs[j].state == SLEEPING && procs[j].chan == chan {
          RecordOk(j);
          EnqueueProc(j, procs[j].(state := RUNNABLE, slices := 0, age := ticks));
        }
      }
    }

    /** kill's scan: the first slot with that pid, or NPROC. */
    method FindPid(pid: int) returns (j: nat)
      requires procs.Length == NPROC
      ensures j <= NPROC && (j < NPROC ==> procs[j].pid == pid) && forall k | 0 <= k < j :: procs[k].pid != pid
    {
      j := 0;
      while j < NPROC && procs[j].pid != pid
        invariant j <= NPROC && forall k | 0 <= k < j :: procs[k].pid != pid
      {
        j := j + 1;
      }
    }

    /** kill: 0 if some process has that pid, else -1. */
    method KillPid(pid: int) returns (r: int)
      requires Valid()
      modifies this`q, this`own, nodes, heads, procs
      ensures Valid() && View() == KillFrom(old(View()), pid, 0)
      ensures r == if exists k :: 0 <= k < NPROC && old(procs[k].pid) == pid then 0 else -1
      ensures r == 0 ==> exists p: nat :: FirstWith(old(View()), pid, p) && procs[p].killed && procs[p].state != SLEEPING
    {
      var j := FindPid(pid);
      KillSkips(View(), pid, j);
      if j == NPROC {
        return -1;
      }
      assert FirstWith(View(), pid, j);
      KillSlot(j);
      return 0;
    }

    /** kill once the process has been found. */
    method KillSlot(j: nat)
      requires Valid() && j < NPROC
      modifies this`q, this`own, nodes, heads, procs
      ensures Valid()
      ensures var t := SetProc(old(View()), j, old(procs[j]).(killed := true));
              View() == if t.procs[j].state == SLEEPING then Ready(t, j) else t
    {
      Relabel(j, procs[j].(killed := true));
      if procs[j].state == SLEEPING {
        RecordOk(j);
        EnqueueProc(j, procs[j].(state := RUNNABLE, slices := 0, age := ticks));
      }
    }

    /** Change only labels (pid, parent, channel, killed) of a record. */
    method Relabel(p: nat, pr: Proc)
      requires Valid() && p < NPROC
      requires pr == procs[p].(pid := pr.pid, parent := pr.parent, chan := pr.chan, killed := pr.killed)
      modifies procs
      ensures Valid() && View() == SetProc(old(View()), p, pr)
    {
      assert GoodBehind(View(), 0);
      RelabelKeepsInv(View(), p, pr);
      ghost var ps := procs[..];
      procs[p] := pr;
      assert procs[..] == ps[p := pr];
    }

    method ReparentSlot(p: nat, j: nat)
      requires Valid() && j < NPROC
      modifies this`q, this`own, nodes, heads, procs
      ensures Valid() && View() == ReparentOne(old(View()), p, j)
    {
      if procs[j].parent == p {
        Relabel(j, procs[j].(parent := init));
        if procs[j].state == ZOMBIE {
          Wakeup1(Addr(init));
        }
      }
    }

    method ReparentAll(p: nat)
      requires Valid()
      modifies this`q, this`own, nodes, heads, procs
      ensures Valid() && View() == Reparent(old(View()), p, 0)
    {
      ghost var t := View();
      for j := 0 to NPROC
        invariant Valid() && Reparent(View(), p, j) == Reparent(t, p, 0)
      {
        ReparentSlot(p, j);
      }
    }

    /** The critical section of exit, up to the switch away. */
    method ExitCurrent(p: nat)
      requires Valid() && Enabled(View(), Exit(p))
      modifies this`q, this`own, nodes, heads, procs
      ensures Valid() && View() == ExitProc(old(View()), p)
    {
      assert GoodBehind(View(), 0);
      WakeLeaves(View(), Addr(procs[p].parent), 0, p);
      Wakeup1(Addr(procs[p].parent));
      assert GoodBehind(View(), 0);
      ReparentKeepsInv(View(), p, 0);
      ReparentAll(p);
      RecordOk(p);
      SetRecord(p, procs[p].(state := ZOMBIE));
    }

    /** The aging loop of the scheduler. */
    method AgeAll()
      requires Valid()
      modifies this`q, this`own, nodes, heads, procs
      ensures Valid() && View() == AgeFrom(old(View()), 1)
    {
      ghost var s := View();
      for i := 1 to NUM_QUEUES
        invariant Valid() && AgeFrom(View(), i) == AgeFrom(s, 1)
      {
        var count := SplitLevel(i);
      }
    }

    /** The scheduler's scan: pop the first process of the first nonempty queue. */
    method PopFirst() returns (p: int)
      requires WellFormed()
      modifies this`q, this`own, nodes, heads
      ensures WellFormed()
      ensures var qs := old(Queues(PoolOf()));
              var i := Level(qs, 0);
              if i == NUM_QUEUES then p == -1 && Queues(PoolOf()) == qs
              else p == qs[i][0] && Queues(PoolOf()) == qs[i := qs[i][1..]]
    {
      ghost var qs := Queues(PoolOf());
      for i := 0 to NUM_QUEUES
        invariant WellFormed() && Queues(PoolOf()) == qs && Level(qs, i) == Level(qs, 0)
      {
        ghost var a := PoolOf();
        SoundIs(a);
        assert List(a.nodes, a.own, i, a.heads[i], a.q[i]);
        var n := Length(heads[i], i, q[i]);
        if n != 0 {
          p := PopQueue(i);
          return;
        }
      }
      return -1;
    }

    /** The rest of the scheduler's turn: run what was popped, unless it is not RUNNABLE. */
    method RunNext() returns (p: int)
      requires WellFormed() && Lists(View())
      modifies this`q, this`own, nodes, heads, procs
      ensures WellFormed() && View() == Select(old(View()))
      ensures p == if Level(old(View()).queues, 0) == NUM_QUEUES then -1 else old(View()).queues[Level(old(View()).queues, 0)][0]
    {
      ghost var ps := procs[..];
      p := PopFirst();
      if p == -1 || procs[p].state != RUNNABLE {
        return;
      }
      procs[p] := procs[p].(state := RUNNING, slices := procs[p].slices + 1, timers := 0);
      assert procs[..] == ps[p := procs[p]];
    }

    method SelectNext() returns (p: int)
      requires Valid()
      modifies this`q, this`own, nodes, heads, procs
      ensures Valid() && View() == Select(old(View()))
      ensures p == -1 ==> forall x | 0 <= x < NPROC :: procs[x].state != RUNNABLE
      ensures p != -1 ==> 0 <= p < NPROC && procs[p].state == RUNNING
    {
      ghost var s := View();
      assert GoodBehind(s, 0);
      SelectKeepsInv(s);
      SelectPicksLowest(s);
      p := RunNext();
    }

    /** One turn of the scheduler up to the switch; -1 when there is nothing to run. */
    method Schedule() returns (p: int)
      requires Valid()
      modifies this`q, this`own, nodes, heads, procs
      ensures Valid() && View() == Select(AgeFrom(old(View()), 1))
      ensures p == -1 ==> forall x | 0 <= x < NPROC :: procs[x].state != RUNNABLE
      ensures p != -1 ==> 0 <= p < NPROC && procs[p].state == RUNNING
    {
      AgeAll();
      p := SelectNext();
    }

    /** "Back from p" after yield: requeue, one level down if the process was punished. */
    method YieldCurrent(p: nat)
      requires Valid() && Enabled(View(), Yield(p))
      modifies this`q, this`own, nodes, heads, procs
      ensures Valid() && View() == Enqueue(old(View()), p, AfterYield(old(procs[p]), ticks))
    {
      RecordOk(p);
      var pr := procs[p].(state := RUNNABLE);
      if !pr.punish {
        pr := pr.(slices := 0, age := ticks);
      } else {
        pr := pr.(slices := 0, punish := false, age := ticks);
        if pr.queue != NUM_QUEUES - 1 {
          pr := pr.(queue := pr.queue + 1);
        }
      }
      EnqueueProc(p, pr);
    }

    /** trap() on a timer interrupt while p runs; true if p must now yield. */
    method TimerInterrupt(p: nat) returns (mustYield: bool)
      requires Valid() && Enabled(View(), TimerTrap(p))
      modifies procs
      ensures Valid() && View() == SetProc(old(View()), p, AfterTimer(old(procs[p])))
      ensures mustYield == procs[p].punish
    {
      RecordOk(p);
      var pr := procs[p];
      mustYield := pr.slices >= TimeSlice(pr.queue);
      if mustYield {
        SetRecord(p, pr.(punish := true, timers := pr.timers + 1));
      } else {
        SetRecord(p, pr.(slices := pr.slices + 1, timers := pr.timers + 1));
      }
    }

    method SleepCurrent(p: nat, chan: int)
      requires Valid() && Enabled(View(), Sleep(p, chan))
      modifies procs
      ensures Valid() && View() == SetProc(old(View()), p, old(procs[p]).(state := SLEEPING, chan := chan))
    {
      RecordOk(p);
      SetRecord(p, procs[p].(chan := chan, state := SLEEPING));
    }

    /** The critical section of allocproc; -1 when the table is full. */
    method AllocProc() returns (p: int)
      requires Valid()
      modifies this`nextpid, procs
      ensures Valid() && View() == AllocSlot(old(View()))
      ensures p == -1 <==> forall x | 0 <= x < NPROC :: old(procs[x].state) != UNUSED
      ensures p != -1 ==> 0 <= p < NPROC && procs[p].state == EMBRYO && procs[p].pid == old(nextpid)
      ensures p != -1 ==> old(procs[p].state) == UNUSED && forall x | 0 <= x < p :: old(procs[x].state) != UNUSED
    {
      ghost var s := View();
      for j := 0 to NPROC
        invariant Valid() && View() == s && FindUnused(s.procs, j) == FindUnused(s.procs, 0)
        invariant forall x | 0 <= x < j :: procs[x].state != UNUSED
      {
        if procs[j].state == UNUSED {
          RecordOk(j);
          SetRecord(j, procs[j].(state := EMBRYO, pid := nextpid, age := ticks, slices := 0, punish := false, queue := 0));
          assert GoodBehind(View(), 0);
          NextPidKeepsInv(View(), nextpid + 1);
          nextpid := nextpid + 1;
          return j;
        }
      }
      return -1;
    }

    /** The last critical section of fork. */
    method ForkReadyChild(p: nat, parent: int)
      requires Valid() && Enabled(View(), ForkReady(p, parent))
      modifies this`q, this`own, nodes, heads, procs
      ensures Valid() && View() == Enqueue(old(View()), p, old(procs[p]).(state := RUNNABLE, parent := parent))
    {
      RecordOk(p);
      EnqueueProc(p, procs[p].(parent := parent, state := RUNNABLE));
    }

    /** What wait does to a zombie child it has found. */
    method ReapChild(p: nat)
      requires Valid() && Enabled(View(), Reap(p))
      modifies procs
      ensures Valid()
      ensures View() == SetProc(old(View()), p, old(procs[p]).(state := UNUSED, pid := 0, parent := -1, killed := false))
    {
      RecordOk(p);
      SetRecord(p, procs[p].(pid := 0, parent := -1, killed := false, state := UNUSED));
    }

    /** wait's scan: has p children, and which is the first zombie among them? -1 if none is. */
    method FindChild(p: nat) returns (kids: bool, z: int)
      requires procs.Length == NPROC
      ensures kids <==> exists k :: 0 <= k < NPROC && procs[k].parent == p
      ensures -1 <= z < NPROC && (z >= 0 ==> procs[z].parent == p && procs[z].state == ZOMBIE)
      ensures forall k | 0 <= k < (if z >= 0 then z else NPROC) :: !(procs[k].parent == p && procs[k].state == ZOMBIE)
    {
      kids := false;
      for k := 0 to NPROC
        invariant kids <==> exists j :: 0 <= j < k && procs[j].parent == p
        invariant forall j | 0 <= j < k :: !(procs[j].parent == p && procs[j].state == ZOMBIE)
      {
        if procs[k].parent == p {
          kids := true;
          if procs[k].state == ZOMBIE {
            return kids, k;
          }
        }
      }
      return kids, -1;
    }

    /** One turn of wait's loop by the running process p: collect a zombie child; fail without children or
        when killed; else sleep on its own record, which is then a sleep that misses no exit. */
    method WaitTurn(p: nat) returns (r: WaitEnd)
      requires Valid() && p < NPROC && procs[p].state == RUNNING && !procs[p].punish
      modifies procs
      ensures Valid()
      ensures r.Collected? <==> ZombieChild(old(View()), p, 0)
      ensures r.Collected? ==>
        exists z: nat ::
          && z < NPROC && old(procs[z].parent) == p && old(procs[z].state) == ZOMBIE && r.pid == old(procs[z].pid)
          && View() == Do(old(View()), Reap(z))
      ensures r.NoChild? ==> View() == old(View())
      ensures r.NoChild? <==>
        !ZombieChild(old(View()), p, 0) && (procs[p].killed || forall k | 0 <= k < NPROC :: old(procs[k].parent) != p)
      ensures r.Slept? ==> View() == Do(old(View()), Sleep(p, Addr(p))) && Proper(old(View()), Sleep(p, Addr(p)))
    {
      var kids, z := FindChild(p);
      if z >= 0 {
        var pid := procs[z].pid;
        ReapChild(z);
        return Collected(pid);
      }
      if !kids || procs[p].killed {
        return NoChild;
      }
      SleepCurrent(p, Addr(p));
      return Slept;
    }

    /** The clock, on the timer interrupt of CPU 0. */
    method TickClock()
      requires Valid()
      modifies this`ticks
      ensures Valid() && View() == old(View()).(ticks := old(ticks) + 1)
    {
      assert GoodBehind(View(), 0);
      TickKeepsInv(View());
      ticks := ticks + 1;
    }
  }
}
