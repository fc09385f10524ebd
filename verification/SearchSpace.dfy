/** The registry of states and the nodes of a search, whose parent pointers yield plans
    (state_registry.cc:23-102, search_space.cc:38-143). */
module SearchSpace {
  import opened Sas

  // ---- registry ----

  class StateRegistry {
    const t: Task
    /** The states in the order of their registration; the position is the id. */
    var pool: seq<State>
    /** The ids, looked up by the contents of their states. */
    var registered: map<State, nat>

    ghost predicate Valid()
      reads this
    {
      && (forall s | s in registered :: registered[s] < |pool| && pool[registered[s]] == s)
      && (forall i | 0 <= i < |pool| :: pool[i] in registered && registered[pool[i]] == i)
    }

    constructor (task: Task)
      ensures t == task && Valid() && pool == []
    {
      t, pool, registered := task, [], map[];
    }

    /** insert_id_or_pop_state: the last state of the pool keeps its place only if it is new. */
    method InsertIdOrPopState() returns (id: nat)
      requires |pool| > 0 && Registered(registered, pool[..|pool| - 1])
      modifies this
      ensures Valid() && id < |pool| && pool[id] == old(pool[|pool| - 1])
      ensures old(pool[..|pool| - 1]) <= pool <= old(pool)
      ensures id < |old(pool)| - 1 ==> pool == old(pool[..|pool| - 1])
    {
      var s := pool[|pool| - 1];
      if s in registered {
        id := registered[s];
        pool := pool[..|pool| - 1];
      } else {
        id := |pool| - 1;
        registered := registered[s := id];
      }
    }

    /** get_initial_state */
    method GetInitialState() returns (id: nat)
      requires Valid()
      modifies this
      ensures Valid() && id < |pool| && pool[id] == t.init && old(pool) <= pool
    {
      pool := pool + [t.init];
      id := InsertIdOrPopState();
    }

    /** get_successor_state without axioms: the effects that fire in the predecessor are written
        into a copy of it. */
    method GetSuccessorState(predecessor: nat, op: SasOperator) returns (id: nat)
      requires Valid() && predecessor < |pool|
      modifies this
      ensures Valid() && id < |pool| && pool[id] == Successor(op, old(pool[predecessor])) && old(pool) <= pool
      ensures Successor(op, old(pool[predecessor])) in old(registered) ==>
                pool == old(pool) && id == old(registered)[Successor(op, old(pool[predecessor]))]
    {
      var s := pool[predecessor];
      var buffer: State := s;
      for i := 0 to |op.prePost|
        invariant pool == old(pool) && registered == old(registered)
        invariant |buffer| == |s| && ApplyEffects(op.prePost[i..], s, buffer) == Successor(op, s)
      {
        var e := op.prePost[i];
        assert op.prePost[i..][1..] == op.prePost[i + 1..];
        var fires := DoesFire(e.cond, s);
        if fires && e.v < |buffer| {
          buffer := buffer[e.v := e.post];
        }
      }
      assert op.prePost[|op.prePost|..] == [];
      ghost var before := pool;
      pool := pool + [buffer];
      assert pool[..|pool| - 1] == before;
      id := InsertIdOrPopState();
    }
  }

  predicate Registered(registered: map<State, nat>, pool: seq<State>) {
    && (forall s | s in registered :: registered[s] < |pool| && pool[registered[s]] == s)
    && (forall i | 0 <= i < |pool| :: pool[i] in registered && registered[pool[i]] == i)
  }

  method DoesFire(cond: seq<Fact>, s: State) returns (r: bool)
    ensures r <==> HoldsAll(s, cond)
  {
    for i := 0 to |cond|
      invariant forall j | 0 <= j < i :: Holds(s, cond[j])
    {
      if !(cond[i].v < |s| && s[cond[i].v] == cond[i].x) {
        assert cond[i] in cond;
        return false;
      }
    }
    return true;
  }

  // ---- nodes ----

  datatype Status = NEW | OPEN | CLOSED | DEAD_END

  /** g, parent and creating operator are None for -1. */
  datatype Info = Info(status: Status, g: Option<nat>, realG: int, parent: Option<nat>, creating: Option<nat>)

  type Infos = map<nat, Info>

  function InfoAt(infos: Infos, id: nat): Info {
    if id in infos then infos[id] else Info(NEW, None, -1, None, None)
  }

  predicate Reached(infos: Infos, id: nat) {
    InfoAt(infos, id).g.Some?
  }

  function G(infos: Infos, id: nat): nat {
    if Reached(infos, id) then InfoAt(infos, id).g.value else 0
  }

  /** A node with a parent comes from it by its operator, at no smaller cost than recorded for the
      parent; a node without one holds the initial state. */
  ghost predicate Linked(t: Task, pool: seq<State>, adjusted: seq<nat>, infos: Infos, id: nat) {
    var info := InfoAt(infos, id);
    && id < |pool| && info.status != NEW && info.parent.Some? == info.creating.Some?
    && if info.parent.None? then pool[id] == t.init && info.g == Some(0)
       else var p, i := info.parent.value, info.creating.value;
         && Reached(infos, p) && p < |pool| && i < |adjusted| && StepBy(t, pool[p], i, pool[id])
         && G(infos, p) + adjusted[i] <= G(infos, id)
  }

  /** The chain of parents from `chain[0]` to a node without parent. */
  ghost predicate IsChain(infos: Infos, chain: seq<nat>) {
    && chain != [] && (forall k | 0 <= k < |chain| :: Reached(infos, chain[k]))
    && (forall k | 0 <= k < |chain| - 1 :: InfoAt(infos, chain[k]).parent == Some(chain[k + 1]))
    && InfoAt(infos, chain[|chain| - 1]).parent.None?
  }

  ghost predicate Rooted(infos: Infos, id: nat) {
    exists chain :: IsChain(infos, chain) && chain[0] == id
  }

  /** Every reached node is linked, and its parents lead to the initial state. */
  ghost predicate ValidInfos(t: Task, pool: seq<State>, adjusted: seq<nat>, infos: Infos) {
    && |adjusted| == |t.ops|
    && (forall id {:trigger Linked(t, pool, adjusted, infos, id)} | Reached(infos, id) :: Linked(t, pool, adjusted, infos, id))
    && (forall id {:trigger Rooted(infos, id)} | Reached(infos, id) :: Rooted(infos, id))
    && (forall id | InfoAt(infos, id).status == OPEN || InfoAt(infos, id).status == CLOSED :: Reached(infos, id))
  }

  /** g does not grow towards the root. */
  lemma {:induction false} ChainDescends(t: Task, pool: seq<State>, adjusted: seq<nat>, infos: Infos, chain: seq<nat>, k: nat)
    requires ValidInfos(t, pool, adjusted, infos) && IsChain(infos, chain) && k < |chain|
    ensures G(infos, chain[k]) <= G(infos, chain[0])
  {
    if k > 0 {
      ChainDescends(t, pool, adjusted, infos, chain, k - 1);
      assert Linked(t, pool, adjusted, infos, chain[k - 1]);
    }
  }

  /** g and realG are the sums of adjusted and real costs, as far as the link of the node goes. */
  ghost predicate Exact(t: Task, adjusted: seq<nat>, infos: Infos, id: nat) {
    var info := InfoAt(infos, id);
    if info.parent.Some? && info.creating.Some? then
      var p, i := info.parent.value, info.creating.value;
      && i < |adjusted| && i < |t.ops|
      && G(infos, id) == G(infos, p) + adjusted[i] && info.realG == InfoAt(infos, p).realG + t.ops[i].cost
    else
      G(infos, id) == 0 && info.realG == 0
  }

  ghost predicate AllExact(t: Task, adjusted: seq<nat>, infos: Infos) {
    forall id {:trigger Exact(t, adjusted, infos, id)} | Reached(infos, id) :: Exact(t, adjusted, infos, id)
  }

  /** No reached node has this parent. */
  ghost predicate Childless(infos: Infos, id: nat) {
    forall x {:trigger Reached(infos, x)} | Reached(infos, x) :: InfoAt(infos, x).parent != Some(id)
  }

  /** Setting a parent keeps every chain of parents finite if the node was not reached or gets a
      strictly smaller g. */
  lemma ReparentKeeps(t: Task, pool: seq<State>, adjusted: seq<nat>, infos: Infos, id: nat, p: nat, i: nat, info: Info)
    requires ValidInfos(t, pool, adjusted, infos) && Reached(infos, p) && id < |pool| && p < |pool| && i < |adjusted|
    requires StepBy(t, pool[p], i, pool[id]) && info.status != NEW && info.parent == Some(p) && info.creating == Some(i)
    requires info.g.Some? && G(infos, p) + adjusted[i] <= info.g.value
    requires Reached(infos, id) ==> info.g.value < G(infos, id)
    ensures ValidInfos(t, pool, adjusted, infos[id := info])
  {
    var next := infos[id := info];
    assert Rooted(infos, p);
    var above :| IsChain(infos, above) && above[0] == p;
    Avoids(t, pool, adjusted, infos, id, above);
    forall x | Reached(next, x)
      ensures Rooted(next, x)
    {
      assert x != id ==> Rooted(infos, x);
      RootedAfter(infos, id, next[id], above, x);
    }
    forall x | Reached(next, x)
      ensures Linked(t, pool, adjusted, next, x)
    {
      assert x != id ==> Linked(t, pool, adjusted, infos, x);
    }
    forall x | InfoAt(next, x).status == OPEN || InfoAt(next, x).status == CLOSED
      ensures Reached(next, x)
    {
      assert x != id ==> InfoAt(next, x) == InfoAt(infos, x) && (Reached(next, x) <==> Reached(infos, x));
    }
  }

  /** A new parent keeps the sums of all nodes exact if its node was not reached, and otherwise exactly if that
      node has no children, whose sums would be outdated. */
  lemma ReparentExact(t: Task, pool: seq<State>, adjusted: seq<nat>, infos: Infos, id: nat, p: nat, i: nat, info: Info)
    requires ValidInfos(t, pool, adjusted, infos) && AllExact(t, adjusted, infos) && Reached(infos, p) && i < |adjusted| && i < |t.ops|
    requires info.parent == Some(p) && info.creating == Some(i) && p != id
    requires info.g == Some(G(infos, p) + adjusted[i]) && info.realG == InfoAt(infos, p).realG + t.ops[i].cost
    requires Reached(infos, id) ==> info.g.value < G(infos, id)
    ensures AllExact(t, adjusted, infos[id := info]) <==> Childless(infos, id)
    ensures !Reached(infos, id) ==> Childless(infos, id)
  {
    var next := infos[id := info];
    forall x | Reached(infos, x)
      ensures InfoAt(infos, x).parent == Some(id) ==> Reached(infos, id) && (x != id ==> !Exact(t, adjusted, next, x))
    {
      assert Linked(t, pool, adjusted, infos, x) && Exact(t, adjusted, infos, x);
    }
    if Reached(infos, id) {
      SelfParent(t, pool, adjusted, infos, id);
    }
    forall x | Reached(next, x) && Childless(infos, id)
      ensures Exact(t, adjusted, next, x)
    {
      if x != id {
        assert Linked(t, pool, adjusted, infos, x) && Exact(t, adjusted, infos, x);
      }
    }
    if AllExact(t, adjusted, next) {
      forall x | Reached(infos, x)
        ensures InfoAt(infos, x).parent != Some(id)
      {
        assert x != id ==> Reached(next, x) && Exact(t, adjusted, next, x);
      }
    }
  }

  /** No node is its own parent. */
  lemma SelfParent(t: Task, pool: seq<State>, adjusted: seq<nat>, infos: Infos, id: nat)
    requires ValidInfos(t, pool, adjusted, infos) && Reached(infos, id)
    ensures InfoAt(infos, id).parent != Some(id)
  {
    assert Rooted(infos, id);
    var chain :| IsChain(infos, chain) && chain[0] == id;
    if InfoAt(infos, id).parent == Some(id) {
      OnlySelf(infos, id, chain, |chain| - 1);
    }
  }

  lemma {:induction false} OnlySelf(infos: Infos, id: nat, chain: seq<nat>, k: nat)
    requires IsChain(infos, chain) && chain[0] == id && InfoAt(infos, id).parent == Some(id) && k < |chain|
    ensures chain[k] == id
  {
    if k > 0 {
      OnlySelf(infos, id, chain, k - 1);
      assert InfoAt(infos, chain[k - 1]).parent == Some(chain[k]);
    }
  }

  /** Leading a node to a chain that avoids it keeps every node on the way to the root. */
  lemma RootedAfter(infos: Infos, id: nat, info: Info, above: seq<nat>, x: nat)
    requires IsChain(infos, above) && id !in above && info.g.Some? && info.parent == Some(above[0])
    requires x != id ==> Rooted(infos, x)
    ensures Rooted(infos[id := info], x)
  {
    var next := infos[id := info];
    assert IsChain(next, above);
    if x == id {
      ChainLonger(next, id, above);
    } else {
      var chain :| IsChain(infos, chain) && chain[0] == x;
      ChainRerouted(infos, next, id, chain, above);
    }
  }

  /** A node that is not reached, or has a greater g, is not on the chain. */
  lemma Avoids(t: Task, pool: seq<State>, adjusted: seq<nat>, infos: Infos, id: nat, above: seq<nat>)
    requires ValidInfos(t, pool, adjusted, infos) && IsChain(infos, above)
    requires Reached(infos, id) ==> G(infos, above[0]) < G(infos, id)
    ensures id !in above
  {
    forall k | 0 <= k < |above|
      ensures above[k] != id
    {
      ChainDescends(t, pool, adjusted, infos, above, k);
    }
  }

  lemma RootIsLast(infos: Infos, chain: seq<nat>, k: nat)
    requires IsChain(infos, chain) && k < |chain| && InfoAt(infos, chain[k]).parent.None?
    ensures k == |chain| - 1
  {
    forall j | 0 <= j < |chain| - 1
      ensures InfoAt(infos, chain[j]).parent.Some?
    {
      assert InfoAt(infos, chain[j]).parent == Some(chain[j + 1]);
    }
  }

  lemma ChainLonger(infos: Infos, id: nat, above: seq<nat>)
    requires IsChain(infos, above) && Reached(infos, id) && InfoAt(infos, id).parent == Some(above[0])
    ensures IsChain(infos, [id] + above) && Rooted(infos, id)
  {
    var chain := [id] + above;
    forall k | 0 <= k < |chain| - 1
      ensures InfoAt(infos, chain[k]).parent == Some(chain[k + 1])
    {
      assert k > 0 ==> chain[k] == above[k - 1] && chain[k + 1] == above[k];
    }
    assert IsChain(infos, chain) && chain[0] == id;
  }

  /** A chain through the changed node goes on along the chain of its new parent. */
  lemma {:induction false} ChainRerouted(infos: Infos, next: Infos, id: nat, chain: seq<nat>, above: seq<nat>)
    requires IsChain(infos, chain) && IsChain(next, above) && Reached(next, id) && InfoAt(next, id).parent == Some(above[0])
    requires forall x | x != id :: InfoAt(next, x) == InfoAt(infos, x)
    ensures Rooted(next, chain[0])
    decreases |chain|
  {
    if chain[0] == id {
      ChainLonger(next, id, above);
    } else if |chain| == 1 {
      assert IsChain(next, chain);
    } else {
      var rest := chain[1..];
      assert forall k | 0 <= k < |rest| :: rest[k] == chain[k + 1];
      ChainRerouted(infos, next, id, rest, above);
      var tail :| IsChain(next, tail) && tail[0] == rest[0];
      ChainLonger(next, chain[0], tail);
    }
  }

  /** Registering states keeps the nodes valid. */
  lemma PoolGrowthKeeps(t: Task, pool: seq<State>, grown: seq<State>, adjusted: seq<nat>, infos: Infos)
    requires ValidInfos(t, pool, adjusted, infos) && pool <= grown
    ensures ValidInfos(t, grown, adjusted, infos)
  {
    forall id | Reached(infos, id)
      ensures Linked(t, grown, adjusted, infos, id)
    {
      assert Linked(t, pool, adjusted, infos, id);
    }
  }

  /** Whatever the costs are, the chains stay finite exactly if the node is not on the chain of its
      new parent. */
  lemma RootedIffNoCycle(infos: Infos, id: nat, p: nat, info: Info, above: seq<nat>)
    requires IsChain(infos, above) && above[0] == p && info.g.Some? && info.parent == Some(p)
    ensures Rooted(infos[id := info], id) <==> id !in above
  {
    var next := infos[id := info];
    if id !in above {
      assert IsChain(next, above);
      ChainLonger(next, id, above);
    } else {
      var m :| 0 <= m < |above| && above[m] == id;
      forall chain: seq<nat> | chain != [] && chain[0] == id
        ensures !IsChain(next, chain)
      {
        CycleHasNoRoot(infos, next, id, above, chain, m);
      }
    }
  }

  /** No chain leads from the old chain back through the changed node to a root. */
  lemma {:induction false} CycleHasNoRoot(infos: Infos, next: Infos, id: nat, above: seq<nat>, chain: seq<nat>, k: nat)
    requires IsChain(infos, above) && chain != [] && k < |above| && id in above[k..] && chain[0] == above[k]
    requires forall x | x != id :: InfoAt(next, x) == InfoAt(infos, x)
    requires InfoAt(next, id).parent == Some(above[0])
    ensures !IsChain(next, chain)
    decreases |chain|
  {
    if IsChain(next, chain) {
      var j := if above[k] == id then 0 else k + 1;
      assert above[k..] == [above[k]] + above[k + 1..];
      assert InfoAt(next, chain[0]).parent == Some(above[j]);
      var rest := chain[1..];
      CycleHasNoRoot(infos, next, id, above, rest, j);
      assert forall m | 0 <= m < |rest| :: rest[m] == chain[m + 1];
    }
  }

  class SearchSpace {
    const t: Task
    const adjusted: seq<nat>
    var infos: Infos

    constructor (task: Task, costs: seq<nat>)
      requires |costs| == |task.ops|
      ensures t == task && adjusted == costs && infos == map[]
    {
      t, adjusted, infos := task, costs, map[];
    }

    ghost predicate Valid(pool: seq<State>)
      reads this
    {
      ValidInfos(t, pool, adjusted, infos)
    }

    /** g and realG of every node are the costs of its path. */
    ghost predicate SumsExact()
      reads this
    {
      AllExact(t, adjusted, infos)
    }

    method OpenInitial(pool: seq<State>, id: nat)
      requires Valid(pool) && id < |pool| && pool[id] == t.init && InfoAt(infos, id).status == NEW
      modifies this
      ensures Valid(pool) && infos == old(infos)[id := Info(OPEN, Some(0), 0, None, None)]
      ensures old(SumsExact()) ==> SumsExact()
    {
      ghost var before := infos;
      infos := infos[id := Info(OPEN, Some(0), 0, None, None)];
      OpenedInitial(t, pool, adjusted, before, id);
    }

    /** open: the node gets g and realG of its parent plus the costs of the operator. */
    method Open(pool: seq<State>, id: nat, parent: nat, op: nat)
      requires Valid(pool) && InfoAt(infos, id).status == NEW && Reached(infos, parent)
      requires id < |pool| && parent < |pool| && StepBy(t, pool[parent], op, pool[id])
      modifies this
      ensures Valid(pool) && (old(SumsExact()) ==> SumsExact())
      ensures infos.Keys == old(infos.Keys) + {id} && forall x | x in old(infos) && x != id :: infos[x] == old(infos)[x]
      ensures infos[id].status == OPEN && infos[id].parent == Some(parent) && infos[id].creating == Some(op)
      ensures infos[id].g == Some(old(G(infos, parent)) + adjusted[op])
      ensures infos[id].realG == old(InfoAt(infos, parent)).realG + t.ops[op].cost
    {
      assert Reached(infos, id) ==> Linked(t, pool, adjusted, infos, id);
      Link(pool, id, parent, op, OPEN);
    }

    /** reopen; the callers do this only for a strictly smaller g. */
    method Reopen(pool: seq<State>, id: nat, parent: nat, op: nat)
      requires Valid(pool) && Reached(infos, parent)
      requires InfoAt(infos, id).status == OPEN || InfoAt(infos, id).status == CLOSED
      requires id < |pool| && parent < |pool| && StepBy(t, pool[parent], op, pool[id])
      requires op < |adjusted| && G(infos, parent) + adjusted[op] < G(infos, id)
      modifies this
      ensures Valid(pool) && (old(SumsExact()) ==> (SumsExact() <==> old(Childless(infos, id))))
      ensures infos.Keys == old(infos.Keys) + {id} && forall x | x in old(infos) && x != id :: infos[x] == old(infos)[x]
      ensures infos[id].status == OPEN && infos[id].parent == Some(parent) && infos[id].creating == Some(op)
      ensures infos[id].g == Some(old(G(infos, parent)) + adjusted[op])
      ensures infos[id].realG == old(InfoAt(infos, parent)).realG + t.ops[op].cost
    {
      Link(pool, id, parent, op, OPEN);
    }

    /** update_parent: the same without a change of status. */
    method UpdateParent(pool: seq<State>, id: nat, parent: nat, op: nat)
      requires Valid(pool) && Reached(infos, parent)
      requires InfoAt(infos, id).status == OPEN || InfoAt(infos, id).status == CLOSED
      requires id < |pool| && parent < |pool| && StepBy(t, pool[parent], op, pool[id])
      requires op < |adjusted| && G(infos, parent) + adjusted[op] < G(infos, id)
      modifies this
      ensures Valid(pool) && (old(SumsExact()) ==> (SumsExact() <==> old(Childless(infos, id))))
      ensures infos.Keys == old(infos.Keys) + {id} && forall x | x in old(infos) && x != id :: infos[x] == old(infos)[x]
      ensures infos[id].status == old(infos[id].status) && infos[id].parent == Some(parent) && infos[id].creating == Some(op)
      ensures infos[id].g == Some(old(G(infos, parent)) + adjusted[op])
      ensures infos[id].realG == old(InfoAt(infos, parent)).realG + t.ops[op].cost
    {
      Link(pool, id, parent, op, InfoAt(infos, id).status);
    }

    /** What the three methods have in common. */
    method Link(pool: seq<State>, id: nat, parent: nat, op: nat, status: Status)
      requires Valid(pool) && Reached(infos, parent) && status != NEW
      requires id < |pool| && parent < |pool| && StepBy(t, pool[parent], op, pool[id]) && op < |adjusted|
      requires Reached(infos, id) ==> G(infos, parent) + adjusted[op] < G(infos, id)
      modifies this
      ensures Valid(pool) && (old(SumsExact()) ==> (SumsExact() <==> old(Childless(infos, id))))
      ensures !old(Reached(infos, id)) ==> old(Childless(infos, id)) || !old(SumsExact())
      ensures infos == old(infos)[id := Info(status, Some(old(G(infos, parent)) + adjusted[op]),
                                             old(InfoAt(infos, parent)).realG + t.ops[op].cost, Some(parent), Some(op))]
    {
      var info := Info(status, Some(G(infos, parent) + adjusted[op]), InfoAt(infos, parent).realG + t.ops[op].cost, Some(parent), Some(op));
      ReparentKeeps(t, pool, adjusted, infos, id, parent, op, info);
      if SumsExact() {
        ReparentExact(t, pool, adjusted, infos, id, parent, op, info);
      }
      infos := infos[id := info];
    }

    method Close(pool: seq<State>, id: nat)
      requires Valid(pool) && InfoAt(infos, id).status == OPEN
      modifies this
      ensures Valid(pool) && infos == old(infos)[id := InfoAt(old(infos), id).(status := CLOSED)]
      ensures SumsExact() <==> old(SumsExact())
    {
      StatusKeeps(t, pool, adjusted, infos, id, CLOSED);
      infos := infos[id := InfoAt(infos, id).(status := CLOSED)];
    }

    method MarkAsDeadEnd(pool: seq<State>, id: nat)
      requires Valid(pool)
      modifies this
      ensures Valid(pool) && infos == old(infos)[id := InfoAt(old(infos), id).(status := DEAD_END)]
      ensures SumsExact() <==> old(SumsExact())
    {
      StatusKeeps(t, pool, adjusted, infos, id, DEAD_END);
      infos := infos[id := InfoAt(infos, id).(status := DEAD_END)];
    }

    /** trace_path: the operators on the chain of parents lead from the initial state to the goal
        state, and their adjusted costs do not exceed its g; if no ancestor was given a new parent after its
        children, g is their adjusted cost and realG their real one. */
    method TracePath(pool: seq<State>, goal: nat) returns (path: seq<nat>, ghost states: seq<State>)
      requires Valid(pool) && Reached(infos, goal)
      ensures IsRun(t, states, path) && goal < |pool| && states[|path|] == pool[goal]
      ensures Below(path, |adjusted|) && AdjustedCost(adjusted, path) <= G(infos, goal)
      ensures SumsExact() ==> AdjustedCost(adjusted, path) == G(infos, goal) && PlanCost(t, path) == InfoAt(infos, goal).realG
    {
      var reversed: seq<nat> := [];
      var current := goal;
      assert Rooted(infos, goal);
      ghost var chain :| IsChain(infos, chain) && chain[0] == goal;
      ghost var k := 0;
      while InfoAt(infos, current).creating.Some?
        invariant k < |chain| && |reversed| == k && current == chain[k]
        invariant forall j | 0 <= j < k :: InfoAt(infos, chain[j]).creating == Some(reversed[j])
        decreases |chain| - k
      {
        assert Linked(t, pool, adjusted, infos, current);
        reversed := reversed + [InfoAt(infos, current).creating.value];
        current := InfoAt(infos, current).parent.value;
        k := k + 1;
      }
      assert Linked(t, pool, adjusted, infos, current);
      RootIsLast(infos, chain, k);
      path := Reverse(reversed);
      states := ChainRun(t, pool, adjusted, infos, chain, reversed);
      if SumsExact() {
        ChainCost(t, pool, adjusted, infos, chain, reversed);
      }
    }
  }

  lemma OpenedInitial(t: Task, pool: seq<State>, adjusted: seq<nat>, infos: Infos, id: nat)
    requires ValidInfos(t, pool, adjusted, infos) && id < |pool| && pool[id] == t.init && InfoAt(infos, id).status == NEW
    ensures ValidInfos(t, pool, adjusted, infos[id := Info(OPEN, Some(0), 0, None, None)])
    ensures AllExact(t, adjusted, infos) ==> AllExact(t, adjusted, infos[id := Info(OPEN, Some(0), 0, None, None)])
  {
    var next := infos[id := Info(OPEN, Some(0), 0, None, None)];
    assert !Reached(infos, id) by {
      assert Reached(infos, id) ==> Linked(t, pool, adjusted, infos, id);
    }
    forall x | Reached(infos, x) && AllExact(t, adjusted, infos)
      ensures Exact(t, adjusted, next, x)
    {
      assert Linked(t, pool, adjusted, infos, x) && Exact(t, adjusted, infos, x);
    }
    forall x | Reached(next, x)
      ensures Linked(t, pool, adjusted, next, x) && Rooted(next, x)
    {
      if x == id {
        assert IsChain(next, [id]);
      } else {
        assert Linked(t, pool, adjusted, infos, x) && Rooted(infos, x);
        var chain :| IsChain(infos, chain) && chain[0] == x;
        assert IsChain(next, chain);
      }
    }
    forall x | InfoAt(next, x).status == OPEN || InfoAt(next, x).status == CLOSED
      ensures Reached(next, x)
    {
      assert x != id ==> InfoAt(next, x) == InfoAt(infos, x) && (Reached(next, x) <==> Reached(infos, x));
    }
  }

  lemma StatusKeeps(t: Task, pool: seq<State>, adjusted: seq<nat>, infos: Infos, id: nat, status: Status)
    requires ValidInfos(t, pool, adjusted, infos) && status != NEW && status != OPEN
    requires status == CLOSED ==> Reached(infos, id)
    ensures ValidInfos(t, pool, adjusted, infos[id := InfoAt(infos, id).(status := status)])
    ensures AllExact(t, adjusted, infos[id := InfoAt(infos, id).(status := status)]) <==> AllExact(t, adjusted, infos)
  {
    var next := infos[id := InfoAt(infos, id).(status := status)];
    forall x
      ensures Reached(next, x) <==> Reached(infos, x)
      ensures Exact(t, adjusted, next, x) <==> Exact(t, adjusted, infos, x)
    {
    }
    forall x | Reached(next, x)
      ensures Linked(t, pool, adjusted, next, x) && Rooted(next, x)
    {
      assert Linked(t, pool, adjusted, infos, x) && Rooted(infos, x);
      var chain :| IsChain(infos, chain) && chain[0] == x;
      assert IsChain(next, chain);
    }
    forall x | InfoAt(next, x).status == OPEN || InfoAt(next, x).status == CLOSED
      ensures Reached(next, x)
    {
      assert x != id ==> InfoAt(next, x) == InfoAt(infos, x) && (Reached(next, x) <==> Reached(infos, x));
    }
  }

  function Reverse(xs: seq<nat>): (r: seq<nat>)
    ensures |r| == |xs| && forall i | 0 <= i < |r| :: r[i] == xs[|xs| - 1 - i]
  {
    seq(|xs|, i requires 0 <= i < |xs| => xs[|xs| - 1 - i])
  }

  function AdjustedCosts(adjusted: seq<nat>, path: seq<nat>): (r: seq<nat>)
    requires Below(path, |adjusted|)
    ensures |r| == |path| && forall k | 0 <= k < |r| :: r[k] == adjusted[path[k]]
  {
    seq(|path|, k requires 0 <= k < |path| => adjusted[path[k]])
  }

  function AdjustedCost(adjusted: seq<nat>, path: seq<nat>): nat
    requires Below(path, |adjusted|)
  {
    Sum(AdjustedCosts(adjusted, path))
  }

  /** Read from its end, a chain is a run whose adjusted cost is at most the g of its first node. */
  lemma {:induction false} ChainRun(t: Task, pool: seq<State>, adjusted: seq<nat>, infos: Infos, chain: seq<nat>, reversed: seq<nat>)
    returns (states: seq<State>)
    requires ValidInfos(t, pool, adjusted, infos) && IsChain(infos, chain) && |reversed| == |chain| - 1
    requires forall j | 0 <= j < |reversed| :: InfoAt(infos, chain[j]).creating == Some(reversed[j])
    ensures IsRun(t, states, Reverse(reversed)) && chain[0] < |pool| && states[|reversed|] == pool[chain[0]]
    ensures Below(Reverse(reversed), |adjusted|) && AdjustedCost(adjusted, Reverse(reversed)) <= G(infos, chain[0])
    decreases |chain|
  {
    assert Linked(t, pool, adjusted, infos, chain[0]);
    if |chain| == 1 {
      states := [t.init];
    } else {
      var rest, back := chain[1..], reversed[1..];
      assert forall k | 0 <= k < |rest| :: rest[k] == chain[k + 1];
      states := ChainRun(t, pool, adjusted, infos, rest, back);
      RunStep(t, adjusted, states, Reverse(back), reversed[0], pool[chain[0]]);
      assert Reverse(reversed) == Reverse(back) + [reversed[0]];
      states := states + [pool[chain[0]]];
    }
  }

  /** With exact sums, g and realG of its first node are the costs of that run. */
  lemma {:induction false} ChainCost(t: Task, pool: seq<State>, adjusted: seq<nat>, infos: Infos, chain: seq<nat>, reversed: seq<nat>)
    requires ValidInfos(t, pool, adjusted, infos) && AllExact(t, adjusted, infos) && IsChain(infos, chain) && |reversed| == |chain| - 1
    requires forall j | 0 <= j < |reversed| :: InfoAt(infos, chain[j]).creating == Some(reversed[j])
    ensures Below(Reverse(reversed), |adjusted|) && AdjustedCost(adjusted, Reverse(reversed)) == G(infos, chain[0])
    ensures PlanCost(t, Reverse(reversed)) == InfoAt(infos, chain[0]).realG
    decreases |chain|
  {
    assert Linked(t, pool, adjusted, infos, chain[0]) && Exact(t, adjusted, infos, chain[0]);
    if |chain| > 1 {
      var rest, back := chain[1..], reversed[1..];
      assert forall k | 0 <= k < |rest| :: rest[k] == chain[k + 1];
      ChainCost(t, pool, adjusted, infos, rest, back);
      var path, i := Reverse(back), reversed[0];
      assert Reverse(reversed) == path + [i];
      assert AdjustedCosts(adjusted, path + [i])[..|path|] == AdjustedCosts(adjusted, path);
      assert Costs(t, path + [i])[..|path|] == Costs(t, path);
    }
  }

  lemma RunStep(t: Task, adjusted: seq<nat>, states: seq<State>, path: seq<nat>, i: nat, s: State)
    requires |adjusted| == |t.ops| && IsRun(t, states, path) && Below(path, |adjusted|) && StepBy(t, states[|path|], i, s)
    ensures IsRun(t, states + [s], path + [i]) && Below(path + [i], |adjusted|)
    ensures AdjustedCost(adjusted, path + [i]) == AdjustedCost(adjusted, path) + adjusted[i]
  {
    forall k | 0 <= k < |path + [i]|
      ensures StepBy(t, (states + [s])[k], (path + [i])[k], (states + [s])[k + 1])
    {
      assert k < |path| ==> StepBy(t, states[k], path[k], states[k + 1]);
    }
    assert AdjustedCosts(adjusted, path + [i])[..|path|] == AdjustedCosts(adjusted, path);
  }
}
