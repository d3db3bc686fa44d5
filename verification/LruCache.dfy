/** The intrusive list of least recently used objects (`LRUCache`): nodes that carry their own links,
    kept in the order of their ticks. */
module LruCache {

  /** `u64` */
  type Tick = x: nat | x < 0x1_0000_0000_0000_0000

  class Node {
    var prev: Node?
    var next: Node?
    var tick: Tick
    var linked: bool

    constructor ()
      ensures !linked && prev == null && next == null && tick == 0
    {
      prev, next, tick, linked := null, null, 0, false;
    }
  }

  // ----- what the links say -----

  ghost predicate Distinct(items: seq<Node>) {
    forall i, j | 0 <= i < j < |items| :: items[i] != items[j]
  }

  ghost function Before(items: seq<Node>, i: nat): Node?
    requires i < |items|
  {
    if i == 0 then null else items[i - 1]
  }

  ghost function After(items: seq<Node>, i: nat): Node?
    requires i < |items|
  {
    if i + 1 == |items| then null else items[i + 1]
  }

  ghost predicate LinksAt(items: seq<Node>, i: nat)
    requires i < |items|
    reads items[i]
  {
    items[i].linked && items[i].prev == Before(items, i) && items[i].next == After(items, i)
  }

  /** Every node is linked to its neighbours. */
  ghost predicate Chain(items: seq<Node>)
    reads items
  {
    forall i | 0 <= i < |items| :: LinksAt(items, i)
  }

  ghost predicate InOrder(items: seq<Node>)
    reads items
  {
    forall i, j | 0 <= i < j < |items| :: items[i].tick <= items[j].tick
  }

  /** The sequence without its element at i. */
  ghost function Without(items: seq<Node>, i: nat): seq<Node>
    requires i < |items|
  {
    items[..i] + items[i + 1..]
  }

  /** The nodes of a sequence that are not in a set. */
  ghost function Kept(items: seq<Node>, gone: set<Node>): (r: seq<Node>)
    ensures forall n | n in r :: n in items && n !in gone
    ensures |r| <= |items|
  {
    if items == [] then [] else
      var front := Kept(items[..|items| - 1], gone);
      if items[|items| - 1] in gone then front else front + [items[|items| - 1]]
  }

  // ----- ticks as the traversal compares them -----

  const HALF: nat := 0x8000_0000_0000_0000

  /** `static_cast<s64>` */
  function Signed(x: Tick): int {
    if x < HALF then x else x - 2 * HALF
  }

  /** The test of the traversal, with a difference that does not overflow. */
  predicate Due(tick: Tick, bound: Tick) {
    !(Signed(bound) - Signed(tick) < 0)
  }

  /** The difference is no signed 64-bit number. */
  predicate Overflows(tick: Tick, bound: Tick) {
    !(0 <= Signed(bound) - Signed(tick) + HALF < 2 * HALF)
  }

  /** The signed comparison says what the unsigned one does exactly when both ticks lie in the same half
      of the range; and only for ticks in different halves can the difference overflow. */
  lemma DueIsBelow(tick: Tick, bound: Tick)
    ensures (Due(tick, bound) <==> tick <= bound) <==> (tick < HALF <==> bound < HALF)
    ensures Overflows(tick, bound) <==>
      (tick < HALF <= bound < tick + HALF) || (bound < HALF <= tick <= bound + HALF)
  {
  }

  predicate Ascending(ticks: seq<Tick>) {
    forall i, j | 0 <= i < j < |ticks| :: ticks[i] <= ticks[j]
  }

  /** The first k ticks are due, and the next one, if there is one, is not. */
  predicate DueRun(ticks: seq<Tick>, bound: Tick, k: nat) {
    k <= |ticks| && (forall j | 0 <= j < k :: Due(ticks[j], bound)) && (k < |ticks| ==> !Due(ticks[k], bound))
  }

  /** The first k ticks are exactly those up to the bound. */
  predicate AreBelow(ticks: seq<Tick>, bound: Tick, k: nat) {
    forall j | 0 <= j < |ticks| :: j < k <==> ticks[j] <= bound
  }

  /** With a bound in the lower half no tick is in the upper half, or some tick above the bound, but still in
      the lower half, comes before it; with a bound in the upper half no tick is in the lower half. */
  predicate SignedAgrees(ticks: seq<Tick>, bound: Tick) {
    ticks == [] ||
    if bound < HALF then
      ticks[|ticks| - 1] < HALF || exists j | 0 <= j < |ticks| :: bound < ticks[j] < HALF
    else
      ticks[0] >= HALF
  }

  /** The run of due ticks is what the documentation promises exactly when the ticks and the bound agree
      in this way. */
  lemma BelowExactlyWhen(ticks: seq<Tick>, bound: Tick, k: nat)
    requires Ascending(ticks) && DueRun(ticks, bound, k)
    ensures AreBelow(ticks, bound, k) <==> SignedAgrees(ticks, bound)
  {
    if ticks != [] && SignedAgrees(ticks, bound) && bound < HALF && ticks[|ticks| - 1] >= HALF {
      var j :| 0 <= j < |ticks| && bound < ticks[j] < HALF;
      assert !Due(ticks[j], bound) && k <= j;
    }
  }

  /** For every bound but one there is a list for which the traversal goes wrong without any overflow:
      it gives away an object that is not due, or misses one that is. */
  lemma WrongWithoutOverflow(bound: Tick) returns (tick: Tick, k: nat)
    requires bound != HALF - 1
    ensures !Overflows(tick, bound) && DueRun([tick], bound, k) && !AreBelow([tick], bound, k)
  {
    if bound < HALF {
      tick, k := bound + HALF + 1, 1;
    } else {
      tick, k := bound - HALF, 0;
    }
    assert [tick][0] == tick;
  }

  /** The objects visited are due, and the callback stopped at none of them. */
  ghost predicate Given(ticks: seq<Tick>, bound: Tick, visited: seq<Node>, stops: set<Node>) {
    |visited| <= |ticks| && forall j | 0 <= j < |visited| :: Due(ticks[j], bound) && visited[j] !in stops
  }

  /** The traversal has gone on to the first object that is not due, or at which the callback stops. */
  ghost predicate Ended(ticks: seq<Tick>, bound: Tick, visited: seq<Node>, stops: set<Node>) {
    && |visited| <= |ticks| && (forall j | 0 <= j < |visited| :: Due(ticks[j], bound))
    && (forall j | 0 <= j < |visited| - 1 :: visited[j] !in stops)
    && (|visited| < |ticks| ==>
        !Due(ticks[|visited|], bound) || (visited != [] && visited[|visited| - 1] in stops))
  }

  lemma GivenMore(ticks: seq<Tick>, bound: Tick, visited: seq<Node>, it: Node, stops: set<Node>)
    requires Given(ticks, bound, visited, stops) && |visited| < |ticks| && Due(ticks[|visited|], bound)
    ensures it in stops ==> Ended(ticks, bound, visited + [it], stops)
    ensures it !in stops ==> Given(ticks, bound, visited + [it], stops)
  {
  }

  lemma RunEnds(ticks: seq<Tick>, bound: Tick, visited: seq<Node>, stops: set<Node>)
    requires Ascending(ticks) && Given(ticks, bound, visited, stops)
    requires |visited| < |ticks| ==> !Due(ticks[|visited|], bound)
    ensures Ended(ticks, bound, visited, stops)
    ensures AreBelow(ticks, bound, |visited|) <==> SignedAgrees(ticks, bound)
  {
    hide AreBelow, SignedAgrees;
    BelowExactlyWhen(ticks, bound, |visited|);
  }

  ghost function Ticks(items: seq<Node>): (r: seq<Tick>)
    reads items
    ensures |r| == |items| && forall i | 0 <= i < |items| :: r[i] == items[i].tick
  {
    seq(|items|, i requires 0 <= i < |items| reads items => items[i].tick)
  }

  class Cache {
    var first: Node?
    var last: Node?
    ghost var items: seq<Node>

    /** The list holds exactly `items`, in the order of their ticks. */
    ghost predicate Valid()
      reads this, items
    {
      Linked() && InOrder(items)
    }

    ghost predicate Linked()
      reads this, items
    {
      && Distinct(items) && Chain(items)
      && first == (if items == [] then null else items[0])
      && last == (if items == [] then null else items[|items| - 1])
    }

    constructor ()
      ensures Valid() && items == []
    {
      first, last, items := null, null, [];
    }

    /** `Attach`. */
    method Attach(node: Node)
      requires Linked() && node !in items
      modifies this, node, items
      ensures Linked() && items == old(items) + [node]
      ensures node.tick == old(node.tick) && forall n | n in old(items) :: n.tick == old(n.tick)
    {
      ghost var was := items;
      node.prev := last;
      node.next := null;
      if last != null {
        last.next := node;
      } else {
        first := node;
      }
      last := node;
      node.linked := true;
      items := items + [node];
      forall i | 0 <= i < |items|
        ensures LinksAt(items, i)
      {
        if i < |was| {
          assert old(LinksAt(was, i));
        }
      }
    }

    /** `Detach`, of the node at i. */
    method Detach(node: Node, ghost i: nat)
      requires Linked() && i < |items| && items[i] == node
      modifies this, items
      ensures Linked() && items == Without(old(items), i) && node !in items
      ensures !node.linked && node.prev == null && node.next == null
      ensures forall n | n in old(items) :: n.tick == old(n.tick)
    {
      ghost var was := items;
      assert LinksAt(was, i);
      if node.prev != null {
        assert LinksAt(was, i - 1);
        node.prev.next := node.next;
      } else {
        first := node.next;
      }
      if node.next != null {
        node.next.prev := node.prev;
      } else {
        last := node.prev;
      }
      node.prev, node.next := null, null;
      node.linked := false;
      items := Without(items, i);
      forall j | 0 <= j < |items|
        ensures LinksAt(items, j)
      {
        assert old(LinksAt(was, if j < i then j else j + 1));
      }
    }

    /** `Insert`, of an object that is in no list, with a tick that is not before any other. */
    method Insert(obj: Node, tick: Tick)
      requires Valid() && obj !in items && forall n | n in items :: n.tick <= tick
      modifies this, obj, items
      ensures Valid() && items == old(items) + [obj] && obj.tick == tick
      ensures forall n | n in old(items) :: n.tick == old(n.tick)
    {
      obj.tick := tick;
      ghost var was := items;
      Attach(obj);
      OrderedSnoc(was, obj);
    }

    /** A new tick changes no link. */
    method SetTick(obj: Node, tick: Tick)
      requires Linked() && obj in items
      modifies obj`tick
      ensures Linked() && obj.tick == tick
    {
      obj.tick := tick;
      forall j | 0 <= j < |items|
        ensures LinksAt(items, j)
      {
        assert old(LinksAt(items, j));
      }
    }

    /** `Touch`, of an object in the list: it moves to the end, unless its tick is already as late. */
    method Touch(obj: Node, tick: Tick, ghost i: nat)
      requires Valid() && i < |items| && items[i] == obj
      requires obj.tick < tick ==> forall n | n in items :: n.tick <= tick
      modifies this, items
      ensures Valid()
      ensures if old(obj.tick) >= tick then items == old(items) && obj.tick == old(obj.tick)
        else items == Without(old(items), i) + [obj] && obj.tick == tick
      ensures forall n | n in old(items) && n != obj :: n.tick == old(n.tick)
    {
      hide LinksAt, Chain;
      if obj.tick >= tick {
        return;
      }
      SetTick(obj, tick);
      if obj == last {
        LastIs(items, i);
        return;
      }
      MoveToEnd(obj, i);
    }

    /** A node whose tick has become the latest goes to the end. */
    method MoveToEnd(obj: Node, ghost k: nat)
      requires Linked() && k < |items| && items[k] == obj && forall n | n in items :: n.tick <= obj.tick
      requires forall i, j | 0 <= i < j < |items| && i != k && j != k :: items[i].tick <= items[j].tick
      modifies this, items
      ensures Valid() && items == Without(old(items), k) + [obj]
      ensures forall n | n in old(items) :: n.tick == old(n.tick)
    {
      hide LinksAt, Chain;
      ghost var was := items;
      Detach(obj, k);
      ghost var others := items;
      OrderedWithout(was, k);
      Attach(obj);
      OrderedSnoc(others, obj);
    }

    /** `Free`: an object that is in the list leaves it, any other is left alone. */
    method Free(obj: Node, ghost i: nat)
      requires Valid() && (obj.linked <==> obj in items) && (obj in items ==> i < |items| && items[i] == obj)
      modifies this, obj, items
      ensures Valid() && !obj.linked && obj !in items
      ensures items == if obj in old(items) then Without(old(items), i) else old(items)
      ensures forall n | n in old(items) || n == obj :: n.tick == old(n.tick)
    {
      if obj.linked {
        Detach(obj, i);
      }
    }

    /** On the way through `was`: `visited` has been given to the callback, `it` comes next. */
    ghost predicate Walk(was: seq<Node>, visited: seq<Node>, frees: set<Node>, it: Node?)
      reads this, items
    {
      && Valid() && visited <= was && items == Kept(visited, frees) + was[|visited|..]
      && (forall n | n in items :: n in was)
      && it == if |visited| < |was| then was[|visited|] else null
    }

    /** The callback for one object. */
    method Visit(it: Node, frees: set<Node>, ghost was: seq<Node>, ghost visited: seq<Node>) returns (next: Node?)
      requires Walk(was, visited, frees, it)
      modifies this, items
      ensures Walk(was, visited + [it], frees, next)
      ensures it in was && forall n | n in was :: n.tick == old(n.tick)
    {
      hide LinksAt, Chain, Kept, InOrder, Distinct, After, Without;
      ghost var k, kept := |visited|, Kept(visited, frees);
      ghost var at := |kept|;
      assert was[..k] == visited;
      Neighbour(items, kept, was, k);
      LinkOf(items, at);
      next := it.next;
      KeptMore(was, k, frees);
      if it in frees {
        Free(it, at);
      }
    }

    /** `ForEachItemBelow`: the callback is given the objects in order until one is not due, or the callback
        asks to stop; it frees the objects in `frees`. A callback that never stops is given exactly the
        objects with ticks up to the bound, or not, as `SignedAgrees` says. */
    method ForEachItemBelow(bound: Tick, frees: set<Node>, stops: set<Node>) returns (visited: seq<Node>)
      requires Valid()
      modifies this, items
      ensures visited <= old(items) && Distinct(visited)
      ensures Valid() && items == Kept(visited, frees) + old(items)[|visited|..]
      ensures Ended(old(Ticks(items)), bound, visited, stops)
      ensures stops == {} ==>
        (AreBelow(old(Ticks(items)), bound, |visited|) <==> SignedAgrees(old(Ticks(items)), bound))
      ensures forall n | n in old(items) :: n.tick == old(n.tick)
    {
      hide LinksAt, Chain, Due, Kept, InOrder, Walk, Distinct, AreBelow, SignedAgrees, Ascending, Given, Ended;
      ghost var was, ticks := items, Ticks(items);
      StartsGiven(bound, stops);
      visited := [];
      var it := first;
      WalkStart(frees);
      DistinctPrefix(was, visited);
      while it != null
        invariant Walk(was, visited, frees, it)
        invariant forall n | n in items :: n in was
        invariant visited <= was && Distinct(visited)
        invariant Given(ticks, bound, visited, stops)
        invariant forall n | n in was :: n.tick == old(n.tick)
        decreases |was| - |visited|
      {
        WalkFacts(was, visited, frees, it);
        if !Due(it.tick, bound) {
            RunEnds(ticks, bound, visited, stops);
          return;
        }
        assert forall i | 0 <= i < |items| :: items[i] in old(items);
        var next := Visit(it, frees, was, visited);
        GivenMore(ticks, bound, visited, it, stops);
        visited := visited + [it];
        WalkFacts(was, visited, frees, next);
        DistinctPrefix(was, visited);
        if it in stops {
          return;
        }
        it := next;
      }
      WalkFacts(was, visited, frees, it);
      RunEnds(ticks, bound, visited, stops);
    }

    lemma StartsGiven(bound: Tick, stops: set<Node>)
      requires InOrder(items)
      ensures Ascending(Ticks(items)) && Given(Ticks(items), bound, [], stops)
    {
    }

    lemma WalkFacts(was: seq<Node>, visited: seq<Node>, frees: set<Node>, it: Node?)
      requires Walk(was, visited, frees, it) && Distinct(was)
      ensures Valid() && visited <= was && items == Kept(visited, frees) + was[|visited|..]
      ensures forall n | n in items :: n in was
      ensures it == if |visited| < |was| then was[|visited|] else null
    {
      hide LinksAt, Chain, Kept, InOrder, Distinct;
    }

    lemma WalkStart(frees: set<Node>)
      requires Valid()
      ensures Walk(items, [], frees, first)
    {
      hide LinksAt, Chain, InOrder, Distinct;
    }
  }

  lemma DistinctPrefix(was: seq<Node>, visited: seq<Node>)
    requires Distinct(was) && visited <= was
    ensures Distinct(visited)
  {
  }

  lemma KeptMore(was: seq<Node>, k: nat, gone: set<Node>)
    requires k < |was|
    ensures was[..k + 1] == was[..k] + [was[k]]
    ensures Kept(was[..k + 1], gone) == Kept(was[..k], gone) + if was[k] in gone then [] else [was[k]]
  {
    assert was[..k + 1][..k] == was[..k];
  }

  lemma Neighbour(items: seq<Node>, kept: seq<Node>, was: seq<Node>, k: nat)
    requires k < |was| && items == kept + was[k..]
    ensures items[|kept|] == was[k] && items == kept + [was[k]] + was[k + 1..]
    ensures After(items, |kept|) == if k + 1 < |was| then was[k + 1] else null
    ensures Without(items, |kept|) == kept + was[k + 1..]
  {
    assert was[k..] == [was[k]] + was[k + 1..];
  }

  lemma LinkOf(items: seq<Node>, i: nat)
    requires Chain(items) && i < |items|
    ensures items[i].linked && items[i].next == After(items, i)
  {
    assert LinksAt(items, i);
  }

  lemma OrderedSnoc(items: seq<Node>, node: Node)
    requires forall i, j | 0 <= i < j < |items| :: items[i].tick <= items[j].tick
    requires forall i | 0 <= i < |items| :: items[i].tick <= node.tick
    ensures InOrder(items + [node])
  {
  }

  /** Taking out a node whose tick alone has become late leaves the others in order. */
  lemma OrderedWithout(items: seq<Node>, k: nat)
    requires k < |items| && forall i, j | 0 <= i < j < |items| && i != k && j != k :: items[i].tick <= items[j].tick
    ensures InOrder(Without(items, k))
  {
    var r := Without(items, k);
    forall i, j | 0 <= i < j < |r|
      ensures r[i].tick <= r[j].tick
    {
      var i', j' := if i < k then i else i + 1, if j < k then j else j + 1;
      assert r[i] == items[i'] && r[j] == items[j'];
    }
  }

  lemma LastIs(items: seq<Node>, i: nat)
    requires Distinct(items) && i < |items| && items[i] == items[|items| - 1]
    ensures i == |items| - 1 && items == Without(items, i) + [items[i]]
  {
  }
}
