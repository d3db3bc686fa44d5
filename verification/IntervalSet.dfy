/** Sorted interval lists (`IntervalList`, `DomIntervalList`): vectors edited in place that must keep
    agreeing with a plain map from addresses to values. */
module IntervalSet {
  import opened Options

  /** An interval [start, end) with what a derived interval type adds to it. */
  datatype Iv<P> = Iv(start: nat, end: nat, load: P)

  /** What a derived interval type supplies: the payload of SubRange, CanMergeWith, Dominant; and,
      for the specification, the value each address gets and when one value dominates another. */
  datatype Ops<!P, !V> = Ops(
    sub: (Iv<P>, nat, nat) -> P,
    mergeable: (Iv<P>, Iv<P>) -> bool,
    dominant: (Iv<P>, Iv<P>) -> bool,
    at: (Iv<P>, nat) -> V,
    outranks: (V, V) -> bool)
  {
    function SubRange(iv: Iv<P>, a: nat, b: nat): Iv<P> {
      Iv(a, b, sub(iv, a, b))
    }
  }

  predicate Covers<P>(iv: Iv<P>, x: nat) {
    iv.start <= x < iv.end
  }

  function Extended<P>(a: Iv<P>, b: Iv<P>): Iv<P> {
    Iv(a.start, b.end, a.load)
  }

  /** A part of an interval keeps the value at each address. */
  ghost predicate SubRangeLaw<P(!new), V(!new)>(o: Ops<P, V>) {
    forall iv: Iv<P>, a: nat, b: nat, x: nat | iv.start <= a <= x < b <= iv.end ::
      o.at(o.SubRange(iv, a, b), x) == o.at(iv, x)
  }

  /** Touching intervals that can merge can be written as the left one extended. */
  ghost predicate MergeLaw<P(!new), V(!new)>(o: Ops<P, V>) {
    forall a: Iv<P>, b: Iv<P>, x: nat | a.end == b.start && o.mergeable(a, b) ::
      && (Covers(a, x) ==> o.at(Extended(a, b), x) == o.at(a, x))
      && (Covers(b, x) ==> o.at(Extended(a, b), x) == o.at(b, x))
  }

  /** Merging does not change what can be merged on either side. */
  ghost predicate CongruenceLaw<P(!new), V(!new)>(o: Ops<P, V>) {
    forall a: Iv<P>, b: Iv<P>, c: Iv<P> | a.end == b.start && o.mergeable(a, b) ::
      && (o.mergeable(Extended(a, b), c) <==> o.mergeable(b, c))
      && (o.mergeable(c, Extended(a, b)) <==> o.mergeable(c, a))
  }

  ghost predicate Laws<P(!new), V(!new)>(o: Ops<P, V>) {
    SubRangeLaw(o) && MergeLaw(o) && CongruenceLaw(o)
  }

  /** Dominance is a matter of the values at an address. */
  ghost predicate DominanceLaw<P(!new), V(!new)>(o: Ops<P, V>) {
    forall a: Iv<P>, b: Iv<P>, x: nat | Covers(a, x) && Covers(b, x) :: o.dominant(a, b) <==>
      o.outranks(o.at(a, x), o.at(b, x))
  }

  // ----- the list and its meaning -----

  /** Nonempty intervals, in order, without overlap. */
  predicate Sorted<P>(s: seq<Iv<P>>) {
    && (forall i | 0 <= i < |s| :: s[i].start < s[i].end)
    && (forall i, j | 0 <= i < j < |s| :: s[i].end <= s[j].start)
  }

  predicate Joins<P, V>(o: Ops<P, V>, a: Iv<P>, b: Iv<P>) {
    a.end == b.start && o.mergeable(a, b)
  }

  /** The pair at i is not one that should have been merged. */
  predicate Apart<P, V>(o: Ops<P, V>, s: seq<Iv<P>>, i: nat)
    requires i + 1 < |s|
  {
    !Joins(o, s[i], s[i + 1])
  }

  predicate Coalesced<P, V>(o: Ops<P, V>, s: seq<Iv<P>>) {
    forall i | 0 <= i && i + 1 < |s| :: Apart(o, s, i)
  }

  /** The value of an address. */
  function Lookup<P, V>(o: Ops<P, V>, s: seq<Iv<P>>, x: nat): Option<V> {
    if s == [] then None
    else if Covers(s[0], x) then Some(o.at(s[0], x))
    else Lookup(o, s[1..], x)
  }

  lemma {:induction false} LookupConcat<P, V>(o: Ops<P, V>, a: seq<Iv<P>>, b: seq<Iv<P>>, x: nat)
    ensures Lookup(o, a + b, x) == if Lookup(o, a, x).Some? then Lookup(o, a, x) else Lookup(o, b, x)
  {
    if a == [] {
      assert a + b == b;
    } else {
      assert (a + b)[1..] == a[1..] + b;
      LookupConcat(o, a[1..], b, x);
    }
  }

  lemma {:induction false} LookupNone<P, V>(o: Ops<P, V>, s: seq<Iv<P>>, x: nat)
    ensures Lookup(o, s, x) == None <==> forall i | 0 <= i < |s| :: !Covers(s[i], x)
  {
    if s != [] {
      LookupNone(o, s[1..], x);
      if Lookup(o, s, x) == None {
        forall i | 0 <= i < |s|
          ensures !Covers(s[i], x)
        {
          if i > 0 {
            assert s[i] == s[1..][i - 1];
          }
        }
      }
    }
  }

  /** In a sorted list the interval that covers an address gives its value. */
  lemma {:induction false} LookupAt<P, V>(o: Ops<P, V>, s: seq<Iv<P>>, i: nat, x: nat)
    requires Sorted(s) && i < |s| && Covers(s[i], x)
    ensures Lookup(o, s, x) == Some(o.at(s[i], x))
    decreases i
  {
    if i > 0 {
      assert s[0].end <= s[i].start;
      LookupAt(o, s[1..], i - 1, x);
    }
  }

  lemma LookupOne<P, V>(o: Ops<P, V>, iv: Iv<P>, x: nat)
    ensures Lookup(o, [iv], x) == if Covers(iv, x) then Some(o.at(iv, x)) else None
  {
    assert [iv][1..] == [];
  }

  /** The index of the first interval that ends after x (`std::ranges::upper_bound` by end). */
  function FirstEndAfter<P>(s: seq<Iv<P>>, x: nat): (i: nat)
    ensures i <= |s|
    ensures forall j | 0 <= j < i :: s[j].end <= x
    ensures i < |s| ==> s[i].end > x
  {
    if s == [] || s[0].end > x then 0 else
      var r := FirstEndAfter(s[1..], x);
      assert forall j | 1 <= j < r + 1 :: s[j] == s[1..][j - 1];
      r + 1
  }

  // ----- merging neighbours -----

  ghost predicate SameValues<P, V(!new)>(o: Ops<P, V>, s: seq<Iv<P>>, r: seq<Iv<P>>) {
    forall x: nat :: Lookup(o, r, x) == Lookup(o, s, x)
  }

  /** Pairs below `lo`, and pairs from `hi` on, are known to be apart. */
  predicate ApartOutside<P, V>(o: Ops<P, V>, s: seq<Iv<P>>, lo: int, hi: int) {
    forall j | 0 <= j && j + 1 < |s| && (j < lo || j >= hi) :: Apart(o, s, j)
  }

  function Merged<P>(s: seq<Iv<P>>, i: nat): seq<Iv<P>>
    requires i + 1 < |s|
  {
    s[..i] + [Extended(s[i], s[i + 1])] + s[i + 2..]
  }

  lemma MergedSorted<P>(s: seq<Iv<P>>, i: nat)
    requires i + 1 < |s| && Sorted(s)
    ensures Sorted(Merged(s, i))
  {
    var m := Merged(s, i);
    forall j | 0 <= j < |m|
      ensures m[j].start == s[if j <= i then j else j + 1].start && m[j].end == s[if j < i then j else j + 1].end
    {
    }
  }

  lemma MergedValue<P(!new), V(!new)>(o: Ops<P, V>, s: seq<Iv<P>>, i: nat, x: nat)
    requires Laws(o) && i + 1 < |s| && Sorted(s) && Joins(o, s[i], s[i + 1])
    ensures Lookup(o, Merged(s, i), x) == Lookup(o, s, x)
  {
    var a, b := s[i], s[i + 1];
    assert s == s[..i] + ([a] + [b]) + s[i + 2..];
    LookupConcat(o, s[..i] + ([a] + [b]), s[i + 2..], x);
    LookupConcat(o, s[..i], [a] + [b], x);
    LookupConcat(o, [a], [b], x);
    LookupConcat(o, s[..i] + [Extended(a, b)], s[i + 2..], x);
    LookupConcat(o, s[..i], [Extended(a, b)], x);
    LookupOne(o, a, x);
    LookupOne(o, b, x);
    LookupOne(o, Extended(a, b), x);
  }

  /** Merging the pair at i only affects the pairs next to it, and those as before. */
  lemma MergedApart<P(!new), V(!new)>(o: Ops<P, V>, s: seq<Iv<P>>, i: nat, hi: int)
    requires Laws(o) && i + 1 < |s| && Joins(o, s[i], s[i + 1]) && ApartOutside(o, s, i, hi) && i < hi
    ensures ApartOutside(o, Merged(s, i), i, hi - 1)
  {
    var m := Merged(s, i);
    forall j | 0 <= j && j + 1 < |m| && (j < i || j >= hi - 1)
      ensures Apart(o, m, j)
    {
      if j < i {
        assert Apart(o, s, j);
      } else {
        assert Apart(o, s, j + 1);
      }
    }
  }

  // ----- the laws have models -----

  /** Plain `Interval`: no payload, always mergeable. */
  function PlainOps(): Ops<(), ()> {
    Ops((iv, a, b) => (), (a, b) => true, (a, b) => false, (iv, x) => (), (v, w) => false)
  }

  lemma PlainLaws()
    ensures Laws(PlainOps()) && DominanceLaw(PlainOps())
  {
  }

  /** A mapping with an offset and a rank: part of it starts further on, neighbours merge when they
      continue each other, and a higher rank dominates. */
  function MappingOps(): Ops<(int, int), (int, int)> {
    Ops((iv: Iv<(int, int)>, a, b) => (iv.load.0 + (a - iv.start), iv.load.1),
        (a: Iv<(int, int)>, b: Iv<(int, int)>) => b.load == (a.load.0 + (b.start - a.start), a.load.1),
        (a: Iv<(int, int)>, b: Iv<(int, int)>) => a.load.1 > b.load.1,
        (iv: Iv<(int, int)>, x) => (iv.load.0 + (x - iv.start), iv.load.1),
        (v: (int, int), w: (int, int)) => v.1 > w.1)
  }

  lemma MappingLaws()
    ensures Laws(MappingOps()) && DominanceLaw(MappingOps())
  {
  }

  // ----- what one Add does, and what a run of them amounts to -----

  ghost predicate WellKept<P, V>(o: Ops<P, V>, s: seq<Iv<P>>) {
    Sorted(s) && Coalesced(o, s)
  }

  ghost predicate AddStep<P, V(!new)>(o: Ops<P, V>, s: seq<Iv<P>>, value: Iv<P>, t: seq<Iv<P>>) {
    && WellKept(o, t)
    && forall x: nat :: Lookup(o, t, x) == if Covers(value, x) then Some(o.at(value, x)) else Lookup(o, s, x)
  }

  /** An address keeps a value that dominates the new one. */
  function Kept<P, V>(o: Ops<P, V>, was: Option<V>, v: V): Option<V> {
    if was.Some? && o.outranks(was.value, v) then was else Some(v)
  }

  ghost predicate DomStep<P, V(!new)>(o: Ops<P, V>, s: seq<Iv<P>>, value: Iv<P>, t: seq<Iv<P>>) {
    && WellKept(o, t)
    && forall x: nat :: Lookup(o, t, x) == if Covers(value, x) then Kept(o, Lookup(o, s, x), o.at(value, x))
      else Lookup(o, s, x)
  }

  /** The lists an empty list goes through while values are added. */
  ghost predicate AddRun<P(!new), V(!new)>(o: Ops<P, V>, lists: seq<seq<Iv<P>>>, values: seq<Iv<P>>) {
    && |lists| == |values| + 1 && lists[0] == []
    && forall i | 0 <= i < |values| :: AddStep(o, lists[i], values[i], lists[i + 1])
  }

  ghost predicate DomRun<P(!new), V(!new)>(o: Ops<P, V>, lists: seq<seq<Iv<P>>>, values: seq<Iv<P>>) {
    && |lists| == |values| + 1 && lists[0] == []
    && forall i | 0 <= i < |values| :: DomStep(o, lists[i], values[i], lists[i + 1])
  }

  /** What the last value that covers an address gives it. */
  function LastCovering<P, V>(o: Ops<P, V>, values: seq<Iv<P>>, x: nat): Option<V> {
    if values == [] then None else
      var last := values[|values| - 1];
      if Covers(last, x) then Some(o.at(last, x)) else LastCovering(o, values[..|values| - 1], x)
  }

  /** The values that cover an address, folded in order: keep a dominant one, else take the new one. */
  function FoldKept<P, V>(o: Ops<P, V>, values: seq<Iv<P>>, x: nat): Option<V> {
    if values == [] then None else
      var last, was := values[|values| - 1], FoldKept(o, values[..|values| - 1], x);
      if Covers(last, x) then Kept(o, was, o.at(last, x)) else was
  }

  lemma {:induction false} AddRunValue<P(!new), V(!new)>(o: Ops<P, V>, lists: seq<seq<Iv<P>>>, values: seq<Iv<P>>)
    requires AddRun(o, lists, values)
    ensures WellKept(o, lists[|values|])
    ensures forall x: nat :: Lookup(o, lists[|values|], x) == LastCovering(o, values, x)
    decreases |values|
  {
    hide WellKept;
    if values != [] {
      var n := |values| - 1;
      AddRunValue(o, lists[..n + 1], values[..n]);
      assert AddStep(o, lists[n], values[n], lists[n + 1]);
    } else {
      EmptyWellKept(o);
    }
  }

  lemma {:induction false} DomRunValue<P(!new), V(!new)>(o: Ops<P, V>, lists: seq<seq<Iv<P>>>, values: seq<Iv<P>>)
    requires DomRun(o, lists, values)
    ensures WellKept(o, lists[|values|])
    ensures forall x: nat :: Lookup(o, lists[|values|], x) == FoldKept(o, values, x)
    decreases |values|
  {
    hide WellKept, Kept;
    if values != [] {
      var n := |values| - 1;
      DomRunValue(o, lists[..n + 1], values[..n]);
      assert DomStep(o, lists[n], values[n], lists[n + 1]);
    } else {
      EmptyWellKept(o);
    }
  }

  lemma EmptyWellKept<P, V>(o: Ops<P, V>)
    ensures WellKept(o, [])
  {
  }

  // ----- coverage -----

  predicate CoversAny<P>(s: seq<Iv<P>>, x: nat) {
    exists i | 0 <= i < |s| :: Covers(s[i], x)
  }

  lemma CoveredIsValued<P, V>(o: Ops<P, V>, s: seq<Iv<P>>, x: nat)
    ensures CoversAny(s, x) <==> Lookup(o, s, x).Some?
  {
    LookupNone(o, s, x);
  }

  /** One interval contains the whole range. */
  predicate HasCovering<P>(s: seq<Iv<P>>, start: nat, end: nat) {
    exists i | 0 <= i < |s| :: Contained(s[i], start, end)
  }

  predicate Contained<P>(iv: Iv<P>, start: nat, end: nat) {
    iv.start <= start < iv.end && end <= iv.end
  }

  ghost predicate CoversAll<P>(s: seq<Iv<P>>, start: nat, end: nat) {
    forall x: nat | start <= x < end :: CoversAny(s, x)
  }

  /** When everything may merge, a range is covered exactly when one interval contains it. */
  lemma CoveredByOne(s: seq<Iv<()>>, start: nat, end: nat)
    requires WellKept(PlainOps(), s) && start < end
    ensures CoversAll(s, start, end) <==> HasCovering(s, start, end)
  {
    if CoversAll(s, start, end) {
      assert CoversAny(s, start);
      var i: nat :| i < |s| && Covers(s[i], start);
      if s[i].end < end {
        assert CoversAny(s, s[i].end);
        var j: nat :| j < |s| && Covers(s[j], s[i].end);
        NextTouches(s, i, j);
      }
      assert Contained(s[i], start, end);
    }
    if HasCovering(s, start, end) {
      var i: nat :| i < |s| && Contained(s[i], start, end);
      forall x: nat | start <= x < end
        ensures CoversAny(s, x)
      {
        assert Covers(s[i], x);
      }
    }
  }

  /** In a plain list nothing covers the end of an interval. */
  lemma NextTouches(s: seq<Iv<()>>, i: nat, j: nat)
    requires WellKept(PlainOps(), s) && i < |s| && j < |s|
    ensures !Covers(s[j], s[i].end)
  {
    if i + 1 < |s| {
      assert Apart(PlainOps(), s, i);
      assert s[i].end < s[i + 1].start;
    }
  }

  ghost predicate SameCover<P>(s: seq<Iv<P>>, r: seq<Iv<P>>) {
    forall x: nat :: CoversAny(s, x) <==> CoversAny(r, x)
  }

  /** A plain list is determined by the addresses it covers. */
  lemma {:induction false} Canonical(s: seq<Iv<()>>, r: seq<Iv<()>>)
    requires WellKept(PlainOps(), s) && WellKept(PlainOps(), r) && SameCover(s, r)
    ensures s == r
    decreases |s|
  {
    hide Coalesced, Sorted, CoversAny, SameCover;
    if s == [] || r == [] {
      EmptyCover(s, r);
    } else {
      FirstBelow(s, r);
      SameCoverFlip(s, r);
      FirstBelow(r, s);
      SamePlain(s[0], r[0]);
      TailCover(s, r);
      TailKept(PlainOps(), s);
      TailKept(PlainOps(), r);
      Canonical(s[1..], r[1..]);
      assert s == [s[0]] + s[1..] && r == [r[0]] + r[1..];
    }
  }

  lemma SamePlain(a: Iv<()>, b: Iv<()>)
    requires a.start == b.start && a.end == b.end
    ensures a == b
  {
    assert a.load == () && b.load == ();
  }

  lemma SameCoverFlip<P>(s: seq<Iv<P>>, r: seq<Iv<P>>)
    requires SameCover(s, r)
    ensures SameCover(r, s)
  {
  }

  lemma EmptyCover(s: seq<Iv<()>>, r: seq<Iv<()>>)
    requires WellKept(PlainOps(), s) && WellKept(PlainOps(), r) && SameCover(s, r) && (s == [] || r == [])
    ensures s == r
  {
    if s != [] {
      assert Covers(s[0], s[0].start);
      assert CoversAny(s, s[0].start);
    }
    if r != [] {
      assert Covers(r[0], r[0].start);
      assert CoversAny(r, r[0].start);
    }
  }

  lemma FirstBelow(s: seq<Iv<()>>, r: seq<Iv<()>>)
    requires WellKept(PlainOps(), s) && WellKept(PlainOps(), r) && SameCover(s, r) && s != [] && r != []
    ensures s[0].start >= r[0].start && (s[0].start == r[0].start ==> s[0].end >= r[0].end)
  {
    assert Covers(s[0], s[0].start);
    assert CoversAny(s, s[0].start);
    var i: nat :| i < |r| && Covers(r[i], s[0].start);
    if i > 0 {
      assert r[0].end <= r[i].start;
    }
    if s[0].start == r[0].start && s[0].end < r[0].end {
      assert Covers(r[0], s[0].end);
      assert CoversAny(r, s[0].end);
      var j: nat :| j < |s| && Covers(s[j], s[0].end);
      NextTouches(s, 0, j);
    }
  }

  lemma TailKept<P, V>(o: Ops<P, V>, s: seq<Iv<P>>)
    requires WellKept(o, s) && s != []
    ensures WellKept(o, s[1..])
  {
    forall i | 0 <= i && i + 1 < |s[1..]|
      ensures Apart(o, s[1..], i)
    {
      assert Apart(o, s, i + 1);
    }
  }

  lemma TailCovers<P>(s: seq<Iv<P>>, x: nat)
    requires Sorted(s) && s != []
    ensures CoversAny(s[1..], x) <==> CoversAny(s, x) && x >= s[0].end
  {
    if CoversAny(s, x) && x >= s[0].end {
      var i: nat :| i < |s| && Covers(s[i], x);
      assert Covers(s[1..][i - 1], x);
    }
    if CoversAny(s[1..], x) {
      var i: nat :| i < |s[1..]| && Covers(s[1..][i], x);
      assert Covers(s[i + 1], x);
      assert s[0].end <= s[i + 1].start;
    }
  }

  lemma TailCover<P>(s: seq<Iv<P>>, r: seq<Iv<P>>)
    requires Sorted(s) && Sorted(r) && s != [] && r != [] && s[0].end == r[0].end && SameCover(s, r)
    ensures SameCover(s[1..], r[1..])
  {
    hide CoversAny, Sorted;
    forall x: nat
      ensures CoversAny(s[1..], x) <==> CoversAny(r[1..], x)
    {
      TailCovers(s, x);
      TailCovers(r, x);
    }
  }

  /** Two runs of adds to plain lists that cover the same addresses leave the same list. */
  lemma RunsAreCanonical(lists: seq<seq<Iv<()>>>, values: seq<Iv<()>>, lists': seq<seq<Iv<()>>>, values': seq<Iv<()>>)
    requires AddRun(PlainOps(), lists, values) && AddRun(PlainOps(), lists', values')
    requires forall x: nat :: CoversAny(values, x) <==> CoversAny(values', x)
    ensures lists[|values|] == lists'[|values'|]
  {
    hide WellKept, CoversAny, AddStep, LastCovering, Lookup;
    var s, r := lists[|values|], lists'[|values'|];
    AddRunValue(PlainOps(), lists, values);
    AddRunValue(PlainOps(), lists', values');
    forall x: nat
      ensures CoversAny(s, x) <==> CoversAny(r, x)
    {
      CoveredIsValued(PlainOps(), s, x);
      CoveredIsValued(PlainOps(), r, x);
      LastCovers(PlainOps(), values, x);
      LastCovers(PlainOps(), values', x);
    }
    Canonical(s, r);
  }

  lemma {:induction false} LastCovers<P, V>(o: Ops<P, V>, values: seq<Iv<P>>, x: nat)
    ensures LastCovering(o, values, x).Some? <==> CoversAny(values, x)
    decreases |values|
  {
    if values != [] {
      var n := |values| - 1;
      LastCovers(o, values[..n], x);
      assert values == values[..n] + [values[n]];
      if CoversAny(values[..n], x) {
        var i: nat :| i < n && Covers(values[..n][i], x);
        assert Covers(values[i], x);
      }
      if CoversAny(values, x) && !Covers(values[n], x) {
        var i: nat :| i < |values| && Covers(values[i], x);
        assert Covers(values[..n][i], x);
      }
    }
  }

  // ----- the class -----

  class IntervalList<P(!new), V(!new)> {
    const ops: Ops<P, V>
    var intervals: seq<Iv<P>>

    ghost predicate Valid()
      reads this
    {
      Laws(ops) && Sorted(intervals) && Coalesced(ops, intervals)
    }

    /** The value of an address, if it is in the set. */
    ghost function Value(x: nat): Option<V>
      reads this
    {
      Lookup(ops, intervals, x)
    }

    constructor (o: Ops<P, V>)
      requires Laws(o)
      ensures Valid() && ops == o && intervals == []
    {
      ops := o;
      intervals := [];
    }

    /** The first interval that overlaps or touches the range on the right, and the first after it. */
    method OverlapRun(start: nat, end: nat) returns (first: nat, last: nat)
      ensures first == FirstEndAfter(intervals, start) <= last <= |intervals|
      ensures forall j | first <= j < last :: intervals[j].start <= end
      ensures last < |intervals| ==> intervals[last].start > end
    {
      first := FirstEndAfter(intervals, start);
      last := first;
      while last < |intervals| && intervals[last].start <= end
        invariant first <= last <= |intervals|
        invariant forall j | first <= j < last :: intervals[j].start <= end
      {
        last := last + 1;
      }
    }

    /** Puts `src` in place of the run, by overwriting, then erasing or inserting the difference. */
    method Splice(first: nat, last: nat, src: seq<Iv<P>>)
      requires first <= last <= |intervals|
      modifies this
      ensures intervals == old(intervals)[..first] + src + old(intervals)[last..]
    {
      if first == last {
        intervals := intervals[..first] + src + intervals[first..];
        return;
      }
      var slots := last - first;
      if |src| <= slots {
        intervals := intervals[..first] + src + intervals[first + |src|..];
        if |src| < slots {
          intervals := intervals[..first + |src|] + intervals[last..];
        }
      } else {
        intervals := intervals[..first] + src[..slots] + intervals[last..];
        intervals := intervals[..last] + src[slots..] + intervals[last..];
        assert src == src[..slots] + src[slots..];
      }
    }

    /** Merges what can be merged from the pair before `start` to the pair after `start + count`:
        enough, when every pair outside that window is known to be apart. */
    method Coalesce(start: nat, count: nat)
      requires Laws(ops) && Sorted(intervals) && ApartOutside(ops, intervals, start - 1, start + count)
      modifies this
      ensures Valid() && SameValues(ops, old(intervals), intervals)
    {
      hide Laws, Lookup, Joins, Apart;
      var stop := if start + count + 1 < |intervals| then start + count + 1 else |intervals|;
      var i := if start > 0 then start - 1 else start;
      while i + 1 < stop
        invariant 0 <= i && stop <= |intervals| && Sorted(intervals)
        invariant ApartOutside(ops, intervals, i, stop - 1)
        invariant SameValues(ops, old(intervals), intervals)
        decreases stop - i
      {
        var a, b := intervals[i], intervals[i + 1];
        if Joins(ops, a, b) {
          MergedSorted(intervals, i);
          MergedApart(ops, intervals, i, stop - 1);
          forall x: nat
            ensures Lookup(ops, Merged(intervals, i), x) == Lookup(ops, intervals, x)
          {
            MergedValue(ops, intervals, i, x);
          }
          intervals := intervals[..i] + [Iv(a.start, b.end, a.load)] + intervals[i + 2..];
          stop := stop - 1;
        } else {
          ApartHere(ops, intervals, i);
          i := i + 1;
        }
      }
    }

    /** The pieces that replace the run, collected in order. */
    method MakePieces(value: Iv<P>, first: nat, last: nat) returns (out: seq<Iv<P>>)
      requires first <= last <= |intervals|
      ensures out == Pieces(ops, intervals[first..last], value)
    {
      out := [];
      if first != last {
        if intervals[first].start < value.start {
          out := out + [ops.SubRange(intervals[first], intervals[first].start, value.start)];
        }
        out := out + [value];
        var prev := intervals[last - 1];
        if prev.end > value.end {
          out := out + [ops.SubRange(prev, value.end, prev.end)];
        }
      } else {
        out := out + [value];
      }
    }

    /** `Add`: the addresses of the value get its values, the others keep theirs; an empty or
        reversed range changes nothing. */
    method Add(value: Iv<P>)
      requires Valid()
      modifies this
      ensures Valid()
      ensures value.start >= value.end ==> intervals == old(intervals)
      ensures AddStep(ops, old(intervals), value, intervals)
    {
      hide Laws, Lookup, Apart, Sorted, Coalesced, IsRunOf, Fits, Pieces;
      if value.start >= value.end {
        return;
      }
      ghost var s := intervals;
      var first, last := OverlapRun(value.start, value.end);
      var out := MakePieces(value, first, last);
      ghost var pre, run, post := s[..first], s[first..last], s[last..];
      SplitRun(s, first, last, value);
      PiecesAre(ops, pre, run, post, value, out);
      Splice(first, last, out);
      ReplacedSorted(pre, run, post, out, value);
      ReplacedApart(ops, pre, run, post, out);
      forall x: nat
        ensures Lookup(ops, pre + out + post, x) == if Covers(value, x) then Some(ops.at(value, x))
          else Lookup(ops, s, x)
      {
        AddedValue(ops, pre, run, post, value, x);
      }
      Coalesce(first, |out|);
    }


    /** The pieces that replace the run: the old values that dominate the new one are kept. */
    method MakeDomPieces(value: Iv<P>, first: nat, last: nat) returns (out: seq<Iv<P>>)
      requires Laws(ops) && DominanceLaw(ops) && value.start < value.end && first <= last <= |intervals|
      requires MeetsAll(intervals[first..last], value)
      ensures Fits(intervals[first..last], out, value)
      ensures forall x: nat :: Lookup(ops, out, x) == Wanted(ops, intervals[first..last], value, x)
    {
      hide Laws, DominanceLaw, Lookup, Sorted, DomState, Fits, MeetsAll, Front, Back, Wanted;
      ghost var run := intervals[first..last];
      out := [];
      if first != last && intervals[first].start < value.start {
        out := out + [ops.SubRange(intervals[first], intervals[first].start, value.start)];
      }
      var cur: nat := value.start;
      FrontIs(ops, run, value);
      assert out == Front(ops, run, value);
      DomStart(ops, run, value);
      var it := first;
      ghost var k: nat := 0;
      while it != last
        invariant first <= it <= last && k == it - first
        invariant DomState(ops, run, value, out, cur, k)
        decreases last - it
      {
        if !ops.dominant(intervals[it], value) {
          DomSkip(ops, run, value, out, cur, k);
          it, k := it + 1, k + 1;
          continue;
        }
        var a := if intervals[it].start > value.start then intervals[it].start else value.start;
        var b := if intervals[it].end < value.end then intervals[it].end else value.end;
        DomBound(ops, run, value, out, cur, k, a, b);
        if a >= b {
          DomSkip(ops, run, value, out, cur, k);
          it, k := it + 1, k + 1;
          continue;
        }
        if cur < a {
          DomNew(ops, run, value, out, cur, k, a);
          out := out + [ops.SubRange(value, cur, a)];
        }
        DomKeep(ops, run, value, out, k, a, b);
        out := out + [ops.SubRange(intervals[it], a, b)];
        cur := b;
        it, k := it + 1, k + 1;
      }
      if cur < value.end {
        DomNew(ops, run, value, out, cur, k, value.end);
        out := out + [ops.SubRange(value, cur, value.end)];
      } else {
        DomFull(ops, run, value, out, cur);
      }
      ghost var mid := out;
      if first != last {
        var prev := intervals[last - 1];
        if prev.end > value.end {
          out := out + [ops.SubRange(prev, value.end, prev.end)];
        }
      }
      assert out == mid + Back(ops, run, value) by { BackIs(ops, run, value); }
      DomDone(ops, run, value, mid);
    }

    /** Merges neighbours among the pieces from left to right, in place. */
    method MergePieces(pieces: seq<Iv<P>>) returns (out: seq<Iv<P>>)
      requires Laws(ops) && Sorted(pieces) && pieces != []
      ensures Sorted(out) && out != [] && out[0].start == pieces[0].start
        && out[|out| - 1].end == pieces[|pieces| - 1].end
      ensures SameValues(ops, pieces, out)
    {
      hide Laws, Lookup, Joins, Sorted;
      out := pieces;
      var w: nat := 0;
      var r: nat := 1;
      assert out[..w + 1] + out[r..] == pieces;
      while r < |out|
        invariant w < r <= |out| == |pieces|
        invariant MergeState(ops, pieces, out[..w + 1] + out[r..])
      {
        ghost var m := out[..w + 1] + out[r..];
        if Joins(ops, out[w], out[r]) {
          MergeStep(ops, pieces, m, w);
          out := out[w := out[w].(end := out[r].end)];
          assert out[..w + 1] + out[r + 1..] == Merged(m, w);
        } else {
          w := w + 1;
          out := out[w := out[r]];
          assert out[..w + 1] + out[r + 1..] == m;
        }
        r := r + 1;
      }
      assert out[..w + 1] + out[r..] == out[..w + 1];
      if out != [] {
        out := out[..w + 1];
      }
    }

    /** `DomIntervalList::Add`: an address of the value keeps its old value if that one is dominant
        over the new one, and takes the new one otherwise. */
    method DomAdd(value: Iv<P>)
      requires Valid() && DominanceLaw(ops) && value.start < value.end
      modifies this
      ensures Valid()
      ensures DomStep(ops, old(intervals), value, intervals)
    {
      hide Laws, DominanceLaw, Lookup, Apart, Sorted, Coalesced, IsRunOf, Fits, MeetsAll, Wanted, Kept;
      ghost var s := intervals;
      var first, last := OverlapRun(value.start, value.end);
      ghost var pre, run, post := s[..first], s[first..last], s[last..];
      SplitRun(s, first, last, value);
      RunMeets(pre, run, post, value);
      var pieces := MakeDomPieces(value, first, last);
      FitsSorted(run, pieces, value);
      var out := MergePieces(pieces);
      FitsSame(run, pieces, out, value);
      Splice(first, last, out);
      ReplacedSorted(pre, run, post, out, value);
      ReplacedApart(ops, pre, run, post, out);
      forall x: nat
        ensures Lookup(ops, pre + out + post, x)
             == if Covers(value, x) then Kept(ops, Lookup(ops, s, x), ops.at(value, x)) else Lookup(ops, s, x)
      {
        assert Lookup(ops, out, x) == Lookup(ops, pieces, x);
        DomAddedValue(ops, pre, run, post, out, value, x);
      }
      Coalesce(first, |out|);
    }


    /** `Find`: the interval that contains the address, if any does; it gives the address its value. */
    method Find(addr: nat) returns (it: nat)
      requires Valid()
      ensures it <= |intervals|
      ensures it < |intervals| ==> Covers(intervals[it], addr) && Value(addr) == Some(ops.at(intervals[it], addr))
      ensures it == |intervals| <==> Value(addr) == None
    {
      hide Laws, Coalesced;
      it := FirstEndAfter(intervals, addr);
      if it == |intervals| || !(intervals[it].start <= addr && addr < intervals[it].end) {
        OnlyFirstEnding(intervals, addr);
        LookupNone(ops, intervals, addr);
        it := |intervals|;
      } else {
        LookupAt(ops, intervals, it, addr);
      }
    }

    /** `Contains(start, end)`: whether every address of a nonempty range is covered. */
    method ContainsRange(start: nat, end: nat) returns (r: bool)
      requires Valid()
      ensures r <==> start < end && CoversAll(intervals, start, end)
    {
      hide Laws, Coalesced, FirstEndAfter, Sorted, CoversAny;
      if start >= end {
        return false;
      }
      var it: nat := FirstEndAfter(intervals, start);
      var cur: nat := start;
      EndsBelow(intervals, start);
      while it < |intervals| && intervals[it].start <= cur && cur < end
        invariant it <= |intervals| && start <= cur && EndBy(intervals, it, cur)
        invariant CoversAll(intervals, start, cur)
        invariant it < |intervals| ==> intervals[it].end > cur
        decreases |intervals| - it
      {
        CoverMore(intervals, it, start, cur);
        cur := intervals[it].end;
        it := it + 1;
      }
      if cur < end {
        NotCovered(intervals, it, cur);
      }
      return cur >= end;
    }

    /** `FindCovering`: the interval that alone contains the range, or the end when none does. */
    method FindCovering(start: nat, end: nat) returns (it: nat)
      requires Valid()
      ensures it <= |intervals|
      ensures it < |intervals| ==> Contained(intervals[it], start, end)
      ensures it == |intervals| <==> !HasCovering(intervals, start, end)
    {
      hide Laws, Coalesced;
      it := FirstEndAfter(intervals, start);
      if !(it != |intervals| && intervals[it].start <= start && end <= intervals[it].end) {
        OnlyFirstEnding(intervals, start);
        it := |intervals|;
      }
    }

    /** `Overlaps`: whether some address of a nonempty range is covered. */
    method Overlaps(start: nat, end: nat) returns (r: bool)
      requires Valid()
      ensures r <==> exists x: nat | start <= x < end :: CoversAny(intervals, x)
    {
      hide Laws, Coalesced, FirstEndAfter;
      if start >= end {
        return false;
      }
      var it := FirstEndAfter(intervals, start);
      OverlapsWhen(intervals, start, end);
      return it != |intervals| && intervals[it].start < end;
    }

    /** `ForEachGap`: the ranges given to the callback, in order. */
    method ForEachGap(start: nat, end: nat) returns (gaps: seq<Iv<()>>)
      requires Valid()
      ensures AreGaps(intervals, start, end, gaps)
    {
      hide Laws, Coalesced, FirstEndAfter, GapState, AreGaps, Sorted;
      gaps := [];
      if start >= end {
        NoGaps(intervals, start, end);
        return;
      }
      var it: nat := FirstEndAfter(intervals, start);
      var cur: nat := start;
      GapStart(intervals, start, end);
      while it != |intervals| && intervals[it].start < end
        invariant it <= |intervals|
        invariant GapState(intervals, start, end, gaps, it, cur)
        decreases |intervals| - it
      {
        GapStep(intervals, start, end, gaps, it, cur);
        if intervals[it].start > cur {
          gaps := gaps + [Iv(cur, intervals[it].start, ())];
        }
        cur := if cur > intervals[it].end then cur else intervals[it].end;
        it := it + 1;
      }
      GapEnd(intervals, start, end, gaps, it, cur);
      if cur < end {
        gaps := gaps + [Iv(cur, end, ())];
      }
    }

    /** `ForEachInRange`: the intervals given to the callback are those that meet the range, in order. */
    method ForEachInRange(start: nat, end: nat) returns (seen: seq<Iv<P>>)
      requires Valid()
      ensures AreInRange(intervals, start, end, seen)
    {
      hide Laws, Coalesced, FirstEndAfter;
      seen := [];
      if start >= end {
        InRangeIs(intervals, start, end, 0, 0);
        return;
      }
      var it := FirstEndAfter(intervals, start);
      ghost var first := it;
      EndsBelow(intervals, start);
      while it != |intervals| && intervals[it].start < end
        invariant first <= it <= |intervals|
        invariant seen == intervals[first..it]
        invariant it > first ==> intervals[it - 1].start < end
        decreases |intervals| - it
      {
        seen := seen + [intervals[it]];
        it := it + 1;
      }
      InRangeIs(intervals, start, end, first, it);
    }
  }


  // ----- queries -----

  /** Only the first interval that ends after an address can cover it. */
  lemma OnlyFirstEnding<P>(s: seq<Iv<P>>, x: nat)
    requires Sorted(s)
    ensures forall j | 0 <= j < |s| && s[j].start <= x < s[j].end :: j == FirstEndAfter(s, x)
  {
    var i := FirstEndAfter(s, x);
    if i < |s| {
      assert forall j | i < j < |s| :: s[i].end <= s[j].start;
    }
  }

  predicate EndBy<P>(s: seq<Iv<P>>, n: nat, x: nat)
    requires n <= |s|
  {
    forall j | 0 <= j < n :: s[j].end <= x
  }

  lemma EndsBelow<P>(s: seq<Iv<P>>, x: nat)
    ensures FirstEndAfter(s, x) <= |s| && EndBy(s, FirstEndAfter(s, x), x)
    ensures FirstEndAfter(s, x) < |s| ==> s[FirstEndAfter(s, x)].end > x
  {
  }

  lemma CoverMore<P>(s: seq<Iv<P>>, it: nat, start: nat, cur: nat)
    requires Sorted(s) && it < |s| && s[it].start <= cur < s[it].end && CoversAll(s, start, cur) && EndBy(s, it, cur)
    ensures CoversAll(s, start, s[it].end) && EndBy(s, it + 1, s[it].end)
    ensures it + 1 < |s| ==> s[it + 1].end > s[it].end
  {
    forall x: nat | start <= x < s[it].end
      ensures CoversAny(s, x)
    {
      if x >= cur {
        assert Covers(s[it], x);
      }
    }
  }

  lemma NotCovered<P>(s: seq<Iv<P>>, it: nat, x: nat)
    requires Sorted(s) && it <= |s| && EndBy(s, it, x) && (it < |s| ==> s[it].start > x)
    ensures !CoversAny(s, x)
  {
    forall j | 0 <= j < |s|
      ensures !Covers(s[j], x)
    {
      if j > it {
        assert s[it].end <= s[j].start;
      }
    }
  }

  lemma OverlapsWhen<P>(s: seq<Iv<P>>, start: nat, end: nat)
    requires Sorted(s) && start < end
    ensures var i := FirstEndAfter(s, start);
      (i < |s| && s[i].start < end) <==> exists x: nat | start <= x < end :: CoversAny(s, x)
  {
    hide FirstEndAfter;
    EndsBelow(s, start);
    var i := FirstEndAfter(s, start);
    if i < |s| && s[i].start < end {
      var x := if s[i].start > start then s[i].start else start;
      assert Covers(s[i], x);
      assert CoversAny(s, x);
    } else {
      forall x: nat | start <= x < end
        ensures !CoversAny(s, x)
      {
        NotCovered(s, i, x);
      }
    }
  }

  /** The first address of a range is its start, or the one before it is covered. */
  predicate OpensGap<P>(s: seq<Iv<P>>, start: nat, a: nat) {
    a == start || (a > 0 && CoversAny(s, a - 1))
  }

  predicate ClosesGap<P>(s: seq<Iv<P>>, end: nat, b: nat) {
    b == end || CoversAny(s, b)
  }

  ghost predicate GapsUpTo<P>(s: seq<Iv<P>>, start: nat, upto: nat, gaps: seq<Iv<()>>) {
    forall x: nat :: CoversAny(gaps, x) <==> start <= x < upto && !CoversAny(s, x)
  }

  predicate Maximal<P>(s: seq<Iv<P>>, start: nat, end: nat, gaps: seq<Iv<()>>) {
    forall i | 0 <= i < |gaps| :: OpensGap(s, start, gaps[i].start) && ClosesGap(s, end, gaps[i].end)
  }

  /** In order and without overlap, exactly the addresses of the range that are not covered; no gap
      can be made longer. */
  ghost predicate AreGaps<P>(s: seq<Iv<P>>, start: nat, end: nat, gaps: seq<Iv<()>>) {
    Sorted(gaps) && GapsUpTo(s, start, end, gaps) && Maximal(s, start, end, gaps)
  }

  ghost predicate GapState<P>(s: seq<Iv<P>>, start: nat, end: nat, gaps: seq<Iv<()>>, it: nat, cur: nat) {
    && start < end && start <= cur && it <= |s| && EndBy(s, it, cur) && (it < |s| ==> s[it].end > start)
    && Sorted(gaps) && EndBy(gaps, |gaps|, cur) && Maximal(s, start, end, gaps) && OpensGap(s, start, cur)
    && GapsUpTo(s, start, cur, gaps) && CoversAll(s, end, cur)
  }

  lemma NoGaps<P>(s: seq<Iv<P>>, start: nat, end: nat)
    requires start >= end
    ensures AreGaps(s, start, end, [])
  {
  }

  lemma GapStart<P>(s: seq<Iv<P>>, start: nat, end: nat)
    requires start < end
    ensures GapState(s, start, end, [], FirstEndAfter(s, start), start)
  {
    hide FirstEndAfter;
    EndsBelow(s, start);
  }

  lemma CoversSnoc<P>(s: seq<Iv<P>>, iv: Iv<P>, x: nat)
    ensures CoversAny(s + [iv], x) <==> CoversAny(s, x) || Covers(iv, x)
  {
    if CoversAny(s, x) {
      var i: nat :| i < |s| && Covers(s[i], x);
      assert Covers((s + [iv])[i], x);
    }
    if Covers(iv, x) {
      assert Covers((s + [iv])[|s|], x);
    }
  }

  /** Appending the stretch up to the next covered address, or to the end of the range. */
  lemma AppendGap<P>(s: seq<Iv<P>>, start: nat, end: nat, gaps: seq<Iv<()>>, cur: nat, b: nat)
    requires start <= cur < b && Sorted(gaps) && EndBy(gaps, |gaps|, cur) && Maximal(s, start, end, gaps)
    requires OpensGap(s, start, cur) && ClosesGap(s, end, b) && GapsUpTo(s, start, cur, gaps)
    requires forall x: nat | cur <= x < b :: !CoversAny(s, x)
    ensures var g := gaps + [Iv(cur, b, ())];
      && Sorted(g) && EndBy(g, |g|, b) && Maximal(s, start, end, g)
      && GapsUpTo(s, start, b, g)
  {
    hide CoversAny;
    var g := gaps + [Iv(cur, b, ())];
    forall x: nat
      ensures CoversAny(g, x) <==> start <= x < b && !CoversAny(s, x)
    {
      CoversSnoc(gaps, Iv(cur, b, ()), x);
    }
  }

  lemma GapStep<P>(s: seq<Iv<P>>, start: nat, end: nat, gaps: seq<Iv<()>>, it: nat, cur: nat)
    requires Sorted(s) && GapState(s, start, end, gaps, it, cur) && it < |s| && s[it].start < end
    ensures GapState(s, start, end, if s[it].start > cur then gaps + [Iv(cur, s[it].start, ())] else gaps, it + 1,
                     if cur > s[it].end then cur else s[it].end)
  {
    hide CoversAny, Maximal, GapsUpTo, Sorted;
    var a, b := s[it].start, s[it].end;
    var g := if a > cur then gaps + [Iv(cur, a, ())] else gaps;
    EndsAfter(s, it, cur);
    if a > cur {
      forall x: nat | cur <= x < a
        ensures !CoversAny(s, x)
      {
        NotCovered(s, it, x);
      }
      InCovers(s, it, a);
      AppendGap(s, start, end, gaps, cur, a);
    }
    InCovers(s, it, b - 1);
    GapsSkip(s, start, g, it, if a > cur then a else cur);
    GapEnds(g, if a > cur then a else cur, if cur > b then cur else b);
    CoverPast(s, it, end, cur);
  }

  lemma EndsAfter<P>(s: seq<Iv<P>>, it: nat, cur: nat)
    requires Sorted(s) && it < |s| && EndBy(s, it, cur)
    ensures s[it].start < s[it].end && EndBy(s, it + 1, if cur > s[it].end then cur else s[it].end)
    ensures it + 1 < |s| ==> s[it + 1].end > s[it].end
  {
  }

  lemma InCovers<P>(s: seq<Iv<P>>, it: nat, x: nat)
    requires it < |s| && Covers(s[it], x)
    ensures CoversAny(s, x)
  {
  }

  lemma CoverPast<P>(s: seq<Iv<P>>, it: nat, end: nat, cur: nat)
    requires it < |s| && s[it].start < end && CoversAll(s, end, cur)
    ensures CoversAll(s, end, if cur > s[it].end then cur else s[it].end)
  {
    hide CoversAny;
    forall x: nat | end <= x < s[it].end
      ensures CoversAny(s, x)
    {
      InCovers(s, it, x);
    }
  }

  lemma GapEnds(g: seq<Iv<()>>, x: nat, y: nat)
    requires EndBy(g, |g|, x) && x <= y
    ensures EndBy(g, |g|, y)
  {
  }

  lemma GapsSkip<P>(s: seq<Iv<P>>, start: nat, gaps: seq<Iv<()>>, it: nat, cur: nat)
    requires it < |s| && s[it].start <= cur && GapsUpTo(s, start, cur, gaps)
    ensures GapsUpTo(s, start, if cur > s[it].end then cur else s[it].end, gaps)
  {
    hide CoversAny;
    forall x: nat | cur <= x < s[it].end
      ensures CoversAny(s, x)
    {
      InCovers(s, it, x);
    }
  }

  lemma GapEnd<P>(s: seq<Iv<P>>, start: nat, end: nat, gaps: seq<Iv<()>>, it: nat, cur: nat)
    requires Sorted(s) && GapState(s, start, end, gaps, it, cur) && (it == |s| || s[it].start >= end)
    ensures AreGaps(s, start, end, if cur < end then gaps + [Iv(cur, end, ())] else gaps)
  {
    hide CoversAny, Maximal, Sorted;
    if cur < end {
      forall x: nat | cur <= x < end
        ensures !CoversAny(s, x)
      {
        NotCovered(s, it, x);
      }
      AppendGap(s, start, end, gaps, cur, end);
    }
  }

  /** The stretch of the list from a to b holds exactly the intervals that meet the range. */
  predicate MeetBetween<P>(s: seq<Iv<P>>, start: nat, end: nat, a: nat, b: nat) {
    && a <= b <= |s|
    && forall i | 0 <= i < |s| :: Meets(s[i], start, end) <==> a <= i < b
  }

  predicate AreInRange<P(==)>(s: seq<Iv<P>>, start: nat, end: nat, seen: seq<Iv<P>>) {
    exists a, b | 0 <= a <= b <= |s| :: MeetBetween(s, start, end, a, b) && seen == s[a..b]
  }

  predicate Meets<P>(iv: Iv<P>, start: nat, end: nat) {
    exists x | start <= x < end :: Covers(iv, x)
  }

  lemma MeetsWhen<P>(iv: Iv<P>, start: nat, end: nat)
    requires iv.start < iv.end
    ensures Meets(iv, start, end) <==> start < end && iv.start < end && start < iv.end
  {
    if start < end && iv.start < end && start < iv.end {
      assert Covers(iv, if iv.start > start then iv.start else start);
    }
  }

  lemma InRangeIs<P>(s: seq<Iv<P>>, start: nat, end: nat, a: nat, b: nat)
    requires Sorted(s) && a <= b <= |s|
    requires start < end ==> a == FirstEndAfter(s, start)
    requires start >= end ==> a == b
    requires b > a ==> s[b - 1].start < end
    requires b < |s| && start < end ==> s[b].start >= end
    ensures AreInRange(s, start, end, s[a..b])
  {
    hide FirstEndAfter, Meets;
    EndsBelow(s, start);
    forall i | 0 <= i < |s|
      ensures Meets(s[i], start, end) <==> a <= i < b
    {
      MeetsWhen(s[i], start, end);
    }
    assert MeetBetween(s, start, end, a, b);
  }

  function Clip<P>(iv: Iv<P>, start: nat, end: nat): Iv<P> {
    Iv(if iv.start > start then iv.start else start, if iv.end < end then iv.end else end, iv.load)
  }

  function Clipped<P>(s: seq<Iv<P>>, start: nat, end: nat): (r: seq<Iv<P>>)
    ensures |r| == |s| && forall i | 0 <= i < |s| :: r[i] == Clip(s[i], start, end)
  {
    seq(|s|, i requires 0 <= i < |s| => Clip(s[i], start, end))
  }

  /** The gaps and the clipped intervals tile the range: each of the two is in order and without
      overlap, no address is in both, and together they hold the addresses of the range, no others. */
  lemma Tiles<P>(s: seq<Iv<P>>, start: nat, end: nat, gaps: seq<Iv<()>>, seen: seq<Iv<P>>)
    requires Sorted(s) && AreGaps(s, start, end, gaps) && AreInRange(s, start, end, seen)
    ensures var parts := Clipped(seen, start, end);
      && Sorted(gaps) && Sorted(parts)
      && forall x: nat ::
        && !(CoversAny(gaps, x) && CoversAny(parts, x))
        && (CoversAny(gaps, x) || CoversAny(parts, x) <==> start <= x < end)
  {
    hide CoversAny, Sorted, MeetBetween, Maximal;
    var a: nat, b: nat :| a <= b <= |s| && MeetBetween(s, start, end, a, b) && seen == s[a..b];
    ClippedSorted(s, start, end, a, b);
    forall x: nat
      ensures CoversAny(Clipped(seen, start, end), x) <==> start <= x < end && CoversAny(s, x)
    {
      ClippedCovers(s, start, end, a, b, x);
    }
  }

  lemma ClippedSorted<P>(s: seq<Iv<P>>, start: nat, end: nat, a: nat, b: nat)
    requires Sorted(s) && MeetBetween(s, start, end, a, b)
    ensures Sorted(Clipped(s[a..b], start, end))
  {
    hide Meets;
    forall i | a <= i < b
      ensures s[i].start < s[i].end && start < end && s[i].start < end && start < s[i].end
    {
      MeetsWhen(s[i], start, end);
    }
  }

  lemma ClippedCovers<P>(s: seq<Iv<P>>, start: nat, end: nat, a: nat, b: nat, x: nat)
    requires MeetBetween(s, start, end, a, b)
    ensures CoversAny(Clipped(s[a..b], start, end), x) <==> start <= x < end && CoversAny(s, x)
  {
    var r := Clipped(s[a..b], start, end);
    if CoversAny(r, x) {
      var i: nat :| i < |r| && Covers(r[i], x);
      assert Covers(s[a + i], x);
    }
    if start <= x < end && CoversAny(s, x) {
      var i: nat :| i < |s| && Covers(s[i], x);
      assert Meets(s[i], start, end);
      assert Covers(r[i - a], x);
    }
  }

  // ----- keeping what dominates -----

  function Wanted<P, V>(o: Ops<P, V>, run: seq<Iv<P>>, value: Iv<P>, x: nat): Option<V> {
    if Covers(value, x) then Kept(o, Lookup(o, run, x), o.at(value, x)) else Lookup(o, run, x)
  }

  predicate MeetsAll<P>(run: seq<Iv<P>>, value: Iv<P>) {
    Sorted(run) && forall i | 0 <= i < |run| :: run[i].end > value.start && run[i].start <= value.end
  }

  lemma RunMeets<P>(pre: seq<Iv<P>>, run: seq<Iv<P>>, post: seq<Iv<P>>, value: Iv<P>)
    requires IsRunOf(pre, run, post, value)
    ensures MeetsAll(run, value)
  {
  }

  /** Pieces made from the first k intervals: right below `cur`, and from there on none of the k
      keeps anything. */
  ghost predicate DomState<P(!new), V(!new)>(o: Ops<P, V>, run: seq<Iv<P>>, value: Iv<P>, out: seq<Iv<P>>, cur: nat,
                             k: nat) {
    && k <= |run| && value.start <= cur <= value.end && Sorted(out)
    && (forall i | 0 <= i < |out| :: out[i].end <= cur)
    && (forall i | 0 <= i < |out| :: out[i].start >= value.start || (run != [] && out[i].start >= run[0].start))
    && (forall j | k <= j < |run| :: cur <= run[j].start || cur == value.start)
    && (forall j | 0 <= j < k ::
      !o.dominant(run[j], value) || run[j].end <= cur || cur == value.end
      || run[j].start >= value.end)
    && (cur > value.start ==> out != [])
    && (forall x: nat | x < cur :: Lookup(o, out, x) == Wanted(o, run, value, x))
  }

  lemma DomStart<P(!new), V(!new)>(o: Ops<P, V>, run: seq<Iv<P>>, value: Iv<P>)
    requires Laws(o) && value.start < value.end && MeetsAll(run, value)
    ensures DomState(o, run, value, Front(o, run, value), value.start, 0)
  {
    hide Laws, Lookup;
    forall x: nat | x < value.start
      ensures Lookup(o, Front(o, run, value), x) == Wanted(o, run, value, x)
    {
      FrontValue(o, run, value, x);
    }
  }

  lemma DomSkip<P(!new), V(!new)>(o: Ops<P, V>, run: seq<Iv<P>>, value: Iv<P>, out: seq<Iv<P>>, cur: nat, k: nat)
    requires DomState(o, run, value, out, cur, k) && k < |run| && MeetsAll(run, value)
    requires !o.dominant(run[k], value) || run[k].start >= value.end
    ensures DomState(o, run, value, out, cur, k + 1)
  {
    hide Lookup, Wanted, Sorted;
  }

  lemma DomBound<P(!new), V(!new)>(o: Ops<P, V>, run: seq<Iv<P>>, value: Iv<P>, out: seq<Iv<P>>, cur: nat, k: nat,
                   a: nat, b: nat)
    requires DomState(o, run, value, out, cur, k) && k < |run| && MeetsAll(run, value) && value.start < value.end
    requires a == if run[k].start > value.start then run[k].start else value.start
    requires b == if run[k].end < value.end then run[k].end else value.end
    ensures cur <= a && (cur < a ==> a == run[k].start) && (a >= b ==> run[k].start >= value.end)
  {
    hide Lookup, Wanted;
  }

  /** Appending one piece that holds what is wanted. */
  lemma DomAppend<P(!new), V(!new)>(o: Ops<P, V>, run: seq<Iv<P>>, value: Iv<P>, out: seq<Iv<P>>, piece: Iv<P>, x: nat)
    requires forall i | 0 <= i < |out| :: out[i].end <= piece.start
    requires x < piece.start ==> Lookup(o, out, x) == Wanted(o, run, value, x)
    requires piece.start <= x < piece.end ==> Wanted(o, run, value, x) == Some(o.at(piece, x))
    requires x < piece.end
    ensures Lookup(o, out + [piece], x) == Wanted(o, run, value, x)
  {
    hide Wanted, Lookup;
    LookupConcat(o, out, [piece], x);
    LookupOne(o, piece, x);
    if x >= piece.start {
      LookupNone(o, out, x);
    }
  }

  /** Where no interval of the run that covers an address is dominant, the new value is wanted. */
  lemma WantedNew<P(!new), V(!new)>(o: Ops<P, V>, run: seq<Iv<P>>, value: Iv<P>, x: nat)
    requires DominanceLaw(o) && Covers(value, x) && Sorted(run)
    requires forall j | 0 <= j < |run| && Covers(run[j], x) :: !o.dominant(run[j], value)
    ensures Wanted(o, run, value, x) == Some(o.at(value, x))
  {
    hide Lookup, Sorted;
    LookupNone(o, run, x);
    if j: nat :| j < |run| && Covers(run[j], x) {
      LookupAt(o, run, j, x);
    }
  }

  lemma DomNew<P(!new), V(!new)>(o: Ops<P, V>, run: seq<Iv<P>>, value: Iv<P>, out: seq<Iv<P>>, cur: nat, k: nat, a: nat)
    requires Laws(o) && DominanceLaw(o) && MeetsAll(run, value) && DomState(o, run, value, out, cur, k)
    requires cur < a <= value.end && (k < |run| ==> a <= run[k].start) && (k == |run| ==> a == value.end)
    ensures DomState(o, run, value, out + [o.SubRange(value, cur, a)], a, k)
  {
    hide DominanceLaw, Wanted, Lookup;
    var piece := o.SubRange(value, cur, a);
    forall x: nat | x < a
      ensures Lookup(o, out + [piece], x) == Wanted(o, run, value, x)
    {
      if x >= cur {
        forall j | 0 <= j < |run| && Covers(run[j], x)
          ensures !o.dominant(run[j], value)
        {
        }
        WantedNew(o, run, value, x);
      }
      DomAppend(o, run, value, out, piece, x);
    }
  }

  lemma DomKeep<P(!new), V(!new)>(o: Ops<P, V>, run: seq<Iv<P>>, value: Iv<P>, out: seq<Iv<P>>, k: nat, a: nat, b: nat)
    requires Laws(o) && DominanceLaw(o) && MeetsAll(run, value) && DomState(o, run, value, out, a, k)
    requires k < |run| && o.dominant(run[k], value) && a < b
    requires a == if run[k].start > value.start then run[k].start else value.start
    requires b == if run[k].end < value.end then run[k].end else value.end
    ensures DomState(o, run, value, out + [o.SubRange(run[k], a, b)], b, k + 1)
  {
    hide Lookup;
    var piece := o.SubRange(run[k], a, b);
    forall x: nat | x < b
      ensures Lookup(o, out + [piece], x) == Wanted(o, run, value, x)
    {
      if x >= a {
        LookupAt(o, run, k, x);
      }
      DomAppend(o, run, value, out, piece, x);
    }
  }

  lemma DomFull<P(!new), V(!new)>(o: Ops<P, V>, run: seq<Iv<P>>, value: Iv<P>, out: seq<Iv<P>>, cur: nat)
    requires DomState(o, run, value, out, cur, |run|) && cur >= value.end
    ensures cur == value.end
  {
    hide Lookup, Wanted, Sorted;
  }

  lemma FrontIs<P, V>(o: Ops<P, V>, run: seq<Iv<P>>, value: Iv<P>)
    ensures Front(o, run, value) == if run != []
      && run[0].start < value.start then [o.SubRange(run[0], run[0].start, value.start)] else []
  {
  }

  lemma BackIs<P, V>(o: Ops<P, V>, run: seq<Iv<P>>, value: Iv<P>)
    ensures Back(o, run, value) == if run != []
      && run[|run| - 1].end > value.end then [o.SubRange(run[|run| - 1], value.end, run[|run| - 1].end)] else []
  {
  }

  lemma DomDone<P(!new), V(!new)>(o: Ops<P, V>, run: seq<Iv<P>>, value: Iv<P>, mid: seq<Iv<P>>)
    requires Laws(o) && value.start < value.end && MeetsAll(run, value)
      && DomState(o, run, value, mid, value.end, |run|)
    ensures Fits(run, mid + Back(o, run, value), value)
    ensures forall x: nat :: Lookup(o, mid + Back(o, run, value), x) == Wanted(o, run, value, x)
  {
    hide Laws, Lookup, Kept;
    var back := Back(o, run, value);
    SortedConcat(mid, back);
    forall x: nat
      ensures Lookup(o, mid + back, x) == Wanted(o, run, value, x)
    {
      LookupConcat(o, mid, back, x);
      BackValue(o, run, value, x);
      if x >= value.end {
        LookupNone(o, mid, x);
      } else {
        LookupNone(o, back, x);
      }
    }
  }

  // ----- merging the pieces -----

  ghost predicate MergeState<P(!new), V(!new)>(o: Ops<P, V>, pieces: seq<Iv<P>>, m: seq<Iv<P>>) {
    && pieces != [] && Sorted(m) && m != []
    && m[0].start == pieces[0].start && m[|m| - 1].end == pieces[|pieces| - 1].end
    && SameValues(o, pieces, m)
  }

  lemma MergeStep<P(!new), V(!new)>(o: Ops<P, V>, pieces: seq<Iv<P>>, m: seq<Iv<P>>, w: nat)
    requires Laws(o) && MergeState(o, pieces, m) && w + 1 < |m| && Joins(o, m[w], m[w + 1])
    ensures MergeState(o, pieces, Merged(m, w))
  {
    hide Laws, Lookup, Joins, Sorted;
    MergedSorted(m, w);
    forall x: nat
      ensures Lookup(o, Merged(m, w), x) == Lookup(o, pieces, x)
    {
      MergedValue(o, m, w, x);
    }
  }

  lemma FitsSorted<P>(run: seq<Iv<P>>, out: seq<Iv<P>>, value: Iv<P>)
    requires Fits(run, out, value)
    ensures Sorted(out) && out != []
  {
  }

  lemma FitsSame<P>(run: seq<Iv<P>>, pieces: seq<Iv<P>>, out: seq<Iv<P>>, value: Iv<P>)
    requires Fits(run, pieces, value)
    requires Sorted(out) && out != [] && out[0].start == pieces[0].start
      && out[|out| - 1].end == pieces[|pieces| - 1].end
    ensures Fits(run, out, value)
  {
    forall i | 0 <= i < |out|
      ensures out[i].start >= out[0].start && out[i].end <= out[|out| - 1].end
    {
      if i > 0 {
        assert out[0].end <= out[i].start;
      }
      if i < |out| - 1 {
        assert out[i].end <= out[|out| - 1].start;
      }
    }
  }

  /** Only the run counts for the addresses of the value. */
  lemma LookupInRun<P, V>(o: Ops<P, V>, pre: seq<Iv<P>>, run: seq<Iv<P>>, post: seq<Iv<P>>, value: Iv<P>, x: nat)
    requires IsRunOf(pre, run, post, value) && Covers(value, x)
    ensures Lookup(o, pre + run + post, x) == Lookup(o, run, x)
  {
    hide Lookup, Sorted;
    LookupConcat(o, pre + run, post, x);
    LookupConcat(o, pre, run, x);
    LookupNone(o, pre, x);
    LookupNone(o, post, x);
  }

  lemma DomAddedValue<P(!new), V(!new)>(o: Ops<P, V>, pre: seq<Iv<P>>, run: seq<Iv<P>>, post: seq<Iv<P>>,
                        out: seq<Iv<P>>,
                                        value: Iv<P>, x: nat)
    requires IsRunOf(pre, run, post, value) && Lookup(o, out, x) == Wanted(o, run, value, x)
    ensures Lookup(o, pre + out + post, x)
         == if Covers(value, x) then Kept(o, Lookup(o, pre + run + post, x), o.at(value, x))
           else Lookup(o, pre + run + post, x)
  {
    hide Lookup, Sorted, IsRunOf;
    ReplacedValue(o, pre, run, post, out, value, x, Wanted(o, run, value, x));
    if Covers(value, x) {
      LookupInRun(o, pre, run, post, value, x);
    }
  }

  // ----- replacing a run -----

  /** The run that a value meets: what lies before it ends at or before the value, what lies after
      it starts after the value. */
  predicate IsRunOf<P>(pre: seq<Iv<P>>, run: seq<Iv<P>>, post: seq<Iv<P>>, value: Iv<P>) {
    && Sorted(pre + run + post) && Sorted(run)
    && (forall i | 0 <= i < |pre| :: pre[i].end <= value.start)
    && (forall i | 0 <= i < |run| :: run[i].end > value.start && run[i].start <= value.end)
    && (forall i | 0 <= i < |post| :: post[i].start > value.end)
  }

  lemma SplitRun<P>(s: seq<Iv<P>>, first: nat, last: nat, value: Iv<P>)
    requires Sorted(s) && first == FirstEndAfter(s, value.start) <= last <= |s|
    requires forall j | first <= j < last :: s[j].start <= value.end
    requires last < |s| ==> s[last].start > value.end
    ensures s == s[..first] + s[first..last] + s[last..]
    ensures IsRunOf(s[..first], s[first..last], s[last..], value)
  {
    hide Sorted, FirstEndAfter, IsRunOf;
    ThreeParts(s, first, last);
    SortedPart(s, first, last);
    RunBounds(s, first, last, value);
    RunIs(s, s[..first], s[first..last], s[last..], value);
  }

  lemma RunIs<P>(s: seq<Iv<P>>, pre: seq<Iv<P>>, run: seq<Iv<P>>, post: seq<Iv<P>>, value: Iv<P>)
    requires Sorted(s) && s == pre + run + post && Sorted(run)
    requires forall i | 0 <= i < |pre| :: pre[i].end <= value.start
    requires forall i | 0 <= i < |run| :: run[i].end > value.start && run[i].start <= value.end
    requires forall i | 0 <= i < |post| :: post[i].start > value.end
    ensures IsRunOf(pre, run, post, value)
  {
    hide Sorted;
  }

  lemma ThreeParts<T>(s: seq<T>, a: nat, b: nat)
    requires a <= b <= |s|
    ensures s == s[..a] + s[a..b] + s[b..]
  {
  }

  lemma SortedPart<P>(s: seq<Iv<P>>, a: nat, b: nat)
    requires Sorted(s) && a <= b <= |s|
    ensures Sorted(s[a..b])
  {
  }

  lemma RunBounds<P>(s: seq<Iv<P>>, first: nat, last: nat, value: Iv<P>)
    requires Sorted(s) && first == FirstEndAfter(s, value.start) <= last <= |s|
    requires forall j | first <= j < last :: s[j].start <= value.end
    requires last < |s| ==> s[last].start > value.end
    ensures forall i | 0 <= i < |s[..first]| :: s[..first][i].end <= value.start
    ensures forall i | 0 <= i < |s[first..last]| ::
      && s[first..last][i].end > value.start
      && s[first..last][i].start <= value.end
    ensures forall i | 0 <= i < |s[last..]| :: s[last..][i].start > value.end
  {
    hide FirstEndAfter;
    forall i | first <= i < last
      ensures s[i].end > value.start
    {
      if i > first {
        assert s[first].end <= s[i].start < s[i].end;
      }
    }
    forall i | last <= i < |s|
      ensures s[i].start > value.end
    {
      if i > last {
        assert s[last].end <= s[i].start;
        assert s[last].start < s[last].end;
      }
    }
  }

  /** What Add puts in place of the run: the part of the first interval before the value, the
      value, the part of the last interval behind it. */
  function Pieces<P, V>(o: Ops<P, V>, run: seq<Iv<P>>, value: Iv<P>): seq<Iv<P>> {
    Front(o, run, value) + [value] + Back(o, run, value)
  }

  function Front<P, V>(o: Ops<P, V>, run: seq<Iv<P>>, value: Iv<P>): seq<Iv<P>> {
    if run != [] && run[0].start < value.start then [o.SubRange(run[0], run[0].start, value.start)] else []
  }

  function Back<P, V>(o: Ops<P, V>, run: seq<Iv<P>>, value: Iv<P>): seq<Iv<P>> {
    if run != [] && run[|run| - 1].end > value.end then [o.SubRange(run[|run| - 1], value.end, run[|run| - 1].end)]
      else []
  }

  /** Pieces fit between what comes before and what comes after the run. */
  predicate Fits<P>(run: seq<Iv<P>>, out: seq<Iv<P>>, value: Iv<P>) {
    && Sorted(out) && out != []
    && (forall i | 0 <= i < |out| :: out[i].start >= value.start || (run != [] && out[i].start >= run[0].start))
    && (forall i | 0 <= i < |out| :: out[i].end <= value.end || (run != [] && out[i].end <= run[|run| - 1].end))
  }

  lemma PiecesAre<P, V>(o: Ops<P, V>, pre: seq<Iv<P>>, run: seq<Iv<P>>, post: seq<Iv<P>>, value: Iv<P>, out: seq<Iv<P>>)
    requires value.start < value.end && IsRunOf(pre, run, post, value)
    requires out == Pieces(o, run, value)
    ensures Fits(run, out, value)
  {
  }

  predicate Ordered<P>(a: seq<Iv<P>>, b: seq<Iv<P>>) {
    forall i, j | 0 <= i < |a| && 0 <= j < |b| :: a[i].end <= b[j].start
  }

  lemma SortedConcat<P>(a: seq<Iv<P>>, b: seq<Iv<P>>)
    ensures Sorted(a + b) <==> Sorted(a) && Sorted(b) && Ordered(a, b)
  {
    var s := a + b;
    if Sorted(s) {
      forall i, j | 0 <= i < |a| && 0 <= j < |b|
        ensures a[i].end <= b[j].start
      {
        assert s[i].end <= s[|a| + j].start;
      }
      assert a == s[..|a|] && b == s[|a|..];
    }
  }

  lemma OrderedConcat<P>(a: seq<Iv<P>>, b: seq<Iv<P>>, c: seq<Iv<P>>)
    ensures Ordered(a + b, c) <==> Ordered(a, c) && Ordered(b, c)
  {
    if Ordered(a + b, c) {
      forall i, j | 0 <= i < |a| && 0 <= j < |c|
        ensures a[i].end <= c[j].start
      {
        assert (a + b)[i] == a[i];
      }
      forall i, j | 0 <= i < |b| && 0 <= j < |c|
        ensures b[i].end <= c[j].start
      {
        assert (a + b)[|a| + i] == b[i];
      }
    }
  }

  lemma OrderedFit<P>(pre: seq<Iv<P>>, run: seq<Iv<P>>, post: seq<Iv<P>>, out: seq<Iv<P>>, value: Iv<P>)
    requires IsRunOf(pre, run, post, value) && Fits(run, out, value)
    requires Ordered(pre, run) && Ordered(run, post)
    ensures Ordered(pre, out) && Ordered(out, post)
  {
    hide Sorted;
  }

  lemma ReplacedSorted<P>(pre: seq<Iv<P>>, run: seq<Iv<P>>, post: seq<Iv<P>>, out: seq<Iv<P>>, value: Iv<P>)
    requires IsRunOf(pre, run, post, value) && Fits(run, out, value)
    ensures Sorted(pre + out + post)
  {
    hide Ordered, Sorted;
    SortedConcat(pre + run, post);
    SortedConcat(pre, run);
    OrderedConcat(pre, run, post);
    OrderedFit(pre, run, post, out, value);
    SortedConcat(pre, out);
    OrderedConcat(pre, out, post);
    SortedConcat(pre + out, post);
  }

  /** Outside the replaced run and its two seams, neighbours are as they were. */
  lemma ReplacedApart<P, V>(o: Ops<P, V>, pre: seq<Iv<P>>, run: seq<Iv<P>>, post: seq<Iv<P>>, out: seq<Iv<P>>)
    requires Coalesced(o, pre + run + post)
    ensures ApartOutside(o, pre + out + post, |pre| - 1, |pre| + |out|)
  {
    hide Joins;
    var s, r := pre + run + post, pre + out + post;
    forall j | 0 <= j && j + 1 < |r| && (j < |pre| - 1 || j >= |pre| + |out|)
      ensures Apart(o, r, j)
    {
      var k := if j < |pre| - 1 then j else j - |out| + |run|;
      assert Apart(o, s, k);
      assert r[j] == s[k] && r[j + 1] == s[k + 1];
    }
  }

  lemma ReplacedValue<P, V>(o: Ops<P, V>, pre: seq<Iv<P>>, run: seq<Iv<P>>, post: seq<Iv<P>>, out: seq<Iv<P>>,
                            value: Iv<P>,
                            x: nat, v: Option<V>)
    requires IsRunOf(pre, run, post, value) && Lookup(o, out, x) == v
    requires v == Lookup(o, run, x) || (Covers(value, x) && v.Some?)
    ensures Lookup(o, pre + out + post, x) == if Covers(value, x) && v.Some? then v else Lookup(o, pre + run + post, x)
  {
    LookupConcat(o, pre + out, post, x);
    LookupConcat(o, pre, out, x);
    LookupConcat(o, pre + run, post, x);
    LookupConcat(o, pre, run, x);
    if Covers(value, x) {
      LookupNone(o, pre, x);
    }
  }

  lemma AddedValue<P(!new), V(!new)>(o: Ops<P, V>, pre: seq<Iv<P>>, run: seq<Iv<P>>, post: seq<Iv<P>>, value: Iv<P>,
                     x: nat)
    requires Laws(o) && value.start < value.end && IsRunOf(pre, run, post, value)
    ensures Lookup(o, pre + Pieces(o, run, value) + post, x)
         == if Covers(value, x) then Some(o.at(value, x)) else Lookup(o, pre + run + post, x)
  {
    hide Laws, Lookup, Sorted, Pieces;
    PiecesValue(o, run, value, x);
    ReplacedValue(o, pre, run, post, Pieces(o, run, value), value, x,
                  if Covers(value, x) then Some(o.at(value, x)) else Lookup(o, run, x));
  }

  /** In a sorted list, before the end of the first interval only the first counts. */
  lemma LookupLow<P, V>(o: Ops<P, V>, s: seq<Iv<P>>, x: nat)
    requires Sorted(s) && s != [] && x < s[0].end
    ensures Lookup(o, s, x) == if Covers(s[0], x) then Some(o.at(s[0], x)) else None
  {
    LookupNone(o, s, x);
  }

  /** And from the start of the last one on, only the last. */
  lemma LookupHigh<P, V>(o: Ops<P, V>, s: seq<Iv<P>>, x: nat)
    requires Sorted(s) && s != [] && x >= s[|s| - 1].start
    ensures Lookup(o, s, x) == if Covers(s[|s| - 1], x) then Some(o.at(s[|s| - 1], x)) else None
  {
    if Covers(s[|s| - 1], x) {
      LookupAt(o, s, |s| - 1, x);
    } else {
      LookupNone(o, s, x);
    }
  }

  lemma FrontValue<P(!new), V(!new)>(o: Ops<P, V>, run: seq<Iv<P>>, value: Iv<P>, x: nat)
    requires Laws(o) && Sorted(run) && forall i | 0 <= i < |run| :: run[i].end > value.start
    ensures Lookup(o, Front(o, run, value), x) == if x < value.start then Lookup(o, run, x) else None
  {
    if run != [] {
      if run[0].start < value.start {
        LookupOne(o, o.SubRange(run[0], run[0].start, value.start), x);
      }
      if x < value.start {
        LookupLow(o, run, x);
      }
    }
  }

  lemma BackValue<P(!new), V(!new)>(o: Ops<P, V>, run: seq<Iv<P>>, value: Iv<P>, x: nat)
    requires Laws(o) && Sorted(run) && forall i | 0 <= i < |run| :: run[i].start <= value.end
    ensures Lookup(o, Back(o, run, value), x) == if x >= value.end then Lookup(o, run, x) else None
  {
    if run != [] {
      var l := run[|run| - 1];
      if l.end > value.end {
        LookupOne(o, o.SubRange(l, value.end, l.end), x);
      }
      if x >= value.end {
        LookupHigh(o, run, x);
      }
    }
  }

  lemma PiecesValue<P(!new), V(!new)>(o: Ops<P, V>, run: seq<Iv<P>>, value: Iv<P>, x: nat)
    requires Laws(o) && value.start < value.end && Sorted(run)
    requires forall i | 0 <= i < |run| :: run[i].end > value.start && run[i].start <= value.end
    ensures Lookup(o, Pieces(o, run, value), x) == if Covers(value, x) then Some(o.at(value, x)) else Lookup(o, run, x)
  {
    hide Laws, Lookup, Front, Back;
    LookupConcat(o, Front(o, run, value) + [value], Back(o, run, value), x);
    LookupConcat(o, Front(o, run, value), [value], x);
    LookupOne(o, value, x);
    FrontValue(o, run, value, x);
    BackValue(o, run, value, x);
  }

  lemma ApartHere<P, V>(o: Ops<P, V>, s: seq<Iv<P>>, i: nat)
    requires i + 1 < |s| && !Joins(o, s[i], s[i + 1])
    ensures Apart(o, s, i)
  {
  }
}
