/**
 The send queue refines a simple specification: sort everything offered by
 priority, stably, and keep the first eight emergency frames and as many of the
 first six ordinary ones as then fit.
 */
module SendQueueRefinement {
  import opened CanTypes
  import opened CanFrameTransport

  /* ---- Stable sorting ---- */

  function StableSort<C>(fs: seq<Frame<C>>): (r: seq<Frame<C>>)
    ensures |r| == |fs|
  {
    if fs == [] then [] else Inserted(StableSort(fs[..|fs| - 1]), fs[|fs| - 1])
  }

  /** The frames of one priority, in order. */
  function OfPriority<C>(fs: seq<Frame<C>>, p: nat): seq<Frame<C>> {
    if fs == [] then []
    else OfPriority(fs[..|fs| - 1], p) + if fs[|fs| - 1].priority == p then [fs[|fs| - 1]] else []
  }

  lemma {:induction false} OfPriorityConcat<C>(a: seq<Frame<C>>, b: seq<Frame<C>>, p: nat)
    ensures OfPriority(a + b, p) == OfPriority(a, p) + OfPriority(b, p)
  {
    if b == [] {
      assert a + b == a;
    } else {
      var init := b[..|b| - 1];
      assert (a + b)[..|a + b| - 1] == a + init;
      OfPriorityConcat(a, init, p);
    }
  }

  lemma {:induction false} InsertedSplit<C>(a: seq<Frame<C>>, b: seq<Frame<C>>, f: Frame<C>)
    requires forall i :: 0 <= i < |a| ==> a[i].priority <= f.priority
    ensures Inserted(a + b, f) == a + Inserted(b, f)
  {
    if a == [] {
      assert a + b == b;
    } else {
      assert (a + b)[1..] == a[1..] + b;
      InsertedSplit(a[1..], b, f);
      assert [a[0]] + (a[1..] + Inserted(b, f)) == a + Inserted(b, f);
    }
  }

  /** Where insertion puts a frame: a split of the sorted queue. */
  lemma InsertedAt<C>(q: seq<Frame<C>>, f: Frame<C>) returns (k: nat)
    requires Sorted(q)
    ensures k <= |q| && Inserted(q, f) == q[..k] + [f] + q[k..]
    ensures forall i :: 0 <= i < k ==> q[i].priority <= f.priority
    ensures forall i :: k <= i < |q| ==> q[i].priority > f.priority
  {
    k := 0;
    while k < |q| && q[k].priority <= f.priority
      invariant 0 <= k <= |q| && forall i :: 0 <= i < k ==> q[i].priority <= f.priority
    {
      k := k + 1;
    }
    InsertedBefore(q, f, k);
  }

  lemma OfPrioritySingle<C>(f: Frame<C>, p: nat)
    ensures OfPriority([f], p) == if f.priority == p then [f] else []
  {
    assert [f][..0] == [];
  }

  lemma OfPriorityBetween<C>(front: seq<Frame<C>>, f: Frame<C>, back: seq<Frame<C>>, p: nat)
    requires forall i :: 0 <= i < |back| ==> back[i].priority > f.priority
    ensures OfPriority(front + [f] + back, p) == OfPriority(front + back, p) + (if f.priority == p then [f] else [])
  {
    OfPriorityConcat(front, back, p);
    OfPriorityConcat(front + [f], back, p);
    OfPriorityConcat(front, [f], p);
    OfPrioritySingle(f, p);
    if f.priority == p { NoneOfPriority(back, p); }
  }

  lemma SortedBetween<C>(q: seq<Frame<C>>, k: nat, f: Frame<C>)
    requires Sorted(q) && k <= |q|
    requires forall i :: 0 <= i < k ==> q[i].priority <= f.priority
    requires forall i :: k <= i < |q| ==> q[i].priority > f.priority
    ensures Sorted(q[..k] + [f] + q[k..])
  {
    var r := q[..k] + [f] + q[k..];
    forall i, j | 0 <= i < j < |r|
      ensures r[i].priority <= r[j].priority
    {
      assert i < k ==> r[i] == q[i];
      assert i > k ==> r[i] == q[i - 1];
      assert j < k ==> r[j] == q[j];
      assert j > k ==> r[j] == q[j - 1];
    }
  }

  lemma {:induction false} InsertedKeepsFrames<C>(q: seq<Frame<C>>, f: Frame<C>)
    ensures multiset(Inserted(q, f)) == multiset(q) + multiset{f}
  {
    if q != [] && q[0].priority <= f.priority {
      InsertedKeepsFrames(q[1..], f);
      FramesOfCons(q[0], q[1..]);
      FramesOfCons(q[0], Inserted(q[1..], f));
      assert q == [q[0]] + q[1..];
    } else {
      FramesOfCons(f, q);
    }
  }

  lemma FramesOfCons<C>(x: Frame<C>, q: seq<Frame<C>>)
    ensures multiset([x] + q) == multiset{x} + multiset(q)
  {
  }

  lemma InsertedKeepsSorted<C>(q: seq<Frame<C>>, f: Frame<C>)
    requires Sorted(q)
    ensures Sorted(Inserted(q, f))
  {
    var k := InsertedAt(q, f);
    SortedBetween(q, k, f);
  }

  lemma InsertedIsStable<C>(q: seq<Frame<C>>, f: Frame<C>, p: nat)
    requires Sorted(q)
    ensures Sorted(Inserted(q, f)) && multiset(Inserted(q, f)) == multiset(q) + multiset{f}
    ensures OfPriority(Inserted(q, f), p) == OfPriority(q, p) + (if f.priority == p then [f] else [])
  {
    InsertedKeepsFrames(q, f);
    InsertedKeepsSorted(q, f);
    var k := InsertedAt(q, f);
    OfPriorityBetween(q[..k], f, q[k..], p);
    assert q[..k] + q[k..] == q;
  }

  lemma {:induction false} NoneOfPriority<C>(fs: seq<Frame<C>>, p: nat)
    requires forall i :: 0 <= i < |fs| ==> fs[i].priority != p
    ensures OfPriority(fs, p) == []
  {
    if fs != [] { NoneOfPriority(fs[..|fs| - 1], p); }
  }

  /** `order` is a stable order of the frames of `fs`, as far as priority `p` goes. */
  ghost predicate StableOrder<C>(order: seq<Frame<C>>, fs: seq<Frame<C>>, p: nat) {
    Sorted(order) && multiset(order) == multiset(fs) && OfPriority(order, p) == OfPriority(fs, p)
  }

  lemma InsertionKeepsStable<C>(order: seq<Frame<C>>, fs: seq<Frame<C>>, f: Frame<C>, p: nat)
    requires StableOrder(order, fs, p)
    ensures StableOrder(Inserted(order, f), fs + [f], p)
  {
    InsertedIsStable(order, f, p);
    OfPriorityConcat(fs, [f], p);
    OfPrioritySingle(f, p);
  }

  /** StableSort sorts, keeps every frame, and keeps frames of equal priority in their order. */
  lemma {:induction false} StableSortIsStable<C>(fs: seq<Frame<C>>, p: nat)
    ensures Sorted(StableSort(fs)) && multiset(StableSort(fs)) == multiset(fs)
    ensures OfPriority(StableSort(fs), p) == OfPriority(fs, p)
  {
    if fs != [] {
      var init, last := fs[..|fs| - 1], fs[|fs| - 1];
      StableSortIsStable(init, p);
      assert fs == init + [last];
      InsertionKeepsStable(StableSort(init), init, last, p);
    }
  }

  /** There is only one way to do that. */
  lemma {:induction false} StableOrderIsUnique<C>(a: seq<Frame<C>>, b: seq<Frame<C>>)
    requires Sorted(a) && Sorted(b) && forall p :: OfPriority(a, p) == OfPriority(b, p)
    ensures a == b
    decreases |a|
  {
    if a == [] || b == [] {
      LastHasPriority(a);
      LastHasPriority(b);
    } else {
      var x := a[|a| - 1];
      assert OfPriority(a, x.priority) != [];
      var y := b[|b| - 1];
      assert OfPriority(b, y.priority) != [];
      LastIsHighest(a, y.priority);
      LastIsHighest(b, x.priority);
      assert x == y by {
        assert OfPriority(a, x.priority)[|OfPriority(a, x.priority)| - 1] == x;
        assert OfPriority(b, x.priority)[|OfPriority(b, x.priority)| - 1] == y;
      }
      var a', b' := a[..|a| - 1], b[..|b| - 1];
      forall p
        ensures OfPriority(a', p) == OfPriority(b', p)
      {
        var last := if x.priority == p then [x] else [];
        assert OfPriority(a, p) == OfPriority(a', p) + last && OfPriority(b, p) == OfPriority(b', p) + last;
        CancelRight(OfPriority(a', p), OfPriority(b', p), last);
      }
      StableOrderIsUnique(a', b');
    }
  }

  lemma LastHasPriority<C>(q: seq<Frame<C>>)
    ensures q != [] ==> OfPriority(q, q[|q| - 1].priority) != []
    ensures forall p :: OfPriority<C>([], p) == []
  {
  }

  lemma CancelRight<T>(a: seq<T>, b: seq<T>, c: seq<T>)
    requires a + c == b + c
    ensures a == b
  {
    assert |a| == |b|;
    assert (a + c)[..|a|] == a && (b + c)[..|b|] == b;
  }

  lemma {:induction false} LastIsHighest<C>(q: seq<Frame<C>>, p: nat)
    requires Sorted(q) && OfPriority(q, p) != []
    ensures q != [] && p <= q[|q| - 1].priority
  {
    var init := q[..|q| - 1];
    if OfPriority(init, p) != [] {
      LastIsHighest(init, p);
      assert init[|init| - 1].priority == q[|q| - 2].priority;
    }
  }

  /* ---- Sort and truncate ---- */

  function Emergencies<C>(q: seq<Frame<C>>): seq<Frame<C>> {
    OfPriority(q, 0)
  }

  function Ordinaries<C>(q: seq<Frame<C>>): seq<Frame<C>> {
    if q == [] then []
    else Ordinaries(q[..|q| - 1]) + if IsEmergency(q[|q| - 1]) then [] else [q[|q| - 1]]
  }

  function First<C>(q: seq<Frame<C>>, n: int): seq<Frame<C>> {
    if n <= 0 then [] else q[..Min(n, |q|)]
  }

  /** Room for ordinary frames beside `e` emergency frames. */
  function OrdinaryRoom(e: nat): int {
    Min(QUEUE_DEPTH - EMERGENCY_RESERVE, QUEUE_DEPTH - Min(e, QUEUE_DEPTH))
  }

  /** The queue the specification keeps of the frames `fs`, offered in that order. */
  function Kept<C>(fs: seq<Frame<C>>): seq<Frame<C>> {
    var sorted := StableSort(fs);
    First(Emergencies(sorted), QUEUE_DEPTH) + First(Ordinaries(sorted), OrdinaryRoom(|Emergencies(sorted)|))
  }

  predicate AllEmergency<C>(q: seq<Frame<C>>) {
    forall i :: 0 <= i < |q| ==> IsEmergency(q[i])
  }

  predicate NoneEmergency<C>(q: seq<Frame<C>>) {
    forall i :: 0 <= i < |q| ==> !IsEmergency(q[i])
  }

  lemma {:induction false} OrdinariesConcat<C>(a: seq<Frame<C>>, b: seq<Frame<C>>)
    ensures Ordinaries(a + b) == Ordinaries(a) + Ordinaries(b)
  {
    if b == [] {
      assert a + b == a;
    } else {
      var init := b[..|b| - 1];
      assert (a + b)[..|a + b| - 1] == a + init;
      OrdinariesConcat(a, init);
    }
  }

  lemma {:induction false} OfOneKind<C>(q: seq<Frame<C>>)
    ensures AllEmergency(q) ==> Emergencies(q) == q && Ordinaries(q) == []
    ensures NoneEmergency(q) ==> Emergencies(q) == [] && Ordinaries(q) == q
    ensures OrdinaryCount(q) == |Ordinaries(q)|
  {
    if q != [] {
      OfOneKind(q[..|q| - 1]);
      assert q == q[..|q| - 1] + [q[|q| - 1]];
    }
  }

  lemma Partition<C>(e: seq<Frame<C>>, o: seq<Frame<C>>)
    requires AllEmergency(e) && NoneEmergency(o)
    ensures Emergencies(e + o) == e && Ordinaries(e + o) == o && OrdinaryCount(e + o) == |o|
  {
    OfPriorityConcat(e, o, 0);
    OrdinariesConcat(e, o);
    OfOneKind(e);
    OfOneKind(o);
    OfOneKind(e + o);
  }

  lemma {:induction false} EmergencyPrefix<C>(q: seq<Frame<C>>) returns (k: nat)
    requires Sorted(q)
    ensures k <= |q| && AllEmergency(q[..k]) && NoneEmergency(q[k..])
  {
    if q == [] || !IsEmergency(q[0]) {
      k := 0;
    } else {
      var rest := EmergencyPrefix(q[1..]);
      k := rest + 1;
      assert q[..k] == [q[0]] + q[1..][..rest] && q[k..] == q[1..][rest..];
    }
  }

  /** A sorted queue is its emergency frames followed by its ordinary ones. */
  lemma SortedSplits<C>(q: seq<Frame<C>>)
    requires Sorted(q)
    ensures q == Emergencies(q) + Ordinaries(q)
    ensures AllEmergency(Emergencies(q)) && NoneEmergency(Ordinaries(q)) && Sorted(Ordinaries(q))
  {
    var k := EmergencyPrefix(q);
    assert q == q[..k] + q[k..];
    Partition(q[..k], q[k..]);
  }

  /** The first frames of an insertion, without inserting into the whole. */
  lemma FirstOfInserted<C>(o: seq<Frame<C>>, f: Frame<C>, m: nat)
    requires Sorted(o) && 0 < m <= |o|
    ensures First(Inserted(o, f), m) ==
            if o[m - 1].priority <= f.priority then o[..m] else Inserted(o[..m - 1], f)
  {
    var k := InsertedAt(o, f);
    if o[m - 1].priority <= f.priority {
      assert k >= m;
    } else {
      InsertedPrefix(o[..k], o[k..m - 1], o[m - 1..], f);
      SlicesJoin(o, k, m - 1);
    }
  }

  lemma InsertedPrefix<C>(front: seq<Frame<C>>, middle: seq<Frame<C>>, rest: seq<Frame<C>>, f: Frame<C>)
    requires forall i :: 0 <= i < |front| ==> front[i].priority <= f.priority
    requires forall i :: 0 <= i < |middle| ==> middle[i].priority > f.priority
    ensures Inserted(front + middle, f) == First(front + [f] + (middle + rest), |front| + 1 + |middle|)
  {
    InsertedBefore(front + middle, f, |front|);
    assert (front + middle)[..|front|] + [f] + (front + middle)[|front|..] == front + [f] + middle;
  }

  /** What the queue holds of `e` emergency and `o` ordinary frames, each in its order. */
  function KeptOf<C>(e: seq<Frame<C>>, o: seq<Frame<C>>): seq<Frame<C>> {
    First(e, QUEUE_DEPTH) + First(o, OrdinaryRoom(|e|))
  }

  /** With room left, an ordinary frame joins the others. */
  lemma OrdinaryJoins<C>(e8: seq<Frame<C>>, o: seq<Frame<C>>, f: Frame<C>)
    requires AllEmergency(e8) && Sorted(o)
    ensures Inserted(e8 + o, f) == e8 + Inserted(o, f)
  {
    InsertedSplit(e8, o, f);
  }

  /** With room for it, the frame is kept. */
  lemma RoomKeeps<C>(f: Frame<C>, e8: seq<Frame<C>>, o: seq<Frame<C>>, m: nat)
    requires AllEmergency(e8) && Sorted(o) && |o| < m
    ensures Inserted(e8 + o, f) == e8 + First(Inserted(o, f), m)
  {
    OrdinaryJoins(e8, o, f);
    assert First(Inserted(o, f), m) == Inserted(o, f);
  }

  /** With every place taken, it replaces the last frame if that is less urgent. */
  lemma FullKeeps<C>(f: Frame<C>, e8: seq<Frame<C>>, o: seq<Frame<C>>, m: nat)
    requires AllEmergency(e8) && Sorted(o) && 0 < m <= |o|
    ensures var q := e8 + o[..m];
            e8 + First(Inserted(o, f), m) == if q[|q| - 1].priority <= f.priority then q else Inserted(q[..|q| - 1], f)
  {
    LastOfBoth(e8, o[..m]);
    assert o[..m][..m - 1] == o[..m - 1];
    OrdinaryJoins(e8, o[..m - 1], f);
    FirstOfInserted(o, f, m);
  }

  lemma LastOfBoth<C>(a: seq<Frame<C>>, b: seq<Frame<C>>)
    requires b != []
    ensures (a + b)[|a + b| - 1] == b[|b| - 1] && (a + b)[..|a + b| - 1] == a + b[..|b| - 1]
  {
  }

  /** What an ordinary offer does to a queue that holds `n` ordinary frames. */
  ghost predicate OfferedTo<C>(q: seq<Frame<C>>, n: nat, f: Frame<C>, q': seq<Frame<C>>) {
    if |q| < QUEUE_DEPTH && n < QUEUE_DEPTH - EMERGENCY_RESERVE then q' == Inserted(q, f)
    else q != [] && (n == 0 ==> IsEmergency(q[|q| - 1]))
         && q' == if n == 0 || q[|q| - 1].priority <= f.priority then q else Inserted(q[..|q| - 1], f)
  }

  lemma RoomOffered<C>(f: Frame<C>, e8: seq<Frame<C>>, o: seq<Frame<C>>, m: nat)
    requires AllEmergency(e8) && Sorted(o) && |e8| <= QUEUE_DEPTH && m == OrdinaryRoom(|e8|) && |o| < m
    ensures First(o, m) == o && OfferedTo(e8 + o, |o|, f, e8 + First(Inserted(o, f), m))
  {
    RoomKeeps(f, e8, o, m);
    assert o[..|o|] == o;
  }

  lemma NoneOffered<C>(f: Frame<C>, e8: seq<Frame<C>>, o: seq<Frame<C>>)
    requires AllEmergency(e8) && |e8| <= QUEUE_DEPTH && OrdinaryRoom(|e8|) == 0
    ensures First(o, 0) == [] && OfferedTo(e8 + [], 0, f, e8 + First(Inserted(o, f), 0))
  {
    assert e8 + [] == e8 && |e8| == QUEUE_DEPTH;
  }

  lemma FullOffered<C>(f: Frame<C>, e8: seq<Frame<C>>, o: seq<Frame<C>>, m: nat)
    requires AllEmergency(e8) && Sorted(o) && |e8| <= QUEUE_DEPTH && m == OrdinaryRoom(|e8|) && 0 < m <= |o|
    ensures First(o, m) == o[..m] && OfferedTo(e8 + o[..m], m, f, e8 + First(Inserted(o, f), m))
  {
    FullKeeps(f, e8, o, m);
  }

  /** Whatever places are taken, by `e8` and the first `m` of `o`. */
  lemma PartsOffered<C>(f: Frame<C>, e8: seq<Frame<C>>, o: seq<Frame<C>>, m: nat)
    requires AllEmergency(e8) && Sorted(o) && |e8| <= QUEUE_DEPTH && m == OrdinaryRoom(|e8|)
    ensures OfferedTo(e8 + First(o, m), |First(o, m)|, f, e8 + First(Inserted(o, f), m))
  {
    if |o| < m {
      RoomOffered(f, e8, o, m);
    } else if m == 0 {
      NoneOffered(f, e8, o);
    } else {
      FullOffered(f, e8, o, m);
    }
  }

  lemma OrdinaryOffered<C>(t: Transport<C>, f: Frame<C>, n: nat, q': seq<Frame<C>>)
    requires OrdinaryCount(t.queue) == n && !IsEmergency(f) && OfferedTo(t.queue, n, f, q')
    ensures OfferOrdinary(t, f).t.queue == q'
  {
  }

  lemma OfferOrdinaryKeeps<C>(t: Transport<C>, f: Frame<C>, e8: seq<Frame<C>>, o: seq<Frame<C>>, m: nat)
    requires AllEmergency(e8) && NoneEmergency(o) && Sorted(o) && !IsEmergency(f)
    requires |e8| <= QUEUE_DEPTH && m == OrdinaryRoom(|e8|)
    requires t.queue == e8 + First(o, m)
    ensures OfferOrdinary(t, f).t.queue == e8 + First(Inserted(o, f), m)
  {
    var kept := First(o, m);
    assert NoneEmergency(kept);
    Partition(e8, kept);
    PartsOffered(f, e8, o, m);
    OrdinaryOffered(t, f, |kept|, e8 + First(Inserted(o, f), m));
  }

  /** One more emergency frame takes one place from the ordinary ones, if all places are taken. */
  lemma RoomShrinks<C>(o: seq<Frame<C>>, e: nat)
    requires e < QUEUE_DEPTH
    ensures var om := First(o, OrdinaryRoom(e));
            First(o, OrdinaryRoom(e + 1)) == if e + |om| < QUEUE_DEPTH then om else om[..|om| - 1]
  {
  }

  lemma EmergencyJoins<C>(e: seq<Frame<C>>, o: seq<Frame<C>>, f: Frame<C>)
    requires AllEmergency(e) && NoneEmergency(o) && IsEmergency(f)
    ensures Inserted(e + o, f) == e + [f] + o
  {
    InsertedBefore(e + o, f, |e|);
    assert (e + o)[..|e|] == e && (e + o)[|e|..] == o;
  }

  lemma OfferEmergencyKeeps<C>(t: Transport<C>, f: Frame<C>, e: seq<Frame<C>>, o: seq<Frame<C>>)
    requires AllEmergency(e) && NoneEmergency(o) && IsEmergency(f)
    requires t.queue == KeptOf(e, o)
    ensures OfferEmergency(t, f).t.queue == KeptOf(e + [f], o)
  {
    if |e| < QUEUE_DEPTH {
      var om := First(o, OrdinaryRoom(|e|));
      var rest := First(o, OrdinaryRoom(|e| + 1));
      RoomShrinks(o, |e|);
      EmergencyJoins(e, rest, f);
      assert First(e, QUEUE_DEPTH) == e && First(e + [f], QUEUE_DEPTH) == e + [f];
      assert t.queue == e + om;
      if |t.queue| == QUEUE_DEPTH {
        assert t.queue[QUEUE_DEPTH - 1] == om[|om| - 1];
        assert t.queue[..QUEUE_DEPTH - 1] == e + rest;
      }
    } else {
      assert t.queue == First(e, QUEUE_DEPTH) == First(e + [f], QUEUE_DEPTH);
    }
  }

  /** The specification's queue, one offer later. */
  lemma KeptNext<C>(fs: seq<Frame<C>>, f: Frame<C>) returns (e: seq<Frame<C>>, o: seq<Frame<C>>)
    ensures AllEmergency(e) && NoneEmergency(o) && Sorted(o) && Kept(fs) == KeptOf(e, o)
    ensures Kept(fs + [f]) == if IsEmergency(f) then KeptOf(e + [f], o) else KeptOf(e, Inserted(o, f))
  {
    var sorted := StableSort(fs);
    StableSortIsStable(fs, 0);
    SortedSplits(sorted);
    e, o := Emergencies(sorted), Ordinaries(sorted);
    assert (fs + [f])[..|fs|] == fs;
    if IsEmergency(f) {
      EmergencyJoins(e, o, f);
      Partition(e + [f], o);
    } else {
      OrdinaryJoins(e, o, f);
      InsertedStaysOrdinary(o, f);
      Partition(e, Inserted(o, f));
    }
  }

  lemma KeptGrows<C>(t: Transport<C>, fs: seq<Frame<C>>, f: Frame<C>)
    requires t.current.Some? && t.queue == Kept(fs)
    ensures Offer(t, f).t.queue == Kept(fs + [f])
  {
    var e, o := KeptNext(fs, f);
    if IsEmergency(f) {
      OfferEmergencyKeeps(t, f, e, o);
    } else {
      OfferOrdinaryKeeps(t, f, First(e, QUEUE_DEPTH), o, OrdinaryRoom(|e|));
    }
  }

  lemma {:induction false} InsertedStaysOrdinary<C>(o: seq<Frame<C>>, f: Frame<C>)
    requires NoneEmergency(o) && !IsEmergency(f)
    ensures NoneEmergency(Inserted(o, f))
  {
    if o != [] && o[0].priority <= f.priority { InsertedStaysOrdinary(o[1..], f); }
  }

  /** The transport after frames are offered one after another, nothing completing in between. */
  function OfferAll<C>(t: Transport<C>, fs: seq<Frame<C>>): Transport<C> {
    if fs == [] then t else Offer(OfferAll(t, fs[..|fs| - 1]), fs[|fs| - 1]).t
  }

  lemma {:induction false} StableSortOfSorted<C>(q: seq<Frame<C>>)
    requires Sorted(q)
    ensures StableSort(q) == q
  {
    if q != [] {
      var init := q[..|q| - 1];
      StableSortOfSorted(init);
      InsertedBefore(init, q[|q| - 1], |init|);
      assert q == init + [q[|q| - 1]];
    }
  }

  lemma QueueIsKept<C>(q: seq<Frame<C>>)
    requires QueueOk(q)
    ensures Kept(q) == q
  {
    StableSortOfSorted(q);
    SortedSplits(q);
    Partition(Emergencies(q), Ordinaries(q));
  }

  lemma {:induction false} OfferKeepsBusy<C>(t: Transport<C>, fs: seq<Frame<C>>)
    requires t.current.Some?
    ensures OfferAll(t, fs).current == t.current && OfferAll(t, fs).retries == t.retries
  {
    if fs != [] { OfferKeepsBusy(t, fs[..|fs| - 1]); }
  }

  /** While a frame is being sent, whatever is offered, the queue holds exactly what sorting and truncating keeps. */
  lemma {:induction false} QueueRefinesSortAndTruncate<C>(t: Transport<C>, fs: seq<Frame<C>>)
    requires Valid(t) && t.current.Some?
    ensures OfferAll(t, fs).queue == Kept(t.queue + fs)
  {
    if fs == [] {
      QueueIsKept(t.queue);
      assert t.queue + fs == t.queue;
    } else {
      var init, f := fs[..|fs| - 1], fs[|fs| - 1];
      var before := OfferAll(t, init);
      QueueRefinesSortAndTruncate(t, init);
      OfferKeepsBusy(t, init);
      OneMoreKept(before, t.queue, fs, Offer(before, f).t);
    }
  }

  lemma OneMoreKept<C>(before: Transport<C>, q: seq<Frame<C>>, fs: seq<Frame<C>>, after: Transport<C>)
    requires before.current.Some? && fs != [] && after == Offer(before, fs[|fs| - 1]).t
    requires before.queue == Kept(q + fs[..|fs| - 1])
    ensures after.queue == Kept(q + fs)
  {
    KeptGrows(before, q + fs[..|fs| - 1], fs[|fs| - 1]);
    LastRejoins(q, fs);
  }

  lemma LastRejoins<C>(q: seq<Frame<C>>, fs: seq<Frame<C>>)
    requires fs != []
    ensures q + fs[..|fs| - 1] + [fs[|fs| - 1]] == q + fs
  {
  }

  /* ---- Every operation keeps the transport in order ---- */

  lemma KeptOfIsOk<C>(e: seq<Frame<C>>, o: seq<Frame<C>>)
    requires AllEmergency(e) && NoneEmergency(o) && Sorted(o)
    ensures QueueOk(KeptOf(e, o))
  {
    var e8, om := First(e, QUEUE_DEPTH), First(o, OrdinaryRoom(|e|));
    Partition(e8, om);
    assert forall i, j :: 0 <= i < j < |om| ==> om[i] == o[i] && om[j] == o[j];
    assert Sorted(e8 + om);
  }

  lemma KeptIsOk<C>(fs: seq<Frame<C>>)
    ensures QueueOk(Kept(fs))
  {
    StableSortIsStable(fs, 0);
    SortedSplits(StableSort(fs));
    KeptOfIsOk(Emergencies(StableSort(fs)), Ordinaries(StableSort(fs)));
  }

  lemma {:induction false} TailHasNoMoreOrdinary<C>(q: seq<Frame<C>>)
    requires q != []
    ensures OrdinaryCount(q[1..]) <= OrdinaryCount(q)
  {
    if |q| > 1 {
      TailHasNoMoreOrdinary(q[..|q| - 1]);
      assert q[1..][..|q| - 2] == q[..|q| - 1][1..];
    }
  }

  lemma TailIsOk<C>(q: seq<Frame<C>>)
    requires QueueOk(q) && q != []
    ensures QueueOk(q[1..])
  {
    TailHasNoMoreOrdinary(q);
  }

  lemma OfferKeepsValid<C>(t: Transport<C>, f: Frame<C>)
    requires Valid(t)
    ensures Valid(Offer(t, f).t)
  {
    if t.current.Some? {
      QueueIsKept(t.queue);
      KeptGrows(t, t.queue, f);
      KeptIsOk(t.queue + [f]);
    }
  }

  lemma CompletedKeepsValid<C>(t: Transport<C>, success: bool)
    requires Valid(t) && t.current.Some?
    ensures Valid(Completed(t, success).t)
  {
    if t.queue != [] { TailIsOk(t.queue); }
  }
}
