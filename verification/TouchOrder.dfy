/**
 What the queue of pending moves does to the order of calls, over every run: each queued position is sent at most
 once, nothing queued before an UP goes out after it, and the only inversion there can be is a queued MOVE that a
 later DOWN of the same slot overtakes.
 */
module TouchOrder {
  import opened TouchWire
  import opened TouchSender
  import opened TouchQueue

  predicate Touches(it: Item) { it.pkt.DownPkt? || it.pkt.MovePkt? || it.pkt.UpPkt? }

  predicate SameSlot(a: Item, b: Item) { Touches(a) && Touches(b) && a.pkt.slot == b.pkt.slot }

  /** `a` may be sent before `b`: call order on a slot, save that a DOWN may overtake a MOVE unless `strict`. */
  predicate MayPrecede(a: Item, b: Item, strict: bool) {
    SameSlot(a, b) ==> a.call < b.call || (!strict && a.pkt.DownPkt? && b.pkt.MovePkt?)
  }

  predicate InOrder(items: seq<Item>, strict: bool) {
    forall i, j :: 0 <= i < j < |items| ==> MayPrecede(items[i], items[j], strict)
  }

  lemma InOrderAppend(a: seq<Item>, b: seq<Item>, strict: bool)
    ensures InOrder(a + b, strict)
       <==> InOrder(a, strict) && InOrder(b, strict) && forall i, j :: 0 <= i < |a| && 0 <= j < |b| ==> MayPrecede(a[i], b[j], strict)
  {
    hide MayPrecede;
    var ab := a + b;
    assert forall i :: 0 <= i < |a| ==> ab[i] == a[i];
    assert forall j :: 0 <= j < |b| ==> ab[|a| + j] == b[j];
    if InOrder(ab, strict) {
      forall i, j | 0 <= i < |a| && 0 <= j < |b| ensures MayPrecede(a[i], b[j], strict) {
        assert MayPrecede(ab[i], ab[|a| + j], strict);
      }
      forall i, j | 0 <= i < j < |b| ensures MayPrecede(b[i], b[j], strict) {
        assert MayPrecede(ab[|a| + i], ab[|a| + j], strict);
      }
    }
  }

  // ---- the queue ----

  predicate AllAbove(ps: seq<PendingMove>, slot: int) { forall p :: p in ps ==> p.slot > slot }

  predicate Sorted(ps: seq<PendingMove>) {
    ps == [] || (AllAbove(ps[1..], ps[0].slot) && Sorted(ps[1..]))
  }

  lemma HeadOrRest<T>(s: seq<T>, x: T)
    requires s != []
    ensures x in s <==> x == s[0] || x in s[1..]
  {
    assert s == [s[0]] + s[1..];
  }

  lemma {:induction false} PutMembers(ps: seq<PendingMove>, p: PendingMove, q: PendingMove)
    requires Sorted(ps)
    ensures q in Put(ps, p) <==> q == p || (q in ps && q.slot != p.slot)
  {
    if ps == [] {
    } else {
      HeadOrRest(ps, q);
      if p.slot > ps[0].slot { PutMembers(ps[1..], p, q); }
    }
  }

  lemma {:induction false} PutSorted(ps: seq<PendingMove>, p: PendingMove)
    requires Sorted(ps)
    ensures Sorted(Put(ps, p))
  {
    if ps == [] {
    } else {
      var rest := ps[1..];
      if p.slot > ps[0].slot {
        PutSorted(rest, p);
        forall q | q in Put(rest, p) ensures q.slot > ps[0].slot { PutMembers(rest, p, q); }
        assert Put(ps, p)[1..] == Put(rest, p);
      } else if p.slot == ps[0].slot {
        assert Put(ps, p)[1..] == rest;
      } else {
        forall q | q in ps ensures q.slot > p.slot { HeadOrRest(ps, q); }
        assert Put(ps, p)[1..] == ps;
      }
    }
  }

  lemma {:induction false} RemoveMembers(ps: seq<PendingMove>, slot: int, q: PendingMove)
    requires Sorted(ps)
    ensures q in Remove(ps, slot) <==> q in ps && q.slot != slot
  {
    if ps == [] {
    } else {
      HeadOrRest(ps, q);
      if ps[0].slot != slot { RemoveMembers(ps[1..], slot, q); }
    }
  }

  lemma {:induction false} RemoveSorted(ps: seq<PendingMove>, slot: int)
    requires Sorted(ps)
    ensures Sorted(Remove(ps, slot))
  {
    if ps == [] || ps[0].slot == slot {
    } else {
      var rest := ps[1..];
      RemoveSorted(rest, slot);
      forall q | q in Remove(rest, slot) ensures q.slot > ps[0].slot { RemoveMembers(rest, slot, q); }
      assert Remove(ps, slot)[1..] == Remove(rest, slot);
    }
  }

  // ---- the drain ----

  predicate Sends(ps: seq<PendingMove>, it: Item) { exists p :: p in ps && p.valid && it == MoveItem(p) }

  lemma {:induction false} DrainSendsOnly(ps: seq<PendingMove>, last: Size, it: Item)
    requires it in Drain(ps, last) && Touches(it)
    ensures Sends(ps, it)
  {
    HeadOrRest(ps, ps[0]);
    if ps[0].valid && it == MoveItem(ps[0]) {
    } else {
      DrainSendsOnly(ps[1..], last, it);
      var p :| p in ps[1..] && p.valid && it == MoveItem(p);
      HeadOrRest(ps, p);
    }
  }

  lemma {:induction false} DrainSendsAll(ps: seq<PendingMove>, last: Size, p: PendingMove)
    requires p in ps && p.valid
    ensures MoveItem(p) in Drain(ps, last)
  {
    HeadOrRest(ps, p);
    if p == ps[0] {
    } else {
      DrainSendsAll(ps[1..], last, p);
    }
  }

  predicate NoSlotTwice(items: seq<Item>) { forall i, j :: 0 <= i < j < |items| ==> !SameSlot(items[i], items[j]) }

  lemma {:induction false} DrainSendsOnce(ps: seq<PendingMove>, last: Size)
    requires Sorted(ps)
    ensures NoSlotTwice(Drain(ps, last))
  {
    if ps == [] {
    } else {
      var rest := Drain(ps[1..], last);
      DrainSendsOnce(ps[1..], last);
      forall it | it in rest && Touches(it) ensures it.pkt.slot != ps[0].slot {
        DrainSendsOnly(ps[1..], last, it);
      }
    }
  }

  /** A drain sends every waiting position, nothing else, and no slot twice. */
  lemma {:induction false} DrainSends(ps: seq<PendingMove>, last: Size)
    requires Sorted(ps)
    ensures forall it :: it in Drain(ps, last) && Touches(it) ==> Sends(ps, it)
    ensures forall p :: p in ps && p.valid ==> MoveItem(p) in Drain(ps, last)
    ensures NoSlotTwice(Drain(ps, last))
  {
    hide Sends, Sorted;
    forall it | it in Drain(ps, last) && Touches(it) ensures Sends(ps, it) { DrainSendsOnly(ps, last, it); }
    forall p | p in ps && p.valid ensures MoveItem(p) in Drain(ps, last) { DrainSendsAll(ps, last, p); }
    DrainSendsOnce(ps, last);
  }

  // ---- one call ----

  /** The call is a DOWN that goes out ahead of a position still waiting for its slot. */
  predicate Overtakes(c: Call, ps: seq<PendingMove>, last: Size) {
    c.action.ActionDown? && !Framed(c, last) && exists p :: p in ps && p.valid && p.slot == c.slot
  }

  lemma {:induction false} BurstInOrder(c: Call, n: nat, ps: seq<PendingMove>, last: Size, strict: bool)
    requires Sorted(ps) && forall p :: p in ps && p.valid ==> p.call < n && (c.action.ActionDown? || p.slot != c.slot)
    ensures InOrder(Burst(c, n, ps, last), strict) <==> !(strict && Overtakes(c, ps, last))
  {
    hide InOrder, Drain, Sorted;
    var drained, own, frame := Drain(ps, last), Item(PacketOf(c), n), FrameItem(c.size, n);
    DrainSends(ps, last);
    assert InOrder(drained, strict) by { NoTwoInOrder(drained, strict); }
    assert InOrder([own], strict) && InOrder([frame], strict) by { NoTwoInOrder([own], strict); NoTwoInOrder([frame], strict); }
    if Framed(c, last) {
      InOrderAppend([frame], drained, strict);
      InOrderAppend([frame] + drained, [own], strict);
    } else {
      InOrderAppend([own], drained, strict);
      if Overtakes(c, ps, last) {
        var p :| p in ps && p.valid && p.slot == c.slot;
        var j :| 0 <= j < |drained| && drained[j] == MoveItem(p);
        assert MayPrecede([own][0], drained[j], strict) <==> !strict;
      }
    }
  }

  lemma NoTwoInOrder(items: seq<Item>, strict: bool)
    requires NoSlotTwice(items)
    ensures InOrder(items, strict)
  {
  }

  // ---- every run ----

  predicate Genuine(it: Item, cs: seq<Call>) {
    it.call < |cs| && (it.pkt == PacketOf(cs[it.call]) || it == FrameItem(cs[it.call].size, it.call))
  }

  /** A waiting entry is the newest MOVE of its slot, and no UP came after it. */
  predicate Newest(p: PendingMove, cs: seq<Call>) {
    && p.call < |cs| && cs[p.call] == Call(p.slot, ActionMove, p.x, p.y, p.size, true)
    && forall k :: p.call < k < |cs| && cs[k].slot == p.slot ==> cs[k].action.ActionDown?
  }

  predicate QueueIsFresh(t: Trace, cs: seq<Call>) {
    && Sorted(t.pending)
    && (forall p :: p in t.pending && p.valid ==> Newest(p, cs))
    && forall p, it :: p in t.pending && p.valid && it in t.items && Touches(it) && it.pkt.slot == p.slot ==> it.call < p.call
  }

  predicate AllGenuine(items: seq<Item>, cs: seq<Call>) { forall it :: it in items ==> Genuine(it, cs) }

  lemma {:induction false} BurstIsGenuine(c: Call, cs: seq<Call>, ps: seq<PendingMove>, last: Size)
    requires Sorted(ps) && forall p :: p in ps && p.valid ==> Newest(p, cs)
    ensures AllGenuine(Burst(c, |cs|, ps, last), cs + [c])
  {
    hide Sorted;
    DrainGenuine(ps, last, cs);
    var cs' := cs + [c];
    forall it | it in Drain(ps, last) ensures Genuine(it, cs') {
      assert Genuine(it, cs) && cs'[it.call] == cs[it.call];
    }
  }

  lemma {:induction false} DrainGenuine(ps: seq<PendingMove>, last: Size, cs: seq<Call>)
    requires forall p :: p in ps && p.valid ==> Newest(p, cs)
    ensures AllGenuine(Drain(ps, last), cs)
  {
    if ps == [] {
    } else {
      assert ps == [ps[0]] + ps[1..];
      DrainGenuine(ps[1..], last, cs);
    }
  }

  /** Everything a run keeps. */
  predicate Kept(t: Trace, cs: seq<Call>) {
    QueueIsFresh(t, cs) && AllGenuine(t.items, cs) && InOrder(t.items, false)
  }

  lemma {:induction false} ClearedSorted(ps: seq<PendingMove>)
    requires Sorted(ps)
    ensures Sorted(Cleared(ps)) && forall p :: p in Cleared(ps) ==> !p.valid
  {
    if ps == [] {
    } else {
      ClearedSorted(ps[1..]);
      assert Cleared(ps)[1..] == Cleared(ps[1..]);
      forall p | p in Cleared(ps[1..]) ensures p.slot > ps[0].slot {
        var i :| 0 <= i < |ps[1..]| && p == Cleared(ps[1..])[i];
        assert ps[1..][i] in ps[1..];
      }
    }
  }

  lemma QueuedKeeps(t: Trace, cs: seq<Call>, c: Call)
    requires Kept(t, cs) && Queued(c)
    ensures Kept(Step(t, c, |cs|), cs + [c])
  {
    hide Put, InOrder, Sorted;
    var p := PendingMove(c.slot, true, c.x, c.y, c.size, |cs|);
    PutSorted(t.pending, p);
    forall q ensures q in Put(t.pending, p) <==> q == p || (q in t.pending && q.slot != c.slot) { PutMembers(t.pending, p, q); }
    var cs' := cs + [c];
    var t' := Step(t, c, |cs|);
    forall q | q in t'.pending && q.valid ensures Newest(q, cs') {
      if q != p { assert Newest(q, cs); }
    }
    forall it | it in t.items ensures Genuine(it, cs') {
      assert Genuine(it, cs) && cs'[it.call] == cs[it.call];
    }
  }

  lemma QueueFacts(t: Trace, cs: seq<Call>, c: Call)
    requires Kept(t, cs)
    ensures var ps := Queue(c, t.pending);
      && Sorted(ps) && (forall p :: p in ps ==> p in t.pending)
      && (forall p :: p in ps && p.valid ==> Newest(p, cs) && (c.action.ActionDown? || p.slot != c.slot))
      && (forall p :: p in t.pending && (c.action.ActionDown? || p.slot != c.slot) ==> p in ps)
  {
    hide InOrder, Sorted, Newest;
    RemoveSorted(t.pending, c.slot);
    forall q ensures q in Remove(t.pending, c.slot) <==> q in t.pending && q.slot != c.slot { RemoveMembers(t.pending, c.slot, q); }
  }

  /** Earlier packets stay ahead of everything the call sends. */
  lemma EarlierFirst(t: Trace, cs: seq<Call>, c: Call, strict: bool)
    requires Kept(t, cs)
    ensures forall it, it' :: it in t.items && it' in Burst(c, |cs|, Queue(c, t.pending), t.last) ==> MayPrecede(it, it', strict)
  {
    hide InOrder, Sorted, Newest, Drain;
    var ps := Queue(c, t.pending);
    QueueFacts(t, cs, c);
    DrainSends(ps, t.last);
    forall it, it' | it in t.items && it' in Burst(c, |cs|, ps, t.last) ensures MayPrecede(it, it', strict) {
      if SameSlot(it, it') {
        assert Genuine(it, cs);
        if it' in Drain(ps, t.last) {
          var p :| p in ps && p.valid && it' == MoveItem(p);
          assert p in t.pending;
        }
      }
    }
  }

  /** The new packets are in order after the old ones exactly when the call does not overtake a waiting position. */
  lemma StepInOrder(t: Trace, cs: seq<Call>, c: Call, strict: bool)
    requires Kept(t, cs) && !Queued(c)
    ensures InOrder(Step(t, c, |cs|).items, strict)
       <==> InOrder(t.items, strict) && !(strict && Overtakes(c, t.pending, t.last))
  {
    hide InOrder, Sorted, Newest, Drain, Burst, DrainLast, Cleared, MayPrecede;
    var ps := Queue(c, t.pending);
    var burst := Burst(c, |cs|, ps, t.last);
    QueueFacts(t, cs, c);
    assert forall p :: p in ps && p.valid ==> p.call < |cs| by { NewestEarlier(cs); }
    BurstInOrder(c, |cs|, ps, t.last, strict);
    EarlierFirst(t, cs, c, strict);
    InOrderAppend(t.items, burst, strict);
    forall i, j | 0 <= i < |t.items| && 0 <= j < |burst| ensures MayPrecede(t.items[i], burst[j], strict) {
      assert t.items[i] in t.items && burst[j] in burst;
    }
  }

  lemma NewestEarlier(cs: seq<Call>)
    ensures forall p :: Newest(p, cs) ==> p.call < |cs|
  {
  }

  lemma SentKeeps(t: Trace, cs: seq<Call>, c: Call)
    requires Kept(t, cs) && !Queued(c)
    ensures Kept(Step(t, c, |cs|), cs + [c])
  {
    hide InOrder, Sorted, Newest, Drain, Burst, DrainLast, Cleared;
    var ps := Queue(c, t.pending);
    QueueFacts(t, cs, c);
    StepInOrder(t, cs, c, false);
    ClearedSorted(ps);
    BurstIsGenuine(c, cs, ps, t.last);
    var cs' := cs + [c];
    forall it | it in t.items ensures Genuine(it, cs') {
      assert Genuine(it, cs) && cs'[it.call] == cs[it.call];
    }
  }

  lemma {:induction false} RunKeeps(cs: seq<Call>)
    ensures Kept(TraceOf(cs), cs)
    decreases |cs|
  {
    hide Step, Kept;
    if cs == [] {
      StartKept();
    } else {
      var past, c := cs[..|cs| - 1], cs[|cs| - 1];
      RunKeeps(past);
      assert cs == past + [c];
      if Queued(c) { QueuedKeeps(TraceOf(past), past, c); } else { SentKeeps(TraceOf(past), past, c); }
    }
  }

  lemma StartKept()
    ensures Kept(TraceOf([]), [])
  {
  }

  // ---- the theorems ----

  /** Over every run, whatever the network does, a call is sent at most once: one touch packet carries it. */
  lemma {:induction false} SentAtMostOnce(net: Net, cs: seq<Call>)
    ensures var items := Items(RunCalls(net, cs).log);
      forall i, j :: 0 <= i < j < |items| && Touches(items[i]) && Touches(items[j]) ==> items[i].call != items[j].call
  {
    hide TraceOf, Newest, Sorted, RunCalls;
    RunIsTrace(net, cs);
    RunKeeps(cs);
    var items := TraceOf(cs).items;
    forall i, j | 0 <= i < j < |items| && Touches(items[i]) && Touches(items[j]) ensures items[i].call != items[j].call {
      assert items[i] in items && items[j] in items;
      assert MayPrecede(items[i], items[j], false);
    }
  }

  /**
   Over every run, two packets of one slot are in call order, unless a MOVE follows a later DOWN; in particular no
   position queued before an UP goes out after it.
   */
  lemma {:induction false} OnlyDownOvertakes(net: Net, cs: seq<Call>)
    ensures InOrder(Items(RunCalls(net, cs).log), false)
  {
    hide TraceOf, RunCalls;
    RunIsTrace(net, cs);
    RunKeeps(cs);
  }

  ghost predicate SomeOvertakes(cs: seq<Call>) {
    exists k :: 0 <= k < |cs| && OvertakesAt(cs, k)
  }

  /** Call `k` is a DOWN that goes out ahead of a position waiting for its slot. */
  predicate OvertakesAt(cs: seq<Call>, k: nat)
    requires k < |cs|
  {
    Overtakes(cs[k], TraceOf(cs[..k]).pending, TraceOf(cs[..k]).last)
  }

  /** Every slot's packets are in call order exactly when no DOWN of the run overtakes a waiting position. */
  lemma {:induction false} InCallOrderIff(cs: seq<Call>)
    ensures InOrder(TraceOf(cs).items, true) <==> !SomeOvertakes(cs)
    decreases |cs|
  {
    hide InOrder, Kept, Overtakes, Burst, Drain;
    if cs == [] {
      NoTwoInOrder([], true);
    } else {
      var n := |cs| - 1;
      var past, c := cs[..n], cs[n];
      InCallOrderIff(past);
      RunKeeps(past);
      assert forall k :: 0 <= k < n ==> past[..k] == cs[..k] && past[k] == cs[k];
      assert SomeOvertakes(cs) <==> SomeOvertakes(past) || OvertakesAt(cs, n) by {
        assert forall k :: 0 <= k < n ==> OvertakesAt(past, k) == OvertakesAt(cs, k);
      }
      if Queued(c) { QueuedNeverOvertakes(c, TraceOf(past)); } else { StepInOrder(TraceOf(past), past, c, true); }
    }
  }

  lemma QueuedNeverOvertakes(c: Call, t: Trace)
    requires Queued(c)
    ensures !Overtakes(c, t.pending, t.last)
  {
  }

  /** Such a run exists: the queued MOVE of the first call leaves after the DOWN of the second. */
  lemma DownOvertakes()
    ensures var cs := [Call(0, ActionMove, 1, 2, Size(0, 0), true), Call(0, ActionDown, 3, 4, Size(0, 0), false)];
      TraceOf(cs).items == [Item(DownPkt(0, 1, 3, 4), 1), Item(MovePkt(0, 1, 2), 0)]
  {
    var cs := [Call(0, ActionMove, 1, 2, Size(0, 0), true), Call(0, ActionDown, 3, 4, Size(0, 0), false)];
    var p := PendingMove(0, true, 1, 2, Size(0, 0), 0);
    assert cs[..1] == [cs[0]] && cs[..1][..0] == [];
    assert TraceOf([]) == Trace([], Size(-1, -1), []);
    assert TraceOf(cs[..1]) == Trace([p], Size(-1, -1), []);
    assert [p][1..] == [];
    assert Drain([p], Size(-1, -1)) == [MoveItem(p)] + [];
  }
}
