// Demand accounting of the reactive-stream publishers and operators:
// the pull-drained generator source behind `of` and `range`, and the
// `take`, `take_while`, `repeat_if` operators and merge's completion test.
module StreamsImpl {
  import opened Wrappers

  /** What a subscriber observes. */
  datatype Event<T> = Next(value: T) | Complete | Failed(code: nat)

  function Min(a: int, b: int): int { if a <= b then a else b }
  function Max(a: int, b: int): int { if a <= b then b else a }

  /** Each item as an on_next event, in order. */
  function Nexts<T>(items: seq<T>): (r: seq<Event<T>>)
    ensures |r| == |items|
    ensures forall i :: 0 <= i < |items| ==> r[i] == Next(items[i])
  {
    if items == [] then [] else [Next(items[0])] + Nexts(items[1..])
  }

  lemma NextsAppend<T>(a: seq<T>, b: seq<T>)
    ensures Nexts(a + b) == Nexts(a) + Nexts(b)
  {
    assert forall i :: 0 <= i < |a + b| ==> Nexts(a + b)[i] == (Nexts(a) + Nexts(b))[i];
  }

  /** Number of on_next events in a log. */
  function CountNexts<T>(events: seq<Event<T>>): (r: nat)
    ensures r <= |events|
  {
    if events == [] then 0
    else CountNexts(events[..|events| - 1]) + (if events[|events| - 1].Next? then 1 else 0)
  }

  lemma CountNextsSnoc<T>(events: seq<Event<T>>, e: Event<T>)
    ensures CountNexts(events + [e]) == CountNexts(events) + (if e.Next? then 1 else 0)
  {
    assert (events + [e])[..|events|] == events;
  }

  // ---------------------------------------------------------------------
  // generators<T>::stateful: a generator function called once per unit of
  // demand; it either delivers one item or completes.

  datatype Step<S, T> = Emit(value: T, next: S) | Finish

  datatype Pulled<S, T> = Pulled(items: seq<T>, state: S, completed: bool)

  /** What the drain loop delivers for `demand` outstanding items, starting
    * from generator state `s`: the generator runs while demand remains, and
    * completion ends the subscription. */
  function Pull<S, T>(step: S -> Step<S, T>, s: S, demand: nat): (r: Pulled<S, T>)
    ensures |r.items| <= demand
    ensures r.completed <==> |r.items| < demand
  {
    if demand == 0 then Pulled([], s, false)
    else match step(s)
      case Finish => Pulled([], s, true)
      case Emit(v, s') =>
        var r := Pull(step, s', demand - 1);
        Pulled([v] + r.items, r.state, r.completed)
  }

  function Glue<S, T>(got: seq<T>, r: Pulled<S, T>): Pulled<S, T>
  {
    Pulled(got + r.items, r.state, r.completed)
  }

  lemma PullEmit<S, T>(step: S -> Step<S, T>, s: S, demand: nat, got: seq<T>)
    requires demand > 0 && step(s).Emit?
    ensures Glue(got, Pull(step, s, demand))
      == Glue(got + [step(s).value], Pull(step, step(s).next, demand - 1))
  {
    var r := Pull(step, step(s).next, demand - 1);
    assert got + ([step(s).value] + r.items) == (got + [step(s).value]) + r.items;
  }

  lemma PullFinish<S, T>(step: S -> Step<S, T>, s: S, demand: nat, got: seq<T>)
    requires demand > 0 && step(s).Finish?
    ensures Glue(got, Pull(step, s, demand)) == Pulled(got, s, true)
  {
    assert got + [] == got;
  }

  /** The events a subscriber sees for the delivered items, followed by the
    * completion if there was one. */
  function Delivered<T>(items: seq<T>, completed: bool): seq<Event<T>>
  {
    Nexts(items) + (if completed then [Complete] else [])
  }

  lemma DeliveredSnoc<T>(items: seq<T>, v: T)
    ensures Delivered(items + [v], false) == Delivered(items, false) + [Next(v)]
  {
    NextsAppend(items, [v]);
  }

  lemma DeliveredComplete<T>(items: seq<T>)
    ensures Delivered(items, true) == Delivered(items, false) + [Complete]
  {
  }

  /** One round of the drain loop, seen from the whole drain's result `p`
    * and event log. */
  lemma DrainStep<S, T>(step: S -> Step<S, T>, s: S, demand: nat, got: seq<T>,
                        p: Pulled<S, T>, events0: seq<Event<T>>, log: seq<Event<T>>)
    requires demand > 0
    requires p == Glue(got, Pull(step, s, demand)) && log == events0 + Delivered(got, false)
    ensures step(s).Finish? ==>
      p == Pulled(got, s, true) && log + [Complete] == events0 + Delivered(got, true)
    ensures step(s).Emit? ==>
      var v := step(s).value;
      p == Glue(got + [v], Pull(step, step(s).next, demand - 1))
      && log + [Next(v)] == events0 + Delivered(got + [v], false)
  {
    if step(s).Finish? {
      PullFinish(step, s, demand, got);
      DeliveredComplete(got);
    } else {
      PullEmit(step, s, demand, got);
      DeliveredSnoc(got, step(s).value);
    }
  }

  /** A subscription to a generator publisher (drain_source_impl plus
    * generator_publisher::sub). `dead` is `_die`; the object is deleted
    * once it is set, so no request or cancel may follow. */
  class GeneratorSource<S, T> {
    const step: S -> Step<S, T>
    var state: S
    var requested: nat
    var delivered: nat
    var dead: bool
    var events: seq<Event<T>>

    ghost predicate Valid()
      reads this
    {
      delivered <= requested
      && (!dead ==> delivered == requested)
      && CountNexts(events) == delivered
    }

    function Needs(): int
      reads this
    {
      requested - delivered
    }

    constructor (step: S -> Step<S, T>, init: S)
      ensures this.step == step && state == init
      ensures requested == 0 && delivered == 0 && !dead && events == []
      ensures Valid()
    {
      this.step := step;
      state := init;
      requested := 0;
      delivered := 0;
      dead := false;
      events := [];
    }

    /** request(n): demand must be positive; the drain loop then runs the
      * generator until the demand is met or the generator completes. */
    method Request(n: int)
      requires Valid() && !dead
      requires n > 0
      modifies this
      ensures Valid()
      ensures requested == old(requested) + n
      ensures var p := Pull(step, old(state), n);
        && state == p.state
        && dead == p.completed
        && delivered == old(delivered) + |p.items|
        && events == old(events) + Delivered(p.items, p.completed)
    {
      requested := requested + n;
      Drain();
    }

    /** drain(): runs the generator while demand is outstanding and the
      * subscription is alive; the generator's drain_impl never asks to
      * break the loop. */
    method Drain()
      requires !dead && delivered <= requested && CountNexts(events) == delivered
      modifies this
      ensures requested == old(requested) && delivered <= requested
      ensures CountNexts(events) == delivered && (!dead ==> delivered == requested)
      ensures var p := Pull(step, old(state), old(requested) - old(delivered));
        && state == p.state
        && dead == p.completed
        && delivered == old(delivered) + |p.items|
        && events == old(events) + Delivered(p.items, p.completed)
    {
      ghost var got: seq<T> := [];
      assert events == old(events) + Delivered(got, false);
      ghost var p := Pull(step, old(state), requested - delivered);
      while Needs() > 0 && !dead
        invariant CountNexts(events) == delivered
        invariant !dead || delivered < requested
        invariant requested == old(requested)
        invariant old(delivered) <= delivered <= requested
        invariant |got| == delivered - old(delivered)
        invariant events == old(events) + Delivered(got, dead)
        invariant dead ==> p == Pulled(got, state, true)
        invariant !dead ==> p == Glue(got, Pull(step, state, requested - delivered))
        decreases requested - delivered, if dead then 0 else 1
      {
        ghost var before := state;
        DrainStep(step, before, requested - delivered, got, p, old(events), events);
        DrainOnce();
        if !dead {
          got := got + [step(before).value];
        }
      }
      assert !dead ==> Pull(step, state, requested - delivered) == Pulled([], state, false);
      assert got + [] == got;
    }

    /** drain_impl: one call of the generator function, which delivers one
      * item (counted against the demand) or completes the subscription. */
    method DrainOnce()
      requires !dead && delivered < requested && CountNexts(events) == delivered
      modifies this
      ensures requested == old(requested)
      ensures CountNexts(events) == delivered
      ensures step(old(state)).Finish? ==>
        dead && state == old(state) && delivered == old(delivered)
        && events == old(events) + [Complete]
      ensures step(old(state)).Emit? ==>
        !dead && state == step(old(state)).next && delivered == old(delivered) + 1
        && events == old(events) + [Next(step(old(state)).value)]
    {
      match step(state)
      case Finish =>
        CountNextsSnoc(events, Complete);
        events := events + [Complete];
        dead := true;
      case Emit(v, s') =>
        CountNextsSnoc(events, Next(v));
        delivered := delivered + 1;
        events := events + [Next(v)];
        state := s';
    }

    /** cancel() from the subscriber. */
    method Cancel()
      requires !dead
      modifies this
      ensures dead
      ensures state == old(state) && requested == old(requested)
      ensures delivered == old(delivered) && events == old(events)
    {
      dead := true;
    }
  }

  // ---------------------------------------------------------------------
  // of_impl: the state is the vector and an index into it.

  datatype OfState<T> = OfState(data: seq<T>, idx: nat)

  function OfStep<T>(s: OfState<T>): Step<OfState<T>, T>
  {
    if s.idx >= |s.data| then Finish else Emit(s.data[s.idx], s.(idx := s.idx + 1))
  }

  /** `of` delivers the remaining values in order and completes once demand
    * outlasts them. */
  lemma {:induction false} OfPull<T>(data: seq<T>, i: nat, demand: nat)
    requires i <= |data|
    ensures var end := Min(i + demand, |data|);
      Pull(OfStep, OfState(data, i), demand)
        == Pulled(data[i..end], OfState(data, end), i + demand > |data|)
    decreases demand
  {
    if demand > 0 && i < |data| {
      OfPull(data, i + 1, demand - 1);
      assert data[i..Min(i + demand, |data|)]
          == [data[i]] + data[i + 1..Min(i + 1 + (demand - 1), |data|)];
    }
  }

  /** of({3, 1, 2}) under ample demand: "3", "1", "2", ".". */
  lemma OfThreeValues()
    ensures var p := Pull(OfStep, OfState([3, 1, 2], 0), 10);
      Delivered(p.items, p.completed)
        == [Next(3), Next(1), Next(2), Complete]
  {
    OfPull([3, 1, 2], 0, 10);
    assert [3, 1, 2][0..3] == [3, 1, 2];
  }

  // ---------------------------------------------------------------------
  // range_impl: the state is the next value, compared with `to` by equality.

  function RangeStep(to: int): int -> Step<int, int>
  {
    t => if t == to then Finish else Emit(t, t + 1)
  }

  /** The integers a, a+1, ..., b-1. */
  function Ints(a: int, b: int): (r: seq<int>)
    requires a <= b
    ensures |r| == b - a
    ensures forall i :: 0 <= i < |r| ==> r[i] == a + i
  {
    seq(b - a, i => a + i)
  }

  /** range(from, to) with from <= to delivers from..to-1 in order and
    * completes once demand outlasts them. */
  lemma {:induction false} RangePull(t: int, to: int, demand: nat)
    requires t <= to
    ensures var end := Min(t + demand, to);
      Pull(RangeStep(to), t, demand) == Pulled(Ints(t, end), end, t + demand > to)
    decreases demand
  {
    if demand > 0 && t < to {
      RangePull(t + 1, to, demand - 1);
      assert Ints(t, Min(t + demand, to)) == [t] + Ints(t + 1, Min(t + 1 + (demand - 1), to));
    }
  }

  /** With from > to the equality test never fires: the range never
    * completes and counts upwards for as long as there is demand. */
  lemma {:induction false} RangePastEndNeverCompletes(t: int, to: int, demand: nat)
    requires t > to
    ensures Pull(RangeStep(to), t, demand) == Pulled(Ints(t, t + demand), t + demand, false)
    decreases demand
  {
    if demand > 0 {
      RangePastEndNeverCompletes(t + 1, to, demand - 1);
      assert Ints(t, t + demand) == [t] + Ints(t + 1, t + 1 + (demand - 1));
    }
  }

  /** range(0, 3) under ample demand: "0", "1", "2", ".". */
  lemma RangeZeroToThree()
    ensures var p := Pull(RangeStep(3), 0, 10);
      Delivered(p.items, p.completed)
        == [Next(0), Next(1), Next(2), Complete]
  {
    RangePull(0, 3, 10);
    assert Ints(0, 3) == [0, 1, 2];
  }

  // ---------------------------------------------------------------------
  // take_op: forwards at most n items, capping the demand it passes on.

  /** The demand take(n) passes upstream for a request of m after `requested`
    * items were already asked for; zero means no upstream request. */
  function TakeForward(n: int, requested: int, m: int): (r: int)
    ensures r >= 0
    ensures r <= Max(m, 0) && requested + r <= Max(n, requested)
    ensures r > 0 <==> m > 0 && requested < n
  {
    Max(0, Min(m, n - requested))
  }

  /** With n <= 0 no demand is ever passed on, so take(0) never completes. */
  lemma TakeZeroForwardsNothing(n: int, m: int)
    requires n <= 0
    ensures TakeForward(n, 0, m) == 0
  {
  }

  class Take<T> {
    const n: int
    var received: nat
    var requested: nat
    var upstreamRequests: seq<nat>
    var upstreamCancelled: bool
    var ended: bool
    var sink: seq<Event<T>>

    ghost predicate Valid()
      reads this
    {
      received <= requested <= Max(n, 0)
      && CountNexts(sink) == received
      && (0 < received == n ==> ended && upstreamCancelled)
    }

    constructor (count: int)
      ensures n == count && received == 0 && requested == 0
      ensures upstreamRequests == [] && !upstreamCancelled && !ended && sink == []
      ensures Valid()
    {
      n := count;
      received := 0;
      requested := 0;
      upstreamRequests := [];
      upstreamCancelled := false;
      ended := false;
      sink := [];
    }

    /** request(m) from downstream: passes on what is still owed. */
    method Request(m: int) returns (forwarded: int)
      requires Valid() && !ended
      modifies this
      ensures Valid()
      ensures forwarded == TakeForward(n, old(requested), m)
      ensures requested == old(requested) + forwarded
      ensures upstreamRequests == old(upstreamRequests) + (if forwarded > 0 then [forwarded] else [])
      ensures received == old(received) && sink == old(sink)
      ensures ended == old(ended) && upstreamCancelled == old(upstreamCancelled)
    {
      forwarded := Min(m, n - requested);
      if forwarded > 0 {
        requested := requested + forwarded;
        upstreamRequests := upstreamRequests + [forwarded];
      } else {
        forwarded := 0;
      }
    }

    /** on_next from upstream, which never delivers more than was requested:
      * forwards the item and completes after the n-th. */
    method OnNext(v: T)
      requires Valid() && !ended
      requires received < requested
      modifies this
      ensures Valid()
      ensures received == old(received) + 1 <= n
      ensures ended == (received == n) && upstreamCancelled == (old(upstreamCancelled) || received == n)
      ensures sink == old(sink) + [Next(v)] + (if received == n then [Complete] else [])
      ensures requested == old(requested) && upstreamRequests == old(upstreamRequests)
    {
      sink := sink + [Next(v)];
      received := received + 1;
      if received == n {
        upstreamCancelled := true;
        sink := sink + [Complete];
        ended := true;
      }
    }

    method OnComplete()
      requires Valid() && !ended
      modifies this
      ensures Valid() && ended
      ensures sink == old(sink) + [Complete]
      ensures received == old(received) && requested == old(requested)
      ensures upstreamRequests == old(upstreamRequests) && upstreamCancelled == old(upstreamCancelled)
    {
      sink := sink + [Complete];
      ended := true;
    }

    method OnError(code: nat)
      requires Valid() && !ended
      modifies this
      ensures Valid() && ended
      ensures sink == old(sink) + [Failed(code)]
      ensures received == old(received) && requested == old(requested)
      ensures upstreamRequests == old(upstreamRequests) && upstreamCancelled == old(upstreamCancelled)
    {
      sink := sink + [Failed(code)];
      ended := true;
    }
  }

  // ---------------------------------------------------------------------
  // take_while_op: forwards items while the predicate holds; the first
  // failing item is dropped, upstream is cancelled and the sink completes.

  /** The sink's events after feeding `items`, item by item, into take_while. */
  function TakeWhileEvents<T>(p: T -> bool, items: seq<T>): seq<Event<T>>
  {
    if items == [] then []
    else if !p(items[0]) then [Complete]
    else [Next(items[0])] + TakeWhileEvents(p, items[1..])
  }

  /** Items up to the first failing one are forwarded, the failing one is
    * not, and the stream completes there. */
  lemma {:induction false} TakeWhileStopsAtFirstFailure<T>(p: T -> bool, items: seq<T>, i: nat)
    requires i < |items| && !p(items[i])
    requires forall j :: 0 <= j < i ==> p(items[j])
    ensures TakeWhileEvents(p, items) == Nexts(items[..i]) + [Complete]
    decreases i
  {
    if i > 0 {
      TakeWhileStopsAtFirstFailure(p, items[1..], i - 1);
      assert items[1..][..i - 1] == items[1..i];
      assert Nexts(items[..i]) == [Next(items[0])] + Nexts(items[1..i]);
    }
  }

  /** If every item passes, all are forwarded and nothing completes. */
  lemma {:induction false} TakeWhileAllPass<T>(p: T -> bool, items: seq<T>)
    requires forall j :: 0 <= j < |items| ==> p(items[j])
    ensures TakeWhileEvents(p, items) == Nexts(items)
    decreases |items|
  {
    if items != [] {
      TakeWhileAllPass(p, items[1..]);
    }
  }

  /** range(2, ...) >> take_while(i < 10): "2" .. "9", ".". */
  lemma TakeWhileBelowTen(items: seq<int>)
    requires |items| > 8 && items[..9] == Ints(2, 11)
    ensures TakeWhileEvents(i => i < 10, items) == Nexts(Ints(2, 10)) + [Complete]
  {
    assert items[..8] == Ints(2, 10);
    TakeWhileStopsAtFirstFailure(i => i < 10, items, 8);
  }

  class TakeWhile<T> {
    const pred: T -> bool
    ghost var fed: seq<T>
    var upstreamCancelled: bool
    var ended: bool
    var sink: seq<Event<T>>

    /** While no upstream completion or error arrived, the sink holds
      * exactly the events take_while produces for what was fed. */
    ghost predicate Valid()
      reads this
    {
      !ended ==> sink == TakeWhileEvents(pred, fed) && forall j :: 0 <= j < |fed| ==> pred(fed[j])
    }

    constructor (p: T -> bool)
      ensures pred == p && fed == [] && !upstreamCancelled && !ended && sink == []
      ensures Valid()
    {
      pred := p;
      fed := [];
      upstreamCancelled := false;
      ended := false;
      sink := [];
    }

    method OnNext(v: T)
      requires Valid() && !ended
      modifies this
      ensures Valid()
      ensures fed == old(fed) + [v]
      ensures ended == !pred(v) && upstreamCancelled == (old(upstreamCancelled) || !pred(v))
      ensures sink == old(sink) + (if pred(v) then [Next(v)] else [Complete])
      ensures ended ==> sink == TakeWhileEvents(pred, fed)
    {
      TakeWhileSnoc(pred, fed, v);
      fed := fed + [v];
      if !pred(v) {
        upstreamCancelled := true;
        sink := sink + [Complete];
        ended := true;
      } else {
        sink := sink + [Next(v)];
      }
    }

    method OnComplete()
      requires Valid() && !ended
      modifies this
      ensures ended && sink == old(sink) + [Complete]
      ensures fed == old(fed) && upstreamCancelled == old(upstreamCancelled)
    {
      sink := sink + [Complete];
      ended := true;
    }

    method OnError(code: nat)
      requires Valid() && !ended
      modifies this
      ensures ended && sink == old(sink) + [Failed(code)]
      ensures fed == old(fed) && upstreamCancelled == old(upstreamCancelled)
    {
      sink := sink + [Failed(code)];
      ended := true;
    }
  }

  lemma {:induction false} TakeWhileSnoc<T>(p: T -> bool, items: seq<T>, v: T)
    requires forall j :: 0 <= j < |items| ==> p(items[j])
    ensures TakeWhileEvents(p, items + [v])
      == TakeWhileEvents(p, items) + (if p(v) then [Next(v)] else [Complete])
    decreases |items|
  {
    if items != [] {
      assert (items + [v])[1..] == items[1..] + [v];
      TakeWhileSnoc(p, items[1..], v);
    }
  }

  // ---------------------------------------------------------------------
  // repeat_if: re-emits the last matching element before a non-matching one
  // once `n` non-matching elements have passed since the last reset.

  /** The most recent element satisfying the predicate, if any. */
  function LastMatch<T>(p: T -> bool, items: seq<T>): (r: Option<T>)
    ensures r.Some? ==> p(r.value) && r.value in items
    ensures r.None? <==> forall j :: 0 <= j < |items| ==> !p(items[j])
  {
    if items == [] then None
    else if p(items[|items| - 1]) then Some(items[|items| - 1])
    else
      var r := LastMatch(p, items[..|items| - 1]);
      assert forall j :: 0 <= j < |items| - 1 ==> items[..|items| - 1][j] == items[j];
      r
  }

  class RepeatIf<T> {
    const repeatEach: nat
    const pred: T -> bool
    ghost var fed: seq<T>
    var lastElement: Option<T>
    var packetsAgo: nat

    ghost predicate Valid()
      reads this
    {
      lastElement == LastMatch(pred, fed)
    }

    constructor (n: nat, p: T -> bool)
      ensures repeatEach == n && pred == p && fed == []
      ensures lastElement == None && packetsAgo == 0
      ensures Valid()
    {
      repeatEach := n;
      pred := p;
      fed := [];
      lastElement := None;
      packetsAgo := 0;
    }

    /** The flat_map body: what is published for one input element. */
    method OnData(data: T) returns (out: seq<T>)
      requires Valid()
      modifies this
      ensures Valid() && fed == old(fed) + [data]
      ensures var repeat := !pred(data) && old(packetsAgo) >= repeatEach && old(lastElement).Some?;
        && out == (if repeat then [old(lastElement).value, data] else [data])
        && packetsAgo == (if pred(data) || repeat then 0 else old(packetsAgo) + 1)
      ensures |out| == 2 ==> out[0] == LastMatch(pred, old(fed)).value && pred(out[0])
    {
      fed := fed + [data];
      if pred(data) {
        packetsAgo := 0;
        lastElement := Some(data);
      } else {
        assert fed[..|fed| - 1] == old(fed);
        if packetsAgo >= repeatEach && lastElement.Some? {
          packetsAgo := 0;
          return [lastElement.value, data];
        }
        packetsAgo := packetsAgo + 1;
      }
      return [data];
    }
  }

  // ---------------------------------------------------------------------
  // merge_publisher::is_complete

  /** One upstream slot: `active` while merge still holds its upstream. */
  datatype Upstream = Upstream(active: bool)

  /** Complete only when every expected upstream has subscribed, none is
    * still active and no buffered item remains. */
  method IsComplete<T>(upstreams: seq<Upstream>, expected: nat, items: seq<T>) returns (complete: bool)
    ensures complete <==>
      |upstreams| >= expected
      && (forall k :: 0 <= k < |upstreams| ==> !upstreams[k].active)
      && items == []
  {
    if |upstreams| < expected {
      return false;
    }
    var activeUpstreams := 0;
    var i := 0;
    while i < |upstreams|
      invariant 0 <= i <= |upstreams|
      invariant activeUpstreams == 0 <==> forall k :: 0 <= k < i ==> !upstreams[k].active
      invariant activeUpstreams >= 0
    {
      if upstreams[i].active {
        activeUpstreams := activeUpstreams + 1;
      }
      i := i + 1;
    }
    return activeUpstreams == 0 && items == [];
  }
}
