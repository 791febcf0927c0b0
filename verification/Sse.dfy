/** In-process fan-out of server-sent events: the lock-protected subscriber list with bounded queues, and
    what a subscriber has been delivered after any interleaving of publishers and consumers. */
module Sse {
  import opened Common

  const MAXSIZE: nat := 100

  // ---------------------------------------------------------------- the objects

  /** `queue.Queue(maxsize=100)`. */
  class EventQueue<E> {
    var items: seq<E>

    constructor ()
      ensures items == []
    {
      items := [];
    }

    /** True when `queue.Full` is raised. */
    method PutNowait(e: E) returns (full: bool)
      modifies this
      ensures full <==> |old(items)| >= 100
      ensures items == if |old(items)| < 100 then old(items) + [e] else old(items)
    {
      full := |items| >= MAXSIZE;
      if !full {
        items := items + [e];
      }
    }

    /** None when the wait times out on an empty queue. */
    method Get() returns (e: Option<E>)
      modifies this
      ensures old(items) == [] ==> e == None && items == []
      ensures old(items) != [] ==> e == Some(old(items)[0]) && items == old(items)[1..]
    {
      if items == [] {
        return None;
      }
      e := Some(items[0]);
      items := items[1..];
    }
  }

  /** A list without some of its members, the others in their order. */
  function Without<T(==)>(s: seq<T>, gone: seq<T>): seq<T> {
    if s == [] then []
    else Without(s[..|s| - 1], gone) + if s[|s| - 1] in gone then [] else [s[|s| - 1]]
  }

  ghost predicate Distinct<T>(s: seq<T>) {
    forall i, j :: 0 <= i < j < |s| ==> s[i] != s[j]
  }

  lemma {:induction false} WithoutMembers<T>(s: seq<T>, gone: seq<T>)
    requires Distinct(s)
    ensures Distinct(Without(s, gone))
    ensures forall x :: x in Without(s, gone) <==> x in s && x !in gone
  {
    if s == [] {
    } else {
      var before, last := s[..|s| - 1], s[|s| - 1];
      WithoutMembers(before, gone);
      assert s == before + [last] && last !in before;
    }
  }

  /** `list.remove`: drops the first occurrence. */
  function Remove<T(==)>(s: seq<T>, x: T): seq<T> {
    if s == [] then [] else if s[0] == x then s[1..] else [s[0]] + Remove(s[1..], x)
  }

  lemma {:induction false} RemoveLast<T>(s: seq<T>, last: T, x: T)
    ensures Remove(s + [last], x) == if x in s then Remove(s, x) + [last] else if last == x then s else s + [last]
  {
    if s == [] {
    } else {
      RemoveLast(s[1..], last, x);
      assert (s + [last])[1..] == s[1..] + [last];
      assert s == [s[0]] + s[1..];
    }
  }

  lemma {:induction false} RemoveIsWithout<T>(s: seq<T>, gone: seq<T>, x: T)
    requires Distinct(s) && x !in gone
    ensures Remove(Without(s, gone), x) == Without(s, gone + [x])
  {
    if s == [] {
    } else {
      var before, last := s[..|s| - 1], s[|s| - 1];
      assert s == before + [last] && last !in before;
      RemoveIsWithout(before, gone, x);
      WithoutMembers(before, gone);
      assert last in gone + [x] <==> last in gone || last == x;
      if x !in Without(before, gone) {
        WithoutAbsent(before, gone, x);
        RemoveAbsent(Without(before, gone), x);
      }
      if last !in gone {
        RemoveLast(Without(before, gone), last, x);
        assert Without(s, gone) == Without(before, gone) + [last];
      } else {
        assert Without(s, gone) == Without(before, gone);
        assert Without(s, gone + [x]) == Without(before, gone + [x]);
      }
    }
  }

  lemma {:induction false} RemoveAbsent<T>(s: seq<T>, x: T)
    requires x !in s
    ensures Remove(s, x) == s
  {
    if s == [] {
    } else {
      RemoveAbsent(s[1..], x);
    }
  }

  lemma {:induction false} WithoutAbsent<T>(s: seq<T>, gone: seq<T>, x: T)
    requires x !in Without(s, gone)
    ensures Without(s, gone + [x]) == Without(s, gone)
  {
    if s == [] {
    } else {
      WithoutAbsent(s[..|s| - 1], gone, x);
    }
  }

  lemma {:induction false} WithoutNothing<T>(s: seq<T>)
    ensures Without(s, []) == s
  {
    if s == [] {
    } else {
      WithoutNothing(s[..|s| - 1]);
    }
  }

  /** A queue's items after `put_nowait`, whether it succeeds or raises. */
  function AfterPut<E>(items: seq<E>, e: E): seq<E> {
    if |items| < MAXSIZE then items + [e] else items
  }

  /** `_sse_subscribers`, as seen by one holder of `_sse_lock`. */
  class Broadcaster<E> {
    var subscribers: seq<EventQueue<E>>

    constructor ()
      ensures subscribers == []
    {
      subscribers := [];
    }

    method Subscribe() returns (q: EventQueue<E>)
      requires Distinct(subscribers)
      modifies this
      ensures fresh(q) && q.items == [] && subscribers == old(subscribers) + [q] && Distinct(subscribers)
    {
      q := new EventQueue<E>();
      subscribers := subscribers + [q];
    }

    method Unsubscribe(q: EventQueue<E>)
      requires Distinct(subscribers)
      modifies this
      ensures subscribers == Without(old(subscribers), [q]) && Distinct(subscribers)
    {
      WithoutMembers(subscribers, [q]);
      WithoutNothing(subscribers);
      RemoveIsWithout(subscribers, [], q);
      assert [] + [q] == [q];
      if q in subscribers {
        subscribers := Remove(subscribers, q);
      } else {
        WithoutAbsent(subscribers, [], q);
      }
    }

    /** The loop of puts, which collects the queues found full. */
    static method Offer(queues: seq<EventQueue<E>>, e: E) returns (dead: seq<EventQueue<E>>)
      requires Distinct(queues)
      modifies queues
      ensures Distinct(dead) && forall q :: q in dead <==> q in queues && |old(q.items)| >= MAXSIZE
      ensures forall q :: q in queues ==> q.items == AfterPut(old(q.items), e)
    {
      dead := [];
      for i := 0 to |queues|
        invariant Distinct(dead) && forall q :: q in dead <==> q in queues[..i] && |old(q.items)| >= MAXSIZE
        invariant forall k :: 0 <= k < i ==> queues[k].items == AfterPut(old(queues[k].items), e)
        invariant forall k :: i <= k < |queues| ==> queues[k].items == old(queues[k].items)
      {
        assert queues[..i + 1] == queues[..i] + [queues[i]];
        assert queues[i] !in queues[..i];
        var full := queues[i].PutNowait(e);
        if full {
          dead := dead + [queues[i]];
        }
      }
      assert queues[..|queues|] == queues;
    }

    /** The loop that removes them. */
    method Drop(dead: seq<EventQueue<E>>)
      requires Distinct(subscribers) && Distinct(dead)
      modifies this
      ensures subscribers == Without(old(subscribers), dead)
    {
      ghost var queues := subscribers;
      WithoutNothing(queues);
      for i := 0 to |dead|
        invariant subscribers == Without(queues, dead[..i])
      {
        assert dead[i] !in dead[..i] && dead[..i + 1] == dead[..i] + [dead[i]];
        RemoveIsWithout(queues, dead[..i], dead[i]);
        subscribers := Remove(subscribers, dead[i]);
      }
      assert dead[..|dead|] == dead;
    }

    /** Every queue with room receives the event; the full ones, and only they, leave the list. */
    method Publish(e: E)
      requires Distinct(subscribers)
      modifies this, subscribers
      ensures Distinct(subscribers)
      ensures exists dead ::
                && subscribers == Without(old(subscribers), dead)
                && forall q :: q in dead <==> q in old(subscribers) && |old(q.items)| >= 100
      ensures forall q :: q in old(subscribers) ==>
                q.items == if |old(q.items)| < 100 then old(q.items) + [e] else old(q.items)
    {
      var dead := Offer(subscribers, e);
      WithoutMembers(subscribers, dead);
      Drop(dead);
    }
  }

  // ---------------------------------------------------------------- interleavings

  /** How a subscription ended, with the number of events published before it did. */
  datatype Exit = Staying | Evicted(at: nat) | Left(at: nat)

  datatype Subscriber<E> = Subscriber(since: nat, received: seq<E>, queued: seq<E>, exit: Exit)

  /** The holder of the lock inside `_sse_publish`: the next queue to offer the event to, and the queues
      found full so far. The event itself is the last of the log. */
  datatype Sending = Sending(next: nat, dead: seq<nat>)

  datatype Hub<E> = Hub(log: seq<E>, order: seq<nat>, subs: map<nat, Subscriber<E>>, sending: Option<Sending>)

  /** Consumers take from their queues without the lock, so `Take` may fall between any two puts. */
  datatype Step<E> =
    | Subscribe(id: nat)
    | Unsubscribe(id: nat)
    | BeginPublish(event: E)
    | PutNext
    | EndPublish
    | Take(id: nat)

  function Empty<E>(): Hub<E> { Hub([], [], map[], None) }

  function Apply<E>(h: Hub<E>, step: Step<E>): Hub<E> {
    match step
    case Subscribe(id) =>
      if h.sending == None && id !in h.subs
      then h.(order := h.order + [id], subs := h.subs[id := Subscriber(|h.log|, [], [], Staying)]) else h
    case Unsubscribe(id) =>
      if h.sending == None && id in h.order && id in h.subs
      then h.(order := Without(h.order, [id]), subs := h.subs[id := h.subs[id].(exit := Left(|h.log|))]) else h
    case BeginPublish(event) =>
      if h.sending == None then h.(log := h.log + [event], sending := Some(Sending(0, []))) else h
    case PutNext =>
      if Putting(h) then Put(h) else h
    case EndPublish =>
      if h.sending.Some? && h.sending.value.next >= |h.order|
      then h.(order := Without(h.order, h.sending.value.dead), sending := None) else h
    case Take(id) =>
      if id in h.subs && h.subs[id].queued != []
      then
        var s := h.subs[id];
        h.(subs := h.subs[id := s.(received := s.received + [s.queued[0]], queued := s.queued[1..])])
      else h
  }

  predicate Putting<E>(h: Hub<E>) {
    h.sending.Some? && h.sending.value.next < |h.order| && h.order[h.sending.value.next] in h.subs && h.log != []
  }

  /** One `put_nowait`. */
  function Put<E>(h: Hub<E>): Hub<E>
    requires Putting(h)
  {
    var at, event := h.sending.value, h.log[|h.log| - 1];
    var id := h.order[at.next];
    var s := h.subs[id];
    if |s.queued| < MAXSIZE
    then h.(subs := h.subs[id := s.(queued := s.queued + [event])], sending := Some(at.(next := at.next + 1)))
    else h.(subs := h.subs[id := s.(exit := Evicted(|h.log| - 1))],
            sending := Some(Sending(at.next + 1, at.dead + [id])))
  }

  function Run<E>(h: Hub<E>, steps: seq<Step<E>>): Hub<E> {
    if steps == [] then h else Apply(Run(h, steps[..|steps| - 1]), steps[|steps| - 1])
  }

  /** A subscriber the publisher has yet to reach. */
  ghost predicate Pending<E>(h: Hub<E>, id: nat) {
    h.sending.Some? && h.sending.value.next <= |h.order| && id in h.order[h.sending.value.next..]
  }

  /** One past the last event a subscriber was to be offered. */
  ghost function Horizon<E>(h: Hub<E>, id: nat): int
    requires id in h.subs
  {
    match h.subs[id].exit
    case Evicted(at) => at
    case Left(at) => at
    case Staying => if Pending(h, id) then |h.log| - 1 else |h.log|
  }

  /** What was taken and what still waits are, in order, exactly the events since the subscription. */
  ghost predicate Delivered<E>(h: Hub<E>, id: nat)
    requires id in h.subs
  {
    var s, end := h.subs[id], Horizon(h, id);
    && s.since <= end <= |h.log| && |s.queued| <= MAXSIZE
    && s.received + s.queued == h.log[s.since..end]
    && (s.exit.Evicted? ==> end < |h.log|)
  }

  ghost predicate Listed<E>(h: Hub<E>) {
    && Distinct(h.order)
    && (forall id :: id in h.order ==> id in h.subs)
    && (forall id :: id in h.subs ==>
          (h.subs[id].exit == Staying <==> id in h.order && !(h.sending.Some? && id in h.sending.value.dead)))
    && (h.sending.Some? ==>
          && h.log != [] && h.sending.value.next <= |h.order|
          && (forall id :: id in h.sending.value.dead ==> id in h.order[..h.sending.value.next]))
  }

  ghost predicate Inv<E>(h: Hub<E>) {
    Listed(h) && forall id :: id in h.subs ==> Delivered(h, id)
  }

  lemma TakeKeepsInv<E>(h: Hub<E>, id: nat)
    requires Inv(h)
    ensures Inv(Apply(h, Take(id)))
  {
    var h' := Apply(h, Take(id));
    if h' != h {
      var s := h.subs[id];
      assert s.received + s.queued == s.received + [s.queued[0]] + s.queued[1..];
      forall q | q in h'.subs ensures Delivered(h', q) {
        assert Delivered(h, q) && Horizon(h', q) == Horizon(h, q);
      }
    }
  }

  lemma PutKeepsListed<E>(h: Hub<E>)
    requires Listed(h) && Putting(h)
    ensures Listed(Put(h))
  {
    var at, h' := h.sending.value, Put(h);
    var id := h.order[at.next];
    assert h.order[..at.next + 1] == h.order[..at.next] + [id];
    assert id !in h.order[..at.next];
    forall q | q in h'.subs
      ensures h'.subs[q].exit == Staying <==> q in h'.order && q !in h'.sending.value.dead
    {
      assert h.subs[q].exit == Staying <==> q in h.order && q !in at.dead;
    }
  }

  /** The queue being offered the event either gains it or is evicted just before it. */
  lemma PutReaches<E>(h: Hub<E>)
    requires Listed(h) && Putting(h) && Delivered(h, h.order[h.sending.value.next])
    ensures Delivered(Put(h), h.order[h.sending.value.next])
  {
    var at, h' := h.sending.value, Put(h);
    var id := h.order[at.next];
    var s := h.subs[id];
    assert id in h.order && id !in h.order[..at.next];
    assert s.exit == Staying;
    assert id in h.order[at.next..] && Horizon(h, id) == |h.log| - 1;
    if |s.queued| < MAXSIZE {
      assert h'.order[at.next + 1..] == h.order[at.next + 1..] && id !in h.order[at.next + 1..];
      assert Horizon(h', id) == |h.log|;
      assert h.log[s.since..] == h.log[s.since..|h.log| - 1] + [h.log[|h.log| - 1]];
      assert s.received + (s.queued + [h.log[|h.log| - 1]]) == s.received + s.queued + [h.log[|h.log| - 1]];
    } else {
      assert Horizon(h', id) == |h.log| - 1;
    }
  }

  lemma PutPasses<E>(h: Hub<E>, q: nat)
    requires Putting(h) && q in h.subs && q != h.order[h.sending.value.next] && Delivered(h, q)
    ensures Delivered(Put(h), q)
  {
    var next := h.sending.value.next;
    assert h.order[next..] == [h.order[next]] + h.order[next + 1..];
    assert Pending(Put(h), q) <==> Pending(h, q);
  }

  lemma SubscribeKeepsInv<E>(h: Hub<E>, id: nat)
    requires Inv(h)
    ensures Inv(Apply(h, Subscribe(id)))
  {
    var h' := Apply(h, Subscribe(id));
    forall q | q in h'.subs ensures Delivered(h', q) {
      assert q in h.subs ==> Delivered(h, q);
    }
  }

  lemma UnsubscribeKeepsInv<E>(h: Hub<E>, id: nat)
    requires Inv(h)
    ensures Inv(Apply(h, Unsubscribe(id)))
  {
    var h' := Apply(h, Unsubscribe(id));
    WithoutMembers(h.order, [id]);
    forall q | q in h'.subs ensures Delivered(h', q) {
      assert Delivered(h, q);
    }
  }

  lemma BeginKeepsInv<E>(h: Hub<E>, event: E)
    requires Inv(h)
    ensures Inv(Apply(h, BeginPublish(event)))
  {
    var h' := Apply(h, BeginPublish(event));
    forall q | q in h'.subs ensures Delivered(h', q) {
      assert Delivered(h, q);
    }
  }

  lemma PutKeepsInv<E>(h: Hub<E>)
    requires Inv(h) && Putting(h)
    ensures Inv(Put(h))
  {
    PutKeepsListed(h);
    forall q | q in Put(h).subs ensures Delivered(Put(h), q) {
      if q == h.order[h.sending.value.next] { PutReaches(h); } else { PutPasses(h, q); }
    }
  }

  lemma EndKeepsInv<E>(h: Hub<E>)
    requires Inv(h)
    ensures Inv(Apply(h, EndPublish))
  {
    var h' := Apply(h, EndPublish);
    if h.sending.Some? {
      WithoutMembers(h.order, h.sending.value.dead);
    }
    forall q | q in h'.subs ensures Delivered(h', q) {
      assert Delivered(h, q);
    }
  }

  lemma ApplyKeepsInv<E>(h: Hub<E>, step: Step<E>)
    requires Inv(h)
    ensures Inv(Apply(h, step))
  {
    match step
    case Subscribe(id) => SubscribeKeepsInv(h, id);
    case Unsubscribe(id) => UnsubscribeKeepsInv(h, id);
    case BeginPublish(event) => BeginKeepsInv(h, event);
    case PutNext => if Putting(h) { PutKeepsInv(h); }
    case EndPublish => EndKeepsInv(h);
    case Take(id) => TakeKeepsInv(h, id);
  }

  lemma {:induction false} RunsKeepInv<E>(steps: seq<Step<E>>)
    ensures Inv(Run(Empty<E>(), steps))
  {
    if steps == [] {
    } else {
      RunsKeepInv(steps[..|steps| - 1]);
      ApplyKeepsInv(Run(Empty<E>(), steps[..|steps| - 1]), steps[|steps| - 1]);
    }
  }

  /** Exact delivery, for every interleaving of publishers, consumers, subscriptions and departures: when
      no publish is under way, a registered subscriber has received, or still holds, exactly the events
      published since it subscribed; one that was evicted or left, exactly a block of them from then on.
      No queue ever holds more than 100, and no subscriber is listed twice. */
  lemma ExactDelivery<E>(steps: seq<Step<E>>, id: nat)
    requires id in Run(Empty<E>(), steps).subs && Run(Empty<E>(), steps).sending == None
    ensures var h := Run(Empty<E>(), steps);
            var s := h.subs[id];
            && Distinct(h.order) && |s.queued| <= 100 && s.since <= |h.log|
            && (s.exit == Staying <==> id in h.order)
            && (s.exit == Staying ==> s.received + s.queued == h.log[s.since..])
            && (s.exit.Left? ==> s.since <= s.exit.at <= |h.log|
                                 && s.received + s.queued == h.log[s.since..s.exit.at])
            && (s.exit.Evicted? ==> s.since <= s.exit.at < |h.log|
                                    && s.received + s.queued == h.log[s.since..s.exit.at])
  {
    RunsKeepInv(steps);
    assert Delivered(Run(Empty<E>(), steps), id);
  }

  /** The step at which a put finds a subscriber's queue full. */
  predicate FindsFull<E>(h: Hub<E>, step: Step<E>, id: nat) {
    step.PutNext? && Putting(h) && h.order[h.sending.value.next] == id && |h.subs[id].queued| >= MAXSIZE
  }

  /** A put that finds a queue full ends the subscription just before the event it offered; nothing else
      evicts, and nothing brings a subscriber back. */
  lemma EvictionStep<E>(h: Hub<E>, step: Step<E>, id: nat)
    requires Listed(h)
    ensures var h' := Apply(h, step);
            var evicted := id in h.subs && h.subs[id].exit.Evicted?;
            && (id in h'.subs && h'.subs[id].exit.Evicted? <==> evicted || FindsFull(h, step, id))
            && (FindsFull(h, step, id) ==> id in h'.subs && h'.subs[id].exit == Evicted(|h.log| - 1))
            && (evicted ==> h'.subs[id].exit == h.subs[id].exit)
  {
    if step.Unsubscribe? && h.sending == None && step.id in h.order {
      assert h.subs[step.id].exit == Staying;
    }
    if step.PutNext? && Putting(h) {
      var next := h.sending.value.next;
      assert h.order[next] !in h.order[..next];
      assert h.subs[h.order[next]].exit == Staying;
    }
  }

  /** Step k is the put that evicted the subscriber, and `at` the event it offered. */
  ghost predicate EvictedBy<E>(steps: seq<Step<E>>, k: int, id: nat, at: nat) {
    && 0 <= k < |steps| && FindsFull(Run(Empty<E>(), steps[..k]), steps[k], id)
    && at == |Run(Empty<E>(), steps[..k]).log| - 1
  }

  lemma EvictedByPrefix<E>(steps: seq<Step<E>>, id: nat, at: nat)
    requires steps != []
    ensures var n := |steps| - 1;
            (exists k :: EvictedBy(steps, k, id, at)) <==>
            (exists k :: EvictedBy(steps[..n], k, id, at)) || EvictedBy(steps, n, id, at)
  {
    var n := |steps| - 1;
    var before := steps[..n];
    if k :| EvictedBy(steps, k, id, at) {
      assert k < n ==> before[..k] == steps[..k] && EvictedBy(before, k, id, at);
    }
    if k :| EvictedBy(before, k, id, at) {
      assert before[..k] == steps[..k] && EvictedBy(steps, k, id, at);
    }
  }

  /** Over a whole run, a subscription ended by eviction just before event number `at` exactly when a put
      that offered that event found its queue full: one that keeps its backlog below 100 whenever it is
      offered an event is never dropped. */
  lemma {:induction false} EvictedExactlyIff<E>(steps: seq<Step<E>>, id: nat, at: nat)
    ensures var h := Run(Empty<E>(), steps);
            id in h.subs && h.subs[id].exit == Evicted(at) <==> exists k :: EvictedBy(steps, k, id, at)
  {
    if steps == [] {
    } else {
      var n := |steps| - 1;
      EvictedExactlyIff(steps[..n], id, at);
      RunsKeepInv(steps[..n]);
      EvictionStep(Run(Empty<E>(), steps[..n]), steps[n], id);
      EvictedByPrefix(steps, id, at);
      if id in Run(Empty<E>(), steps[..n]).subs && Run(Empty<E>(), steps[..n]).subs[id].exit != Staying {
        OnlyOneEviction(Run(Empty<E>(), steps[..n]), steps[n], id);
      }
    }
  }

  /** A subscriber that was evicted, or has left, is offered nothing more. */
  lemma OnlyOneEviction<E>(h: Hub<E>, step: Step<E>, id: nat)
    requires Listed(h) && id in h.subs && h.subs[id].exit != Staying
    ensures !FindsFull(h, step, id)
  {
    if step.PutNext? && Putting(h) {
      var next := h.sending.value.next;
      assert h.order[next] !in h.order[..next];
    }
  }

  ghost predicate EverFull<E>(steps: seq<Step<E>>, id: nat) {
    exists k :: 0 <= k < |steps| && FindsFull(Run(Empty<E>(), steps[..k]), steps[k], id)
  }

  /** In particular a subscriber is evicted exactly when some put found its queue full. */
  lemma EvictedIff<E>(steps: seq<Step<E>>, id: nat)
    ensures var h := Run(Empty<E>(), steps);
            id in h.subs && h.subs[id].exit.Evicted? <==> EverFull(steps, id)
  {
    var h := Run(Empty<E>(), steps);
    if id in h.subs && h.subs[id].exit.Evicted? {
      EvictedExactlyIff(steps, id, h.subs[id].exit.at);
    }
    if k :| 0 <= k < |steps| && FindsFull(Run(Empty<E>(), steps[..k]), steps[k], id) {
      var at := |Run(Empty<E>(), steps[..k]).log| - 1;
      assert EvictedBy(steps, k, id, at);
      EvictedExactlyIff(steps, id, at);
    }
  }

  // ---------------------------------------------------------------- a publish with nobody in between

  function Puts<E>(h: Hub<E>, n: nat): Hub<E> {
    if n == 0 then h else Apply(Puts(h, n - 1), PutNext)
  }

  function Offered<E>(s: Subscriber<E>, event: E, at: nat): Subscriber<E> {
    if |s.queued| < MAXSIZE then s.(queued := s.queued + [event]) else s.(exit := Evicted(at))
  }

  ghost predicate AfterPuts<E>(h: Hub<E>, h': Hub<E>, event: E, n: nat)
    requires Listed(h) && n <= |h.order|
  {
    && h'.log == h.log + [event] && h'.order == h.order && h'.subs.Keys == h.subs.Keys
    && h'.sending.Some? && h'.sending.value.next == n
    && (forall i :: 0 <= i < n ==> h'.subs[h.order[i]] == Offered(h.subs[h.order[i]], event, |h.log|))
    && (forall i :: n <= i < |h.order| ==> h'.subs[h.order[i]] == h.subs[h.order[i]])
    && (forall id :: id in h'.sending.value.dead <==> id in h.order[..n] && |h.subs[id].queued| >= MAXSIZE)
  }

  lemma OnePut<E>(h: Hub<E>, h': Hub<E>, event: E, n: nat)
    requires Listed(h) && n < |h.order| && AfterPuts(h, h', event, n)
    ensures AfterPuts(h, Apply(h', PutNext), event, n + 1)
  {
    assert h.order[n] in h.order;
    assert h.order[..n + 1] == h.order[..n] + [h.order[n]];
    forall i | 0 <= i < |h.order| && i != n ensures h.order[i] != h.order[n] {
    }
  }

  lemma {:induction false} PutsReach<E>(h: Hub<E>, event: E, n: nat)
    requires Listed(h) && h.sending == None && n <= |h.order|
    ensures AfterPuts(h, Puts(Apply(h, BeginPublish(event)), n), event, n)
  {
    if n == 0 {
    } else {
      PutsReach(h, event, n - 1);
      OnePut(h, Puts(Apply(h, BeginPublish(event)), n - 1), event, n - 1);
    }
  }

  /** Run without interruption, the steps of a publish do what Broadcaster.Publish promises: queues with
      room gain the event, full ones keep theirs and leave the list. */
  lemma QuietPublish<E>(h: Hub<E>, event: E)
    requires Listed(h) && h.sending == None
    ensures var h' := Apply(Puts(Apply(h, BeginPublish(event)), |h.order|), EndPublish);
            && h'.sending == None && h'.log == h.log + [event]
            && (exists dead :: h'.order == Without(h.order, dead)
                  && forall id :: id in dead <==> id in h.order && |h.subs[id].queued| >= 100)
            && h'.subs.Keys == h.subs.Keys
            && forall id :: id in h.order ==>
                 && h'.subs[id].queued == (if |h.subs[id].queued| < 100 then h.subs[id].queued + [event]
                                           else h.subs[id].queued)
                 && h'.subs[id].received == h.subs[id].received
  {
    PutsReach(h, event, |h.order|);
    assert h.order[..|h.order|] == h.order;
    var h1 := Puts(Apply(h, BeginPublish(event)), |h.order|);
    forall id | id in h.order ensures h1.subs[id] == Offered(h.subs[id], event, |h.log|) {
      var i :| 0 <= i < |h.order| && h.order[i] == id;
    }
  }

  // ---------------------------------------------------------------- the other calls, each in one step

  /** No other subscriber is affected, and nothing is published. */
  ghost predicate OthersKept<E>(h: Hub<E>, h': Hub<E>, id: nat) {
    && h'.log == h.log && h'.sending == h.sending
    && (forall q :: q != id ==> (q in h'.subs <==> q in h.subs))
    && (forall q :: q != id && q in h.subs ==> h'.subs[q] == h.subs[q])
  }

  /** A take does what EventQueue.Get promises: it hands over the oldest event in the queue, if there is one. */
  lemma QuietTake<E>(h: Hub<E>, id: nat)
    requires id in h.subs
    ensures var h' := Apply(h, Take(id));
            && OthersKept(h, h', id) && h'.order == h.order && id in h'.subs
            && h'.subs[id].since == h.subs[id].since && h'.subs[id].exit == h.subs[id].exit
            && (h.subs[id].queued == [] ==>
                  h'.subs[id].queued == [] && h'.subs[id].received == h.subs[id].received)
            && (h.subs[id].queued != [] ==>
                  && h'.subs[id].queued == h.subs[id].queued[1..]
                  && h'.subs[id].received == h.subs[id].received + [h.subs[id].queued[0]])
  {
  }

  /** Subscribing does what Broadcaster.Subscribe promises: a new subscriber with an empty queue, last in the
      list. */
  lemma QuietSubscribe<E>(h: Hub<E>, id: nat)
    requires h.sending == None && id !in h.subs
    ensures var h' := Apply(h, Subscribe(id));
            && OthersKept(h, h', id) && h'.order == h.order + [id] && id in h'.subs
            && h'.subs[id] == Subscriber(|h.log|, [], [], Staying)
  {
  }

  /** Unsubscribing does what Broadcaster.Unsubscribe promises: only this one leaves the list. */
  lemma QuietUnsubscribe<E>(h: Hub<E>, id: nat)
    requires Listed(h) && h.sending == None && id in h.subs
    ensures var h' := Apply(h, Unsubscribe(id));
            && OthersKept(h, h', id) && h'.order == Without(h.order, [id]) && id in h'.subs
            && h'.subs[id].received == h.subs[id].received && h'.subs[id].queued == h.subs[id].queued
  {
    WithoutNothing(h.order);
    if id !in h.order {
      WithoutAbsent(h.order, [], id);
      assert [] + [id] == [id];
    }
  }

  // ---------------------------------------------------------------- what consumers receive

  /** A consumer asks, and there is an event for it. */
  predicate Takes<E>(h: Hub<E>, step: Step<E>, id: nat) {
    step == Take(id) && id in h.subs && h.subs[id].queued != []
  }

  /** How many of a run's steps are such takes. */
  function Taken<E>(steps: seq<Step<E>>, id: nat): nat {
    if steps == [] then 0
    else
      var n := |steps| - 1;
      Taken(steps[..n], id) + if Takes(Run(Empty<E>(), steps[..n]), steps[n], id) then 1 else 0
  }

  /** The events of a run's publishes, in the order in which they got the lock. */
  function Published<E>(steps: seq<Step<E>>): seq<E> {
    if steps == [] then []
    else
      var n := |steps| - 1;
      Published(steps[..n])
      + if steps[n].BeginPublish? && Run(Empty<E>(), steps[..n]).sending == None then [steps[n].event] else []
  }

  lemma {:induction false} LogIsPublished<E>(steps: seq<Step<E>>)
    ensures Run(Empty<E>(), steps).log == Published(steps)
  {
    if steps == [] {
    } else {
      LogIsPublished(steps[..|steps| - 1]);
    }
  }

  lemma ReceivesOne<E>(h: Hub<E>, step: Step<E>, id: nat)
    ensures id in h.subs ==> id in Apply(h, step).subs
    ensures id in Apply(h, step).subs ==>
              |Apply(h, step).subs[id].received|
              == (if id in h.subs then |h.subs[id].received| else 0) + if Takes(h, step, id) then 1 else 0
  {
  }

  /** A subscriber has received an event for each of its takes that found one, and no other. */
  lemma {:induction false} ReceivedIsTaken<E>(steps: seq<Step<E>>, id: nat)
    ensures id !in Run(Empty<E>(), steps).subs ==> Taken(steps, id) == 0
    ensures id in Run(Empty<E>(), steps).subs ==> |Run(Empty<E>(), steps).subs[id].received| == Taken(steps, id)
  {
    if steps == [] {
    } else {
      var n := |steps| - 1;
      ReceivedIsTaken(steps[..n], id);
      ReceivesOne(Run(Empty<E>(), steps[..n]), steps[n], id);
    }
  }

  /** So many takes in a row. */
  function Drains<E>(h: Hub<E>, id: nat, n: nat): Hub<E> {
    if n == 0 then h else Apply(Drains(h, id, n - 1), Take(id))
  }

  /** The subscriber has taken its n oldest events, and nothing else has changed. */
  ghost predicate HasTaken<E>(h: Hub<E>, h': Hub<E>, id: nat, n: nat)
    requires id in h.subs && n <= |h.subs[id].queued|
  {
    && OthersKept(h, h', id) && h'.order == h.order && id in h'.subs
    && h'.subs[id].since == h.subs[id].since && h'.subs[id].exit == h.subs[id].exit
    && h'.subs[id].queued == h.subs[id].queued[n..]
    && h'.subs[id].received == h.subs[id].received + h.subs[id].queued[..n]
  }

  lemma TakesNext<E>(h: Hub<E>, h': Hub<E>, id: nat, n: nat)
    requires id in h.subs && n < |h.subs[id].queued| && HasTaken(h, h', id, n)
    ensures HasTaken(h, Apply(h', Take(id)), id, n + 1)
  {
    QuietTake(h', id);
    var q := h.subs[id].queued;
    assert q[n..][1..] == q[n + 1..] && q[..n + 1] == q[..n] + [q[n]];
  }

  lemma {:induction false} DrainsTake<E>(h: Hub<E>, id: nat, n: nat)
    requires id in h.subs && n <= |h.subs[id].queued|
    ensures HasTaken(h, Drains(h, id, n), id, n)
  {
    if n == 0 {
    } else {
      DrainsTake(h, id, n - 1);
      TakesNext(h, Drains(h, id, n - 1), id, n - 1);
    }
  }

  /** From any state of a run with no publish under way, a subscriber that takes as often as its queue is long
      has then received exactly the events published while it was subscribed: all since then if it still is, and
      those before it left or was evicted if it is not. */
  lemma DrainedReceivesAll<E>(steps: seq<Step<E>>, id: nat)
    requires id in Run(Empty<E>(), steps).subs && Run(Empty<E>(), steps).sending == None
    ensures var s := Run(Empty<E>(), steps).subs[id];
            var h' := Drains(Run(Empty<E>(), steps), id, |s.queued|);
            && id in h'.subs && h'.subs[id].queued == []
            && s.since <= |Published(steps)|
            && (s.exit == Staying ==> h'.subs[id].received == Published(steps)[s.since..])
            && (s.exit.Left? ==> s.since <= s.exit.at <= |Published(steps)|
                                 && h'.subs[id].received == Published(steps)[s.since..s.exit.at])
            && (s.exit.Evicted? ==> s.since <= s.exit.at < |Published(steps)|
                                    && h'.subs[id].received == Published(steps)[s.since..s.exit.at])
  {
    var h := Run(Empty<E>(), steps);
    ExactDelivery(steps, id);
    LogIsPublished(steps);
    DrainsTake(h, id, |h.subs[id].queued|);
  }

  /** Whenever a publish begins, the subscriber has at most `room` events waiting. */
  ghost predicate BacklogWithin<E>(steps: seq<Step<E>>, id: nat, room: nat) {
    forall k :: 0 <= k < |steps| && steps[k].BeginPublish? && id in Run(Empty<E>(), steps[..k]).subs ==>
      |Run(Empty<E>(), steps[..k]).subs[id].queued| <= room
  }

  /** While the publisher has yet to reach it. */
  ghost predicate PendingWithin<E>(h: Hub<E>, id: nat, room: nat) {
    Pending(h, id) && id in h.subs ==> |h.subs[id].queued| <= room
  }

  lemma StepKeepsPendingWithin<E>(h: Hub<E>, step: Step<E>, id: nat, room: nat)
    requires Listed(h) && PendingWithin(h, id, room)
    requires step.BeginPublish? && id in h.subs ==> |h.subs[id].queued| <= room
    ensures PendingWithin(Apply(h, step), id, room)
  {
    if step.PutNext? && Putting(h) {
      var next := h.sending.value.next;
      assert h.order[next..] == [h.order[next]] + h.order[next + 1..];
      assert h.order[next] !in h.order[next + 1..];
    }
  }

  lemma {:induction false} RunKeepsPendingWithin<E>(steps: seq<Step<E>>, id: nat, room: nat, k: nat)
    requires BacklogWithin(steps, id, room) && k <= |steps|
    ensures PendingWithin(Run(Empty<E>(), steps[..k]), id, room)
  {
    if k == 0 {
    } else {
      RunKeepsPendingWithin(steps, id, room, k - 1);
      RunsKeepInv(steps[..k - 1]);
      assert steps[..k][..k - 1] == steps[..k - 1];
      StepKeepsPendingWithin(Run(Empty<E>(), steps[..k - 1]), steps[k - 1], id, room);
    }
  }

  /** A subscriber that has at most 99 events waiting whenever a publish begins is never evicted. */
  lemma RoomKeepsSubscriber<E>(steps: seq<Step<E>>, id: nat)
    requires BacklogWithin(steps, id, 99)
    ensures id in Run(Empty<E>(), steps).subs ==> !Run(Empty<E>(), steps).subs[id].exit.Evicted?
  {
    forall k | 0 <= k < |steps| ensures !FindsFull(Run(Empty<E>(), steps[..k]), steps[k], id) {
      var h := Run(Empty<E>(), steps[..k]);
      RunKeepsPendingWithin(steps, id, 99, k);
      assert Putting(h) ==> h.order[h.sending.value.next] in h.order[h.sending.value.next..];
    }
    EvictedIff(steps, id);
  }

  /** In particular one that is drained before each publish begins. */
  lemma DrainedIsNeverEvicted<E>(steps: seq<Step<E>>, id: nat)
    requires BacklogWithin(steps, id, 0)
    ensures id in Run(Empty<E>(), steps).subs ==> !Run(Empty<E>(), steps).subs[id].exit.Evicted?
  {
    RoomKeepsSubscriber(steps, id);
  }
}
