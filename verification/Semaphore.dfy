/** The weighted priority semaphore of `libs/locks/semaphore.ts` and the queue helpers of
    `libs/locks/helper.ts`. A pending promise is known by its ticket, the number of its call. */
module Semaphore {

  /** A queue entry: what `acquire` asked for, and which call it was. */
  datatype Request = Request(weight: int, priority: int, ticket: nat)

  datatype Outcome = Granted | Queued | InvalidWeight

  /** The fields of a semaphore, and the history of its grants. `held` are the requests
      whose releaser exists and has not been called. */
  datatype State = State(value: int, queue: seq<Request>, held: seq<Request>, granted: seq<Request>, calls: nat)

  datatype Call = Acquire(weight: int, priority: int) | CallReleaser(ticket: nat) | Cancel

  // ---------------------------------------------------------------- specification of one call

  /** The queue with `r` behind every request of at least its priority. */
  function Insert(q: seq<Request>, r: Request): (s: seq<Request>)
  {
    if q == [] || r.priority <= q[|q| - 1].priority then q + [r]
    else Insert(q[..|q| - 1], r) + [q[|q| - 1]]
  }

  predicate AllLower(q: seq<Request>, priority: int)
  {
    forall r :: r in q ==> r.priority < priority
  }

  /** `item` leaves the waiting side and gets its weight. */
  function Grant(s: State, item: Request): State
  {
    s.(value := s.value - item.weight, held := s.held + [item], granted := s.granted + [item])
  }

  /** The front of the queue is served while it fits. */
  function ServeFront(s: State): State
    decreases |s.queue|
  {
    if s.queue == [] || s.queue[0].weight > s.value then s
    else ServeFront(Grant(s.(queue := s.queue[1..]), s.queue[0]))
  }

  function AcquireStep(s: State, weight: int, priority: int): State
  {
    if weight <= 0 then s
    else
      var item := Request(weight, priority, s.calls);
      var t := s.(calls := s.calls + 1);
      if AllLower(s.queue, priority) && weight <= s.value then Grant(t, item)
      else t.(queue := Insert(s.queue, item))
  }

  function IndexOf(held: seq<Request>, ticket: nat): (i: nat)
    ensures i <= |held|
    ensures i < |held| ==> held[i].ticket == ticket
    ensures forall j :: 0 <= j < i ==> held[j].ticket != ticket
  {
    if held == [] || held[0].ticket == ticket then 0 else 1 + IndexOf(held[1..], ticket)
  }

  /** Only the first call of a releaser has an effect. */
  function ReleaserStep(s: State, ticket: nat): State
  {
    var i := IndexOf(s.held, ticket);
    if i == |s.held| then s
    else ServeFront(s.(value := s.value + s.held[i].weight, held := s.held[..i] + s.held[i + 1..]))
  }

  function CancelStep(s: State): State
  {
    s.(queue := [])
  }

  function Step(s: State, c: Call): State
  {
    match c
    case Acquire(w, p) => AcquireStep(s, w, p)
    case CallReleaser(t) => ReleaserStep(s, t)
    case Cancel => CancelStep(s)
  }

  function Run(s: State, calls: seq<Call>): State
    decreases |calls|
  {
    if calls == [] then s else Run(Step(s, calls[0]), calls[1..])
  }

  function New(initial: int): State
  {
    State(initial, [], [], [], 0)
  }

  // ---------------------------------------------------------------- what every run keeps

  function Weights(q: seq<Request>): int
  {
    if q == [] then 0 else q[0].weight + Weights(q[1..])
  }

  /** The free value plus everything on loan. */
  function Total(s: State): int
  {
    s.value + Weights(s.held)
  }

  /** Falling priority, and first come first served among equals. */
  ghost predicate Ordered(q: seq<Request>)
  {
    forall i, j :: 0 <= i < j < |q| ==> Before(q[i], q[j])
  }

  ghost predicate Before(a: Request, b: Request)
  {
    a.priority > b.priority || (a.priority == b.priority && a.ticket < b.ticket)
  }

  /** Over a whole history, requests of one priority appear in the order of their calls. */
  ghost predicate FirstComeFirst(q: seq<Request>)
  {
    forall i, j :: 0 <= i < j < |q| && q[i].priority == q[j].priority ==> q[i].ticket < q[j].ticket
  }

  /** Nobody of `done` comes after an equal of `waiting`. */
  ghost predicate Precede(done: seq<Request>, waiting: seq<Request>)
  {
    forall i, j :: 0 <= i < |done| && 0 <= j < |waiting| && done[i].priority == waiting[j].priority ==>
      done[i].ticket < waiting[j].ticket
  }

  ghost predicate Known(q: seq<Request>, calls: nat)
  {
    forall i :: 0 <= i < |q| ==> 0 < q[i].weight && q[i].ticket < calls
  }

  ghost predicate Inv(s: State)
  {
    && 0 <= s.value
    && Ordered(s.queue) && FirstComeFirst(s.granted) && Precede(s.granted, s.queue)
    && Known(s.queue, s.calls) && Known(s.held, s.calls) && Known(s.granted, s.calls)
  }

  /** Nobody waits who could run. */
  ghost predicate Settled(s: State)
  {
    s.queue == [] || s.value < s.queue[0].weight
  }

  lemma OneWeight(r: Request)
    ensures Weights([r]) == r.weight
  {
    assert [r][1..] == [];
  }

  lemma {:induction false} WeightsConcat(p: seq<Request>, q: seq<Request>)
    ensures Weights(p + q) == Weights(p) + Weights(q)
  {
    if p == [] {
      assert p + q == q;
    } else {
      assert (p + q)[1..] == p[1..] + q;
      WeightsConcat(p[1..], q);
    }
  }

  lemma {:induction false} WeightsBoundCount(q: seq<Request>, calls: nat)
    requires Known(q, calls)
    ensures |q| <= Weights(q)
  {
    if q != [] {
      WeightsBoundCount(q[1..], calls);
    }
  }

  /** `arr.splice(i, 0, v)`. */
  function Splice(a: seq<Request>, v: Request, i: nat): seq<Request>
    requires i <= |a|
  {
    a[..i] + [v] + a[i..]
  }

  lemma SpliceLast(a: seq<Request>, v: Request, i: nat)
    requires i <= |a|
    ensures i == |a| ==> Splice(a, v, i) == a + [v]
    ensures i < |a| ==> Splice(a, v, i) == Splice(a[..|a| - 1], v, i) + [a[|a| - 1]]
  {
  }

  lemma InsertUnfold(a: seq<Request>, v: Request)
    ensures a == [] || v.priority <= a[|a| - 1].priority ==> Insert(a, v) == a + [v]
    ensures a != [] && a[|a| - 1].priority < v.priority ==>
              Insert(a, v) == Insert(a[..|a| - 1], v) + [a[|a| - 1]]
  {
  }

  lemma {:induction false} InsertAt(a: seq<Request>, v: Request, i: int)
    requires -1 <= i < |a| && (i >= 0 ==> v.priority <= a[i].priority)
    requires forall j :: i < j < |a| ==> a[j].priority < v.priority
    ensures Splice(a, v, i + 1) == Insert(a, v)
  {
    hide Insert, Splice;
    InsertUnfold(a, v);
    SpliceLast(a, v, i + 1);
    if i < |a| - 1 {
      InsertAt(a[..|a| - 1], v, i);
    }
  }

  /** Where `Insert` puts the new request. */
  lemma {:induction false} InsertPosition(q: seq<Request>, r: Request) returns (i: nat)
    ensures i <= |q| && Insert(q, r) == Splice(q, r, i)
    ensures i > 0 ==> r.priority <= q[i - 1].priority
    ensures forall j :: i <= j < |q| ==> q[j].priority < r.priority
  {
    hide Insert, Splice;
    InsertUnfold(q, r);
    if q == [] || r.priority <= q[|q| - 1].priority {
      i := |q|;
    } else {
      i := InsertPosition(q[..|q| - 1], r);
    }
    SpliceLast(q, r, i);
  }

  lemma SpliceKeepsOrder(q: seq<Request>, r: Request, i: nat, calls: nat)
    requires Ordered(q) && Known(q, calls) && r.ticket == calls && 0 < r.weight && i <= |q|
    requires i > 0 ==> r.priority <= q[i - 1].priority
    requires forall j :: i <= j < |q| ==> q[j].priority < r.priority
    ensures Ordered(Splice(q, r, i)) && Known(Splice(q, r, i), calls + 1)
  {
    var s := Splice(q, r, i);
    forall a, b | 0 <= a < b < |s|
      ensures Before(s[a], s[b])
    {
      if a < i - 1 {
        assert Before(q[a], q[i - 1]);
      }
    }
  }

  lemma InsertKeepsOrder(q: seq<Request>, r: Request, calls: nat)
    requires Ordered(q) && Known(q, calls) && r.ticket == calls && 0 < r.weight
    ensures Ordered(Insert(q, r)) && Known(Insert(q, r), calls + 1)
    ensures Insert(q, r)[0] == if AllLower(q, r.priority) then r else q[0]
  {
    var i := InsertPosition(q, r);
    SpliceKeepsOrder(q, r, i, calls);
    if i > 0 {
      assert q[i - 1] in q;
    }
  }

  lemma InsertKeepsPrecede(done: seq<Request>, q: seq<Request>, r: Request, calls: nat)
    requires Precede(done, q) && Known(done, calls) && r.ticket == calls
    ensures Precede(done, Insert(q, r))
  {
    var i := InsertPosition(q, r);
    var s := Insert(q, r);
    assert forall b :: 0 <= b < |s| ==> s[b] == if b < i then q[b] else if b == i then r else q[b - 1];
  }

  lemma RemoveKeepsKnown(q: seq<Request>, i: nat, calls: nat)
    requires i < |q| && Known(q, calls)
    ensures Known(q[..i] + q[i + 1..], calls)
    ensures Weights(q[..i] + q[i + 1..]) == Weights(q) - q[i].weight
  {
    hide Weights;
    RemoveWeight(q, i);
    var r := q[..i] + q[i + 1..];
    forall j | 0 <= j < |r|
      ensures 0 < r[j].weight && r[j].ticket < calls
    {
      assert r[j] == q[if j < i then j else j + 1];
    }
  }

  lemma RemoveWeight(q: seq<Request>, i: nat)
    requires i < |q|
    ensures Weights(q[..i] + q[i + 1..]) == Weights(q) - q[i].weight
  {
    var pre, post := q[..i], q[i + 1..];
    assert q == pre + ([q[i]] + post);
    assert Weights([q[i]]) == q[i].weight;
    hide Weights;
    WeightsConcat(pre, [q[i]] + post);
    WeightsConcat([q[i]], post);
    WeightsConcat(pre, post);
  }

  lemma GrantFrontKeepsInv(s: State)
    requires Inv(s) && s.queue != [] && s.queue[0].weight <= s.value
    ensures var t := Grant(s.(queue := s.queue[1..]), s.queue[0]); Inv(t) && Total(t) == Total(s)
  {
    WeightsConcat(s.held, [s.queue[0]]);
  }

  lemma {:induction false} ServeFrontKeepsInv(s: State)
    requires Inv(s)
    ensures var t := ServeFront(s);
            Inv(t) && Settled(t) && Total(t) == Total(s) && t.calls == s.calls
    decreases |s.queue|
  {
    if s.queue != [] && s.queue[0].weight <= s.value {
      GrantFrontKeepsInv(s);
      ServeFrontKeepsInv(Grant(s.(queue := s.queue[1..]), s.queue[0]));
    }
  }

  /** A request in front of the whole queue is granted at once. */
  lemma GrantNewKeepsInv(s: State, item: Request)
    requires Inv(s) && AllLower(s.queue, item.priority) && 0 < item.weight <= s.value && item.ticket == s.calls
    ensures var t := Grant(s.(calls := s.calls + 1), item); Inv(t) && Total(t) == Total(s)
  {
    WeightsConcat(s.held, [item]);
    assert forall i :: 0 <= i < |s.queue| ==> s.queue[i] in s.queue;
  }

  lemma AcquireKeepsInv(s: State, weight: int, priority: int)
    requires Inv(s) && Settled(s)
    ensures var t := AcquireStep(s, weight, priority); Inv(t) && Settled(t) && Total(t) == Total(s)
  {
    hide Insert;
    if 0 < weight {
      var item := Request(weight, priority, s.calls);
      if AllLower(s.queue, priority) && weight <= s.value {
        GrantNewKeepsInv(s, item);
      } else {
        InsertKeepsOrder(s.queue, item, s.calls);
        InsertKeepsPrecede(s.granted, s.queue, item, s.calls);
      }
    }
  }

  lemma ReleaserKeepsInv(s: State, ticket: nat)
    requires Inv(s) && Settled(s)
    ensures var t := ReleaserStep(s, ticket); Inv(t) && Settled(t) && Total(t) == Total(s)
  {
    hide Weights, ServeFront, IndexOf;
    var i := IndexOf(s.held, ticket);
    if i < |s.held| {
      RemoveKeepsKnown(s.held, i, s.calls);
      ServeFrontKeepsInv(s.(value := s.value + s.held[i].weight, held := s.held[..i] + s.held[i + 1..]));
    }
  }

  /** Any run of acquires, releasers and cancels from a fresh semaphore conserves the value,
      never overdraws it, keeps the queue ordered and leaves no waiter who could run. */
  lemma {:induction false} RunKeepsInv(s: State, calls: seq<Call>)
    requires Inv(s) && Settled(s)
    ensures var t := Run(s, calls); Inv(t) && Settled(t) && Total(t) == Total(s)
    decreases |calls|
  {
    if calls != [] {
      match calls[0] {
        case Acquire(w, p) => AcquireKeepsInv(s, w, p);
        case CallReleaser(t) => ReleaserKeepsInv(s, t);
        case Cancel =>
      }
      RunKeepsInv(Step(s, calls[0]), calls[1..]);
    }
  }

  /** With initial value one, at most one request is out at any time. */
  lemma MutualExclusion(calls: seq<Call>)
    ensures var t := Run(New(1), calls);
            |t.held| <= 1 && (t.held != [] ==> t.value == 0 && t.held[0].weight == 1)
  {
    RunKeepsInv(New(1), calls);
    var t := Run(New(1), calls);
    WeightsBoundCount(t.held, t.calls);
  }

  /** Over a whole run, equals are granted in the order they asked, and nobody granted
      overtook an equal who still waits. */
  lemma GrantsAreFirstComeFirst(initial: nat, calls: seq<Call>)
    ensures var t := Run(New(initial), calls);
            FirstComeFirst(t.granted + t.queue)
  {
    RunKeepsInv(New(initial), calls);
  }

  // ---------------------------------------------------------------- queue helpers

  /** `findIndexFromEnd` with the predicate both callers pass: the other one's priority is
      at least `priority`. */
  method FindIndexFromEnd(a: seq<Request>, priority: int) returns (i: int)
    ensures -1 <= i < |a|
    ensures i >= 0 ==> priority <= a[i].priority
    ensures forall j :: i < j < |a| ==> a[j].priority < priority
  {
    i := |a| - 1;
    while i >= 0
      invariant -1 <= i < |a|
      invariant forall j :: i < j < |a| ==> a[j].priority < priority
    {
      if priority <= a[i].priority {
        return;
      }
      i := i - 1;
    }
  }

  /** `insertSorted`. */
  method InsertSorted(a: seq<Request>, v: Request) returns (r: seq<Request>)
    ensures r == Insert(a, v)
  {
    var i := FindIndexFromEnd(a, v.priority);
    InsertAt(a, v, i);
    r := Splice(a, v, i + 1);
  }

  // ---------------------------------------------------------------- the class

  class Semaphore {
    var value: int
    var queue: seq<Request>
    var held: seq<Request>
    var calls: nat
    ghost var granted: seq<Request>

    ghost function View(): State
      reads this
    {
      State(value, queue, held, granted, calls)
    }

    constructor (initial: int)
      ensures View() == New(initial)
    {
      value, queue, held, calls, granted := initial, [], [], 0, [];
    }

    method Acquire(weight: int, priority: int) returns (outcome: Outcome)
      modifies this
      ensures View() == AcquireStep(old(View()), weight, priority)
      ensures outcome == InvalidWeight <==> weight <= 0
      ensures outcome == Granted <==> |granted| > |old(granted)|
    {
      if weight <= 0 {
        return InvalidWeight;
      }
      var task := Request(weight, priority, calls);
      calls := calls + 1;
      var i := FindIndexFromEnd(queue, priority);
      if i == -1 && weight <= value {
        DispatchItem(task);
        return Granted;
      }
      InsertAt(queue, task, i);
      assert i >= 0 ==> queue[i] in queue;
      queue := Splice(queue, task, i + 1);
      return Queued;
    }

    /** `_dispatchItem`: what the free value loses is out on loan, so their sum stays. */
    method DispatchItem(item: Request)
      modifies this
      ensures View() == Grant(old(View()), item)
      ensures Total(View()) == old(Total(View()))
    {
      WeightsConcat(held, [item]);
      OneWeight(item);
      value := value - item.weight;
      held := held + [item];
      granted := granted + [item];
    }

    /** `_dispatchQueue`. */
    method DispatchQueue()
      modifies this
      ensures View() == ServeFront(old(View()))
    {
      while |queue| > 0 && queue[0].weight <= value
        invariant ServeFront(View()) == ServeFront(old(View()))
        decreases |queue|
      {
        var item := queue[0];
        queue := queue[1..];
        DispatchItem(item);
      }
    }

    /** `release`; `ok` is false where the source throws. */
    method Release(weight: int) returns (ok: bool)
      modifies this
      ensures ok <==> 0 < weight
      ensures View() == if ok then ServeFront(old(View()).(value := old(value) + weight)) else old(View())
    {
      if weight <= 0 {
        return false;
      }
      value := value + weight;
      DispatchQueue();
      return true;
    }

    /** The closure that `_newReleaser` makes. */
    method CallReleaser(ticket: nat)
      requires Known(held, calls)
      modifies this
      ensures View() == ReleaserStep(old(View()), ticket)
    {
      var i := IndexOf(held, ticket);
      if i < |held| {
        var item := held[i];
        held := held[..i] + held[i + 1..];
        var ok := Release(item.weight);
      }
    }

    /** `cancel`: every waiting promise is rejected. */
    method Cancel() returns (rejected: seq<Request>)
      modifies this
      ensures View() == CancelStep(old(View()))
      ensures rejected == old(queue)
    {
      rejected := queue;
      queue := [];
    }
  }
}
