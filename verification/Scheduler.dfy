/** The app's request manager: loads are started by priority within a budget of points, loads of
    one key are shared, and every waiting request is answered when its key's load ends.  The work
    queue runs one operation at a time. */
module Scheduler {
  import opened Wrappers

  datatype Points = All | Normal {
    function Value(): real {
      if All? then 1.0 else 0.1
    }
  }

  /** What a load ends with. */
  datatype Outcome<Item> = Success(item: Item) | Failure

  class Loadable {
    const key: string
    const points: Points
    const priority: real
    const alreadyInflight: bool
    var calledYet: bool

    constructor (key: string, points: Points, priority: real, alreadyInflight: bool)
      ensures this.key == key && this.points == points && this.priority == priority
      ensures this.alreadyInflight == alreadyInflight && !calledYet
    {
      this.key, this.points, this.priority, this.alreadyInflight := key, points, priority, alreadyInflight;
      calledYet := false;
    }
  }

  // ----- the specification

  /** `running` maps each key in flight to the request that started its load; `calls` is every
      completion called, in order, and `called` everyone who is not to be called again. */
  datatype State<Item> = State(
    pending: set<Loadable>,
    running: map<string, Loadable>,
    remaining: real,
    cache: map<string, Item>,
    called: set<Loadable>,
    calls: seq<(Loadable, Outcome<Item>)>)

  /** What happens on the work queue.  `order` is how the waiting requests were sorted, and
      `who` how the pending set was enumerated. */
  datatype Event<Item> =
    | Load(l: Loadable, order: seq<Loadable>)
    | Cancel(l: Loadable)
    | Finish(key: string, outcome: Outcome<Item>, who: seq<Loadable>, order: seq<Loadable>)
    | Evict(key: string)

  ghost function KickOff<Item>(s: State<Item>, l: Loadable): State<Item> {
    s.(running := s.running[l.key := l], remaining := s.remaining - l.points.Value())
  }

  /** Starting loads from a list until one does not fit the budget; keys in flight are skipped. */
  ghost function StartAll<Item>(s: State<Item>, order: seq<Loadable>): State<Item>
    decreases |order|
  {
    if order == [] then s
    else if order[0].key in s.running then StartAll(s, order[1..])
    else if s.remaining - order[0].points.Value() < 0.0 then s
    else StartAll(KickOff(s, order[0]), order[1..])
  }

  ghost function Start<Item>(s: State<Item>, order: seq<Loadable>): State<Item> {
    if s.remaining <= 0.0 then s else StartAll(s, order)
  }

  ghost predicate Waiting<Item>(s: State<Item>, l: Loadable) {
    l in s.pending && l.key !in s.running
  }

  /** The waiting requests by falling priority, those of equal priority in any order. */
  ghost predicate Arranged<Item>(order: seq<Loadable>, s: State<Item>) {
    && (forall l <- order :: Waiting(s, l))
    && (forall l <- s.pending :: l.key !in s.running ==> l in order)
    && forall i, j :: 0 <= i < j < |order| ==> order[i].priority >= order[j].priority
  }

  /** The list a start goes through, if there are points at all. */
  ghost predicate OrderOk<Item>(order: seq<Loadable>, s: State<Item>) {
    s.remaining <= 0.0 || Arranged(order, s)
  }

  ghost function Call<Item>(s: State<Item>, l: Loadable, outcome: Outcome<Item>): State<Item> {
    if l in s.called then s else s.(called := s.called + {l}, calls := s.calls + [(l, outcome)])
  }

  ghost function AnswerAll<Item>(s: State<Item>, who: seq<Loadable>, outcome: Outcome<Item>): State<Item>
    decreases |who|
  {
    if who == [] then s
    else AnswerAll(Call(s.(pending := s.pending - {who[0]}), who[0], outcome), who[1..], outcome)
  }

  /** The pending requests with a key. */
  ghost predicate Sharing<Item>(who: seq<Loadable>, s: State<Item>, key: string) {
    && (forall l <- who :: l in s.pending && l.key == key)
    && (forall l <- s.pending :: l.key == key ==> l in who)
  }

  ghost function Ended<Item>(s: State<Item>, key: string, outcome: Outcome<Item>): State<Item>
    requires key in s.running
  {
    s.(cache := if outcome.Success? then s.cache[key := outcome.item] else s.cache,
       running := s.running - {key},
       remaining := s.remaining + s.running[key].points.Value())
  }

  /** The state in which an event starts waiting loads, if it does. */
  ghost function BeforeStart<Item>(s: State<Item>, e: Event<Item>): State<Item> {
    match e
    case Load(l, _) => s.(pending := s.pending + {l})
    case Cancel(l) => s
    case Finish(key, outcome, who, _) =>
      if key in s.running then AnswerAll(Ended(s, key, outcome), who, outcome) else s
    case Evict(key) => s
  }

  ghost predicate Allowed<Item>(s: State<Item>, e: Event<Item>) {
    match e
    case Load(l, order) =>
      l in s.pending || l.key in s.cache || l.alreadyInflight || OrderOk(order, BeforeStart(s, e))
    case Finish(key, outcome, who, order) =>
      key in s.running && Sharing(who, s, key) && OrderOk(order, BeforeStart(s, e))
    case Cancel(_) => true
    case Evict(_) => true
  }

  ghost function Step<Item>(s: State<Item>, e: Event<Item>): State<Item> {
    match e
    case Load(l, order) =>
      if l in s.pending then s
      else if l.key in s.cache then Call(s, l, Success(s.cache[l.key]))
      else if !l.alreadyInflight then Start(BeforeStart(s, e), order)
      else if l.key in s.running then BeforeStart(s, e)
      else KickOff(BeforeStart(s, e), l)
    case Cancel(l) => s.(pending := s.pending - {l})
    case Finish(_, _, _, order) => Start(BeforeStart(s, e), order)
    case Evict(key) => s.(cache := s.cache - {key})
  }

  ghost function Run<Item>(s: State<Item>, events: seq<Event<Item>>): State<Item>
    decreases |events|
  {
    if events == [] then s else Run(Step(s, events[0]), events[1..])
  }

  ghost predicate AllowedRun<Item>(s: State<Item>, events: seq<Event<Item>>)
    decreases |events|
  {
    events == [] || (Allowed(s, events[0]) && AllowedRun(Step(s, events[0]), events[1..]))
  }

  // ----- the budget

  /** The points of everything in flight. */
  ghost function Total(running: map<string, Loadable>): real
    decreases |running|
  {
    if running == map[] then 0.0
    else
      var k :| k in running;
      running[k].points.Value() + Total(running - {k})
  }

  lemma {:induction false} TotalSplit(running: map<string, Loadable>, key: string)
    requires key in running
    ensures Total(running) == running[key].points.Value() + Total(running - {key})
    decreases |running|
  {
    var k :| k in running && Total(running) == running[k].points.Value() + Total(running - {k});
    if k != key {
      TotalSplit(running - {k}, key);
      TotalSplit(running - {key}, k);
      assert running - {k} - {key} == running - {key} - {k};
    }
  }

  lemma TotalAdd(running: map<string, Loadable>, l: Loadable)
    requires l.key !in running
    ensures Total(running[l.key := l]) == Total(running) + l.points.Value()
  {
    TotalSplit(running[l.key := l], l.key);
    assert running[l.key := l] - {l.key} == running;
  }

  /** The budget adds up, and no completion is called twice. */
  ghost predicate Accounted<Item>(s: State<Item>) {
    && s.remaining == 1.0 - Total(s.running)
    && (forall k :: k in s.running ==> s.running[k].key == k)
    && (forall i :: 0 <= i < |s.calls| ==> s.calls[i].0 in s.called)
    && (forall i, j :: 0 <= i < j < |s.calls| ==> s.calls[i].0 != s.calls[j].0)
  }

  /** Nothing waits unless something is in flight. */
  ghost predicate Busy<Item>(s: State<Item>) {
    s.pending != {} ==> s.running != map[]
  }

  lemma KickOffAccounted<Item>(s: State<Item>, l: Loadable)
    requires Accounted(s) && l.key !in s.running
    ensures Accounted(KickOff(s, l)) && Busy(KickOff(s, l))
  {
    TotalAdd(s.running, l);
    assert l.key in KickOff(s, l).running;
  }

  /** Starting keeps the accounts, never overdraws the budget, and changes nothing else. */
  lemma {:induction false} StartAllAccounted<Item>(s: State<Item>, order: seq<Loadable>)
    requires Accounted(s)
    ensures var t := StartAll(s, order);
            && Accounted(t) && (s.remaining >= 0.0 ==> t.remaining >= 0.0)
            && (forall k :: k in s.running ==> k in t.running && t.running[k] == s.running[k])
            && (forall k :: k in t.running && k !in s.running ==> t.running[k] in order)
            && t == s.(running := t.running, remaining := t.remaining)
    decreases |order|
  {
    if order != [] {
      if order[0].key in s.running {
        StartAllAccounted(s, order[1..]);
      } else if s.remaining - order[0].points.Value() >= 0.0 {
        KickOffAccounted(s, order[0]);
        StartAllAccounted(KickOff(s, order[0]), order[1..]);
      }
    }
  }

  /** With nothing in flight the whole budget is there, so the first in line starts. */
  lemma StartBusy<Item>(s: State<Item>, order: seq<Loadable>)
    requires Accounted(s) && OrderOk(order, s)
    ensures Busy(Start(s, order))
  {
    StartAllAccounted(s, order);
    if s.pending != {} && s.running == map[] {
      var l :| l in s.pending;
      assert l in order;
      assert Total(s.running) == 0.0;
      KickOffAccounted(s, order[0]);
      StartAllAccounted(KickOff(s, order[0]), order[1..]);
      assert order[0].key in Start(s, order).running;
    }
  }

  /** A start gets through a prefix of the list: everything before place `k` is in flight, and
      what stands at place `k` does not fit the budget. */
  lemma {:induction false} StartAllStops<Item>(s: State<Item>, order: seq<Loadable>) returns (k: nat)
    requires Accounted(s)
    ensures var t := StartAll(s, order);
            && k <= |order|
            && (forall j :: 0 <= j < k ==> order[j].key in t.running)
            && (k < |order| ==> order[k].key !in t.running && t.remaining < order[k].points.Value())
            && (forall key :: key in t.running && key !in s.running ==> t.running[key] in order[..k])
    decreases |order|
  {
    hide Total;
    if order == [] {
      k := 0;
    } else if order[0].key !in s.running && s.remaining - order[0].points.Value() < 0.0 {
      k := 0;
    } else {
      var next := if order[0].key in s.running then s else KickOff(s, order[0]);
      if order[0].key !in s.running {
        KickOffAccounted(s, order[0]);
      }
      StartAllAccounted(next, order[1..]);
      var rest := StartAllStops(next, order[1..]);
      k := rest + 1;
      assert order[..k] == [order[0]] + order[1..][..rest];
      assert forall j :: 0 < j < |order| ==> order[j] == order[1..][j - 1];
    }
  }

  /** Whatever is still waiting after a start has no higher priority than anything started, nor
      than a waiting request that does not fit the budget. */
  lemma StartByPriority<Item>(s: State<Item>, order: seq<Loadable>, l: Loadable)
    requires Accounted(s) && s.remaining > 0.0 && Arranged(order, s)
    requires Waiting(Start(s, order), l)
    ensures var t := Start(s, order);
            && (forall key :: key in t.running && key !in s.running ==> t.running[key].priority >= l.priority)
            && exists first <- s.pending :: Waiting(t, first) && first.priority >= l.priority
                                            && t.remaining < first.points.Value()
  {
    var k := StartAllStops(s, order);
    StartAllAccounted(s, order);
    var i :| 0 <= i < |order| && order[i] == l;
    assert i >= k && order[k] in order && order[k].priority >= l.priority;
    assert Waiting(Start(s, order), order[k]);
  }

  // ----- answers

  /** The calls answering makes: one to each of `who` that has not been called. */
  ghost function NewCalls<Item>(called: set<Loadable>, who: seq<Loadable>, outcome: Outcome<Item>)
      : (calls: seq<(Loadable, Outcome<Item>)>)
    ensures forall l <- who :: l !in called ==> (l, outcome) in calls
    ensures forall c <- calls :: c.0 in who && c.0 !in called && c.1 == outcome
    decreases |who|
  {
    if who == [] then []
    else if who[0] in called then NewCalls(called, who[1..], outcome)
    else [(who[0], outcome)] + NewCalls(called + {who[0]}, who[1..], outcome)
  }

  ghost function Elements(who: seq<Loadable>): set<Loadable> {
    set l | l in who
  }

  lemma {:induction false} AnswerAllAnswers<Item>(s: State<Item>, who: seq<Loadable>, outcome: Outcome<Item>)
    requires Accounted(s)
    ensures var t := AnswerAll(s, who, outcome);
            && Accounted(t) && t.running == s.running && t.remaining == s.remaining && t.cache == s.cache
            && t.pending == s.pending - Elements(who) && t.called == s.called + Elements(who)
            && t.calls == s.calls + NewCalls(s.called, who, outcome)
    decreases |who|
  {
    hide Accounted;
    if who == [] {
      assert Elements(who) == {};
    } else {
      var next := Call(s.(pending := s.pending - {who[0]}), who[0], outcome);
      PendingAccounted(s, s.pending - {who[0]});
      CallAccounted(s.(pending := s.pending - {who[0]}), who[0], outcome);
      AnswerAllAnswers(next, who[1..], outcome);
      assert Elements(who) == {who[0]} + Elements(who[1..]);
    }
  }

  lemma PendingAccounted<Item>(s: State<Item>, pending: set<Loadable>)
    requires Accounted(s)
    ensures Accounted(s.(pending := pending))
  {
  }

  lemma CallAccounted<Item>(s: State<Item>, l: Loadable, outcome: Outcome<Item>)
    requires Accounted(s)
    ensures Accounted(Call(s, l, outcome))
  {
  }

  /** When a load ends, exactly the pending requests with its key that were not called before are
      called, with its result; and they leave. */
  lemma FinishDelivers<Item>(s: State<Item>, key: string, outcome: Outcome<Item>,
                             who: seq<Loadable>, order: seq<Loadable>)
    requires Accounted(s) && Allowed(s, Finish(key, outcome, who, order))
    ensures var t := Step(s, Finish(key, outcome, who, order));
            && Accounted(t) && (s.remaining >= 0.0 ==> t.remaining >= 0.0) && Busy(t)
            && s.calls <= t.calls
            && (forall l <- s.pending :: l.key == key ==> l in t.called && l !in t.pending)
            && (forall l <- s.pending :: l.key == key && l !in s.called ==> (l, outcome) in t.calls[|s.calls|..])
            && (forall c <- t.calls[|s.calls|..] :: c.0 in s.pending && c.0.key == key && c.1 == outcome)
            && (forall l <- s.pending :: l.key != key ==> l in t.pending)
            && t.cache == (match outcome case Success(item) => s.cache[key := item] case Failure => s.cache)
            && key !in t.running
            && (forall k <- s.running :: k != key ==> k in t.running && t.running[k] == s.running[k])
  {
    hide StartAll, Total;
    var ended := Ended(s, key, outcome);
    TotalSplit(s.running, key);
    AnswerAllAnswers(ended, who, outcome);
    var answered := AnswerAll(ended, who, outcome);
    StartAllAccounted(answered, order);
    StartBusy(answered, order);
    var t := Step(s, Finish(key, outcome, who, order));
    assert t.calls[|s.calls|..] == NewCalls(s.called, who, outcome);
    KeysOf(answered, order, key);
  }

  /** Only keys on the list are started. */
  lemma KeysOf<Item>(s: State<Item>, order: seq<Loadable>, key: string)
    requires key !in s.running && (s.remaining > 0.0 ==> forall l <- order :: l.key != key)
    ensures key !in Start(s, order).running
  {
    if s.remaining > 0.0 {
      KeysOfAll(s, order, key);
    }
  }

  lemma {:induction false} KeysOfAll<Item>(s: State<Item>, order: seq<Loadable>, key: string)
    requires key !in s.running && forall l <- order :: l.key != key
    ensures key !in StartAll(s, order).running
    decreases |order|
  {
    if order != [] {
      KeysOfAll(if order[0].key in s.running then s else KickOff(s, order[0]), order[1..], key);
    }
  }

  // ----- what a load does

  /** What a request for points takes of the budget. */
  ghost predicate Costs(l: Loadable, points: real) {
    if l.points == All then points == 1.0 else points == 0.1
  }

  /** A request that is not pending.  If its key is cached, it is called with what the cache holds,
      unless it was called before, and nothing else changes.  Otherwise it is pending from now on; if
      it is under way already its key is in flight, whatever the budget; and if not, a load of its own
      starts if it goes before all that wait and fits what is left. */
  lemma LoadTakesIn<Item>(s: State<Item>, l: Loadable, order: seq<Loadable>)
    requires Accounted(s) && Allowed(s, Load(l, order)) && l !in s.pending
    ensures var t := Step(s, Load(l, order));
            if l.key in s.cache then
              if l in s.called then t == s
              else t == s.(called := s.called + {l}, calls := s.calls + [(l, Success(s.cache[l.key]))])
            else
              && t.pending == s.pending + {l} && t.calls == s.calls && t.called == s.called && t.cache == s.cache
              && (forall k <- s.running :: k in t.running && t.running[k] == s.running[k])
    ensures var t := Step(s, Load(l, order));
            l.key !in s.cache && l.alreadyInflight ==>
              && l.key in t.running
              && t.running == (if l.key in s.running then s.running else s.running[l.key := l])
              && (if l.key in s.running then t.remaining == s.remaining else Costs(l, s.remaining - t.remaining))
    ensures var t := Step(s, Load(l, order));
            l.key !in s.cache && !l.alreadyInflight && l.key !in s.running && GoesFirst(s, l) ==>
              if s.remaining > 0.0 && Affords(s, l) then l.key in t.running && t.running[l.key] == l
              else t.running == s.running && t.remaining == s.remaining
  {
    hide Total;
    var waiting := s.(pending := s.pending + {l});
    PendingAccounted(s, waiting.pending);
    StartAllAccounted(waiting, order);
    if l.key !in s.cache && !l.alreadyInflight && l.key !in s.running && GoesFirst(s, l) && s.remaining > 0.0 {
      assert Waiting(waiting, l) && l in order;
      FirstInLine(waiting, order, l);
      if Affords(s, l) {
        KickOffAccounted(waiting, l);
        StartAllAccounted(KickOff(waiting, l), order[1..]);
      }
    }
  }

  /** All that wait have a lower priority. */
  ghost predicate GoesFirst<Item>(s: State<Item>, l: Loadable) {
    forall m <- s.pending :: m.key !in s.running ==> m.priority < l.priority
  }

  ghost predicate Affords<Item>(s: State<Item>, l: Loadable) {
    s.remaining >= if l.points == All then 1.0 else 0.1
  }

  lemma FirstInLine<Item>(s: State<Item>, order: seq<Loadable>, l: Loadable)
    requires Arranged(order, s) && l in order
    requires forall m <- s.pending :: m != l && m.key !in s.running ==> m.priority < l.priority
    ensures order != [] && order[0] == l
  {
    var i :| 0 <= i < |order| && order[i] == l;
    assert order[0].priority >= l.priority;
    assert Waiting(s, order[0]);
  }

  /** While the budget is not overdrawn no more than ten loads are in flight, and one that takes all
      of it is alone; with normal loads only, what is left is what ten of them leave. */
  lemma Budget<Item>(s: State<Item>)
    requires Accounted(s) && s.remaining >= 0.0
    ensures |s.running| <= 10
    ensures (exists k <- s.running :: s.running[k].points == All) ==> |s.running| == 1
    ensures (forall k <- s.running :: s.running[k].points == Normal) ==>
      s.remaining == 1.0 - |s.running| as real / 10.0
  {
    TotalOfPoints(s.running);
    if k :| k in s.running && s.running[k].points == All {
      TotalSplit(s.running, k);
      TotalOfPoints(s.running - {k});
      assert |s.running - {k}| == |s.running| - 1 by {
        assert s.running == (s.running - {k})[k := s.running[k]];
      }
    }
  }

  lemma OneMoreTenth(total: real, n: real, points: Points)
    requires total >= n / 10.0
    ensures points.Value() + total >= (n + 1.0) / 10.0
    ensures points == Normal && total == n / 10.0 ==> points.Value() + total == (n + 1.0) / 10.0
  {
  }

  lemma {:induction false} TotalOfPoints(running: map<string, Loadable>)
    ensures Total(running) >= |running| as real / 10.0
    ensures (forall k <- running :: running[k].points == Normal) ==> Total(running) == |running| as real / 10.0
    decreases |running|
  {
    if running != map[] {
      var k :| k in running && Total(running) == running[k].points.Value() + Total(running - {k});
      var others := running - {k};
      assert running == others[k := running[k]];
      assert |running| as real == |others| as real + 1.0;
      TotalOfPoints(others);
      OneMoreTenth(Total(others), |others| as real, running[k].points);
      assert (forall j <- running :: running[j].points == Normal) ==>
             (forall j <- others :: others[j].points == Normal) && running[k].points == Normal;
    }
  }

  // ----- steps

  lemma StepSound<Item>(s: State<Item>, e: Event<Item>)
    requires Accounted(s) && Busy(s) && Allowed(s, e)
    ensures var t := Step(s, e); Accounted(t) && Busy(t) && s.calls <= t.calls
  {
    hide StartAll, Total;
    match e
    case Load(l, order) =>
      var waiting := s.(pending := s.pending + {l});
      PendingAccounted(s, waiting.pending);
      if l.key in s.cache {
        CallAccounted(s, l, Success(s.cache[l.key]));
      }
      StartAllAccounted(waiting, order);
      if OrderOk(order, waiting) {
        StartBusy(waiting, order);
      }
      if l.key !in s.running {
        KickOffAccounted(waiting, l);
      }
    case Finish(key, outcome, who, order) => FinishDelivers(s, key, outcome, who, order);
    case Cancel(l) =>
    case Evict(key) =>
  }

  ghost predicate Budgeted<Item>(e: Event<Item>) {
    e.Load? ==> !e.l.alreadyInflight
  }

  /** The budget is only ever overdrawn for requests that say they are under way already. */
  lemma StepBudget<Item>(s: State<Item>, e: Event<Item>)
    requires Accounted(s) && Busy(s) && Allowed(s, e) && Budgeted(e) && s.remaining >= 0.0
    ensures Step(s, e).remaining >= 0.0
  {
    hide StartAll, Total;
    match e
    case Load(l, order) =>
      PendingAccounted(s, s.pending + {l});
      StartAllAccounted(s.(pending := s.pending + {l}), order);
    case Finish(key, outcome, who, order) => FinishDelivers(s, key, outcome, who, order);
    case Cancel(l) =>
    case Evict(key) =>
  }

  // ----- runs

  /** In every run the remaining points are what the loads in flight leave of the budget, nothing
      waits while nothing is in flight, and nobody is called twice; without requests already
      under way the budget is never overdrawn. */
  lemma {:induction false} RunSound<Item>(s: State<Item>, events: seq<Event<Item>>)
    requires Accounted(s) && Busy(s) && AllowedRun(s, events)
    ensures var t := Run(s, events); Accounted(t) && Busy(t) && s.calls <= t.calls
    ensures s.remaining >= 0.0 && (forall e <- events :: Budgeted(e)) ==> Run(s, events).remaining >= 0.0
    decreases |events|
  {
    hide Accounted, Busy, Allowed, Step;
    if events != [] {
      StepSound(s, events[0]);
      if s.remaining >= 0.0 && Budgeted(events[0]) {
        StepBudget(s, events[0]);
      }
      RunSound(Step(s, events[0]), events[1..]);
    }
  }

  ghost predicate CalledIn<Item>(l: Loadable, calls: seq<(Loadable, Outcome<Item>)>) {
    exists i :: 0 <= i < |calls| && calls[i].0 == l
  }

  /** A request that is not pending, because it was cancelled, say, is not called unless it is
      submitted again. */
  lemma {:induction false} CancelledNeverCalled<Item>(s: State<Item>, events: seq<Event<Item>>, l: Loadable)
    requires Accounted(s) && Busy(s) && AllowedRun(s, events)
    requires l !in s.pending && forall e <- events :: e.Load? ==> e.l != l
    ensures var t := Run(s, events);
            l !in t.pending && (CalledIn(l, t.calls) <==> CalledIn(l, s.calls))
    decreases |events|
  {
    hide Accounted, Busy;
    if events != [] {
      StepSound(s, events[0]);
      StepLeavesOut(s, events[0], l);
      CancelledNeverCalled(Step(s, events[0]), events[1..], l);
    }
  }

  /** From its cancellation on a request is not called, unless it is submitted again. */
  lemma CancelStops<Item>(s: State<Item>, events: seq<Event<Item>>, l: Loadable)
    requires Accounted(s) && Busy(s) && AllowedRun(s, events) && events != [] && events[0] == Cancel(l)
    requires forall e <- events :: e.Load? ==> e.l != l
    ensures var t := Run(s, events);
            l !in t.pending && (CalledIn(l, t.calls) <==> CalledIn(l, s.calls))
  {
    hide Accounted, Busy;
    StepSound(s, events[0]);
    CancelledNeverCalled(Step(s, events[0]), events[1..], l);
  }

  lemma CalledAfter<Item>(l: Loadable, calls: seq<(Loadable, Outcome<Item>)>, more: seq<(Loadable, Outcome<Item>)>)
    requires forall c <- more :: c.0 != l
    ensures CalledIn(l, calls + more) <==> CalledIn(l, calls)
  {
    if CalledIn(l, calls) {
      var i :| 0 <= i < |calls| && calls[i].0 == l;
      assert (calls + more)[i].0 == l;
    }
    if CalledIn(l, calls + more) {
      var i :| 0 <= i < |calls + more| && (calls + more)[i].0 == l;
      assert i >= |calls| ==> (calls + more)[i] in more;
    }
  }

  lemma StepLeavesOut<Item>(s: State<Item>, e: Event<Item>, l: Loadable)
    requires Accounted(s) && Busy(s) && Allowed(s, e) && l !in s.pending && (e.Load? ==> e.l != l)
    ensures var t := Step(s, e); l !in t.pending && (CalledIn(l, t.calls) <==> CalledIn(l, s.calls))
  {
    hide StartAll, Total;
    var t := Step(s, e);
    match e
    case Load(m, order) =>
      PendingAccounted(s, s.pending + {m});
      StartAllAccounted(s.(pending := s.pending + {m}), order);
      if m.key in s.cache {
        CalledAfter(l, s.calls, [(m, Success(s.cache[m.key]))]);
      }
    case Finish(key, outcome, who, order) =>
      FinishDelivers(s, key, outcome, who, order);
      TotalSplit(s.running, key);
      AnswerAllAnswers(Ended(s, key, outcome), who, outcome);
      StartAllAccounted(BeforeStart(s, e), order);
      assert t.calls == s.calls + t.calls[|s.calls|..];
      CalledAfter(l, s.calls, t.calls[|s.calls|..]);
    case Cancel(_) =>
    case Evict(_) =>
  }

  // ----- everything is answered in the end

  ghost function Unstarted<Item>(s: State<Item>): set<Loadable> {
    set l | l in s.pending && l.key !in s.running
  }

  /** How many loads can still have to end. */
  ghost function Work<Item>(s: State<Item>): nat {
    2 * |Unstarted(s)| + |s.running|
  }

  /** Starting a load moves a request out of the line. */
  lemma {:induction false} StartAllWork<Item>(s: State<Item>, order: seq<Loadable>)
    requires Accounted(s) && forall l <- order :: l in s.pending
    ensures Work(StartAll(s, order)) <= Work(s)
    decreases |order|
  {
    if order != [] {
      if order[0].key in s.running {
        StartAllWork(s, order[1..]);
      } else if s.remaining - order[0].points.Value() >= 0.0 {
        var next := KickOff(s, order[0]);
        KickOffAccounted(s, order[0]);
        assert Unstarted(next) + {order[0]} <= Unstarted(s) && order[0] !in Unstarted(next);
        SubsetSize(Unstarted(next) + {order[0]}, Unstarted(s));
        assert |next.running| == |s.running| + 1;
        StartAllWork(next, order[1..]);
      }
    }
  }

  lemma {:induction false} SubsetSize(a: set<Loadable>, b: set<Loadable>)
    requires a <= b
    ensures |a| <= |b|
    decreases |a|
  {
    if a != {} {
      var x :| x in a;
      SubsetSize(a - {x}, b - {x});
    }
  }

  /** Every load that ends leaves less to do. */
  lemma FinishWork<Item>(s: State<Item>, key: string, outcome: Outcome<Item>, who: seq<Loadable>, order: seq<Loadable>)
    requires Accounted(s) && Allowed(s, Finish(key, outcome, who, order))
    ensures Work(Step(s, Finish(key, outcome, who, order))) < Work(s)
  {
    hide StartAll;
    var ended := Ended(s, key, outcome);
    TotalSplit(s.running, key);
    AnswerAllAnswers(ended, who, outcome);
    var answered := AnswerAll(ended, who, outcome);
    assert Unstarted(answered) <= Unstarted(s);
    SubsetSize(Unstarted(answered), Unstarted(s));
    assert s.running == (s.running - {key})[key := s.running[key]];
    if answered.remaining > 0.0 {
      StartAllWork(answered, order);
    }
  }

  ghost function Finishes<Item>(events: seq<Event<Item>>): nat {
    if events == [] then 0 else (if events[0].Finish? then 1 else 0) + Finishes(events[1..])
  }

  ghost function Loads<Item>(events: seq<Event<Item>>): nat {
    if events == [] then 0 else (if events[0].Load? then 1 else 0) + Loads(events[1..])
  }

  /** What is known of a request stays known: once it is pending or has been called, it is one or the
      other until it is cancelled. */
  ghost predicate Known<Item>(s: State<Item>, l: Loadable) {
    l in s.pending || l in s.called
  }

  /** In every run no more loads end than there was work, two for each request that came in; and when
      nothing is in flight everybody who was pending and was not cancelled has been called. */
  lemma {:induction false} AllAnswered<Item>(s: State<Item>, events: seq<Event<Item>>)
    requires Accounted(s) && Busy(s) && AllowedRun(s, events)
    ensures Finishes(events) + Work(Run(s, events)) <= Work(s) + 2 * Loads(events)
    ensures s.called <= Run(s, events).called
    ensures forall l :: Known(s, l) && Cancel(l) !in events ==> Known(Run(s, events), l)
    ensures Run(s, events).running == map[] ==>
      Run(s, events).pending == {} && forall l <- s.pending :: Cancel(l) !in events ==> l in Run(s, events).called
    decreases |events|
  {
    hide Accounted, Allowed, Step, Work;
    if events != [] {
      StepSound(s, events[0]);
      StepWork(s, events[0]);
      StepKnows(s, events[0]);
      AllAnswered(Step(s, events[0]), events[1..]);
      forall l | Known(s, l) && Cancel(l) !in events
        ensures Known(Run(s, events), l)
      {
        assert Known(Step(s, events[0]), l) && Cancel(l) !in events[1..];
      }
    }
  }

  /** And so has everybody who came in on the way and was not cancelled after that. */
  lemma {:induction false} AllServed<Item>(s: State<Item>, events: seq<Event<Item>>, i: nat)
    requires Accounted(s) && Busy(s) && AllowedRun(s, events)
    requires i < |events| && events[i].Load? && Cancel(events[i].l) !in events[i + 1..]
    ensures var t := Run(s, events); Known(t, events[i].l) && (t.running == map[] ==> events[i].l in t.called)
    decreases |events|
  {
    hide Accounted, Allowed, Step, Work;
    var next, rest := Step(s, events[0]), events[1..];
    StepSound(s, events[0]);
    if i == 0 {
      LoadKnown(s, events[0].l, events[0].order);
      AllAnswered(next, rest);
    } else {
      assert rest[i - 1] == events[i] && rest[i..] == events[i + 1..];
      AllServed(next, rest, i - 1);
    }
  }

  lemma LoadKnown<Item>(s: State<Item>, l: Loadable, order: seq<Loadable>)
    requires Accounted(s) && Allowed(s, Load(l, order))
    ensures Known(Step(s, Load(l, order)), l)
  {
    hide StartAll, Total, Allowed, GoesFirst, Affords;
    if l !in s.pending {
      LoadTakesIn(s, l, order);
    }
  }

  lemma StepKnows<Item>(s: State<Item>, e: Event<Item>)
    requires Accounted(s) && Busy(s) && Allowed(s, e)
    ensures var t := Step(s, e);
            s.called <= t.called && forall l :: Known(s, l) && e != Cancel(l) ==> Known(t, l)
  {
    hide Accounted, StartAll, Total, Allowed, GoesFirst, Affords;
    match e
    case Load(l, order) =>
      if l !in s.pending {
        LoadTakesIn(s, l, order);
      }
    case Finish(key, outcome, who, order) =>
      FinishDelivers(s, key, outcome, who, order);
      FinishKeeps(s, key, outcome, who, order);
    case Cancel(_) =>
    case Evict(_) =>
  }

  lemma StepWork<Item>(s: State<Item>, e: Event<Item>)
    requires Accounted(s) && Busy(s) && Allowed(s, e)
    ensures Work(Step(s, e)) + (if e.Finish? then 1 else 0) <= Work(s) + if e.Load? then 2 else 0
  {
    hide Accounted, StartAll;
    match e
    case Load(l, order) => LoadWork(s, l, order);
    case Finish(key, outcome, who, order) => FinishWork(s, key, outcome, who, order);
    case Cancel(l) => SubsetSize(Unstarted(Step(s, e)), Unstarted(s));
    case Evict(_) => assert Unstarted(Step(s, e)) == Unstarted(s);
  }

  lemma LoadWork<Item>(s: State<Item>, l: Loadable, order: seq<Loadable>)
    requires Accounted(s) && Allowed(s, Load(l, order))
    ensures Work(Step(s, Load(l, order))) <= Work(s) + 2
  {
    hide StartAll, Total;
    var waiting := s.(pending := s.pending + {l});
    PendingAccounted(s, waiting.pending);
    SubsetSize(Unstarted(waiting), Unstarted(s) + {l});
    if !l.alreadyInflight && waiting.remaining > 0.0 && l !in s.pending && l.key !in s.cache {
      StartAllWork(waiting, order);
    }
    if l.key !in s.running {
      assert Unstarted(KickOff(waiting, l)) <= Unstarted(s);
      SubsetSize(Unstarted(KickOff(waiting, l)), Unstarted(s));
    }
    if l.key in s.cache {
      assert Unstarted(Call(s, l, Success(s.cache[l.key]))) == Unstarted(s);
    }
  }

  lemma FinishKeeps<Item>(s: State<Item>, key: string, outcome: Outcome<Item>, who: seq<Loadable>,
                          order: seq<Loadable>)
    requires Accounted(s) && Allowed(s, Finish(key, outcome, who, order))
    ensures s.called <= Step(s, Finish(key, outcome, who, order)).called
  {
    TotalSplit(s.running, key);
    AnswerAllAnswers(Ended(s, key, outcome), who, outcome);
    StartAllAccounted(AnswerAll(Ended(s, key, outcome), who, outcome), order);
  }

  // ----- the request manager

  ghost function Heard<Item>(s: State<Item>, l: Loadable, calledYet: bool): State<Item> {
    if calledYet then s.(called := s.called + {l}) else s
  }

  /** A load in flight. */
  datatype Task = Task(key: string, points: Points)

  class RequestManager<Item(==)> {
    var pending: set<Loadable>
    var remainingPoints: real
    var inflight: map<string, Task>
    var cache: map<string, Item>
    ghost var running: map<string, Loadable>
    ghost var called: set<Loadable>
    ghost var calls: seq<(Loadable, Outcome<Item>)>

    ghost function Now(): State<Item>
      reads this
    {
      State(pending, running, remainingPoints, cache, called, calls)
    }

    ghost predicate Valid()
      reads this, called, pending
    {
      && Accounted(Now()) && Busy(Now()) && Consistent()
    }

    ghost predicate Consistent()
      reads this, called, pending
    {
      && inflight.Keys == running.Keys
      && (forall k <- running :: inflight[k] == Task(k, running[k].points))
      && (forall l <- called :: l.calledYet)
      && (forall l <- pending :: l.calledYet ==> l in called)
    }

    constructor ()
      ensures Valid() && Now() == State({}, map[], 1.0, map[], {}, [])
    {
      pending, remainingPoints, inflight, cache := {}, 1.0, map[], map[];
      running, called, calls := map[], {}, [];
    }

    /** _kickOff, up to the call of the load itself. */
    method Launch(l: Loadable)
      requires Consistent() && l.key !in running
      modifies this`inflight, this`remainingPoints, this`running
      ensures Consistent() && Now() == KickOff(old(Now()), l)
    {
      inflight := inflight[l.key := Task(l.key, l.points)];
      remainingPoints := remainingPoints - l.points.Value();
      running := running[l.key := l];
    }

    /** The waiting requests by falling priority.  The source's comparison is `>=`, so equals may
        come out in any order. */
    method SortWaiting() returns (order: seq<Loadable>)
      requires Consistent()
      ensures Arranged(order, Now())
    {
      var left := set l | l in pending && l.key !in inflight;
      order := [];
      while left != {}
        invariant forall l <- order :: Waiting(Now(), l)
        invariant left <= pending
        invariant forall l <- pending :: (l.key !in running <==> l in order || l in left)
        invariant forall i, j :: 0 <= i < j < |order| ==> order[i].priority >= order[j].priority
        invariant forall l <- order, m <- left :: l.priority >= m.priority
        decreases left
      {
        var l := Highest(left);
        order, left := order + [l], left - {l};
      }
    }

    method Highest(s: set<Loadable>) returns (top: Loadable)
      requires s != {}
      ensures top in s && forall l <- s :: top.priority >= l.priority
    {
      top :| top in s;
      var left := s - {top};
      while left != {}
        invariant left <= s && top in s
        invariant forall l <- s :: l in left || top.priority >= l.priority
        decreases left
      {
        var l :| l in left;
        if l.priority > top.priority {
          top := l;
        }
        left := left - {l};
      }
    }

    /** _startPendingLoadablesIfAppropriate. */
    method StartPending() returns (order: seq<Loadable>)
      requires Consistent()
      modifies this`inflight, this`remainingPoints, this`running
      ensures Consistent() && OrderOk(order, old(Now())) && Now() == Start(old(Now()), order)
    {
      order := [];
      if remainingPoints <= 0.0 {
        return;
      }
      order := SortWaiting();
      var i := 0;
      while i < |order|
        invariant 0 <= i <= |order| && Consistent() && pending == old(pending) && cache == old(cache)
        invariant called == old(called) && calls == old(calls)
        invariant StartAll(Now(), order[i..]) == StartAll(old(Now()), order)
      {
        var l := order[i];
        if l.key !in inflight {
          if remainingPoints - l.points.Value() < 0.0 {
            return;
          }
          Launch(l);
        }
        i := i + 1;
      }
    }

    /** Loadable._callCompletionIfNeeded. */
    method CallIfNeeded(l: Loadable, outcome: Outcome<Item>)
      requires Consistent() && (l.calledYet ==> l in called)
      modifies this`called, this`calls, l`calledYet
      ensures Consistent() && Now() == Call(old(Now()), l, outcome) && l.calledYet
    {
      if l.calledYet {
        return;
      }
      l.calledYet := true;
      called, calls := called + {l}, calls + [(l, outcome)];
    }

    /** load.  A request that was called elsewhere already counts as called. */
    method Load(l: Loadable) returns (order: seq<Loadable>)
      requires Valid()
      modifies this, l`calledYet
      ensures Valid()
      ensures var s, e := Heard(old(Now()), l, old(l.calledYet)), Event.Load(l, order);
              Allowed(s, e) && Now() == Step(s, e)
    {
      hide StartAll, Total, Arranged;
      order := [];
      if l.calledYet {
        called := called + {l};
      }
      ghost var s := Now();
      if l in pending {
        return;
      }
      if l.key in cache {
        CallIfNeeded(l, Success(cache[l.key]));
      } else {
        pending := pending + {l};
        if !l.alreadyInflight {
          order := StartPending();
        } else if l.key !in inflight {
          Launch(l);
        }
      }
      StepSound(s, Event.Load(l, order));
    }

    /** cancel. */
    method Cancel(l: Loadable)
      requires Valid()
      modifies this`pending
      ensures Valid() && Now() == Step(old(Now()), Event.Cancel(l))
    {
      pending := pending - {l};
    }

    /** The cache may drop an item at any time. */
    method Evict(key: string)
      requires Valid()
      modifies this`cache
      ensures Valid() && Now() == Step(old(Now()), Event.Evict(key))
    {
      cache := cache - {key};
    }

    /** The completion that _kickOff gives to a load: `l` started the load of `key`. */
    method Finish(key: string, l: Loadable, outcome: Outcome<Item>) returns (who: seq<Loadable>, order: seq<Loadable>)
      requires Valid() && key in running && running[key] == l
      modifies this, pending
      ensures Valid()
      ensures var e := Event.Finish(key, outcome, who, order); Allowed(old(Now()), e) && Now() == Step(old(Now()), e)
    {
      hide StartAll, Total, AnswerAll, Arranged;
      ghost var s := Now();
      TakeOut(key, l, outcome);
      who := AnswerSharing(key, outcome);
      order := StartPending();
      StepSound(s, Event.Finish(key, outcome, who, order));
    }

    /** The part of that completion that takes the task out of the tables. */
    method TakeOut(key: string, l: Loadable, outcome: Outcome<Item>)
      requires Consistent() && key in running && running[key] == l
      modifies this`cache, this`inflight, this`running, this`remainingPoints
      ensures Consistent() && Now() == Ended(old(Now()), key, outcome)
    {
      if outcome.Success? {
        cache := cache[key := outcome.item];
      }
      inflight := inflight - {key};
      running := running - {key};
      remainingPoints := remainingPoints + l.points.Value();
    }

    /** The loop over the pending set in that completion. */
    method AnswerSharing(key: string, outcome: Outcome<Item>) returns (who: seq<Loadable>)
      requires Consistent()
      modifies this`pending, this`called, this`calls, pending
      ensures Consistent() && Sharing(who, old(Now()), key) && Now() == AnswerAll(old(Now()), who, outcome)
    {
      var left := pending;
      who := [];
      while left != {}
        invariant left <= old(pending) && Consistent()
        invariant forall l <- left :: l in pending
        invariant forall l <- who :: l in old(pending) && l.key == key
        invariant forall l <- old(pending) :: l.key == key ==> l in who || l in left
        invariant Now() == AnswerAll(old(Now()), who, outcome)
        invariant forall l <- pending :: l in old(pending)
        decreases left
      {
        var l :| l in left;
        left := left - {l};
        if l.key == key {
          AnswerAllMore(old(Now()), who, l, outcome);
          pending := pending - {l};
          CallIfNeeded(l, outcome);
          who := who + [l];
        }
      }
    }
  }

  lemma {:induction false} AnswerAllMore<Item>(s: State<Item>, who: seq<Loadable>, l: Loadable, outcome: Outcome<Item>)
    ensures var t := AnswerAll(s, who, outcome);
            AnswerAll(s, who + [l], outcome) == Call(t.(pending := t.pending - {l}), l, outcome)
    decreases |who|
  {
    if who == [] {
      assert who + [l] == [l] && [l][1..] == [];
    } else {
      assert (who + [l])[1..] == who[1..] + [l];
      AnswerAllMore(Call(s.(pending := s.pending - {who[0]}), who[0], outcome), who[1..], l, outcome);
    }
  }
}
