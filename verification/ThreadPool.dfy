/**
 * spdlog's worker pool (thread_pool-inl.h) over its blocking queue (mpmc_blocking_q.h),
 * under the block policy that the server's logger uses. Threads are modelled down to the
 * condition variables: what runs under the mutex is one step, notify_one is another, and
 * a thread that waits is asleep until it is notified or wakes spuriously.
 */
module ThreadPool {
  import opened Bytes

  datatype Msg = Log(text: string) | Flush | Terminate

  datatype Worker =
    | Checking            // about to lock the queue and test for an item
    | Sleeping            // waiting on push_cv
    | Popped(msg: Msg)    // took an item, has not yet notified pop_cv
    | Running(msg: Msg)   // acting on the item
    | Done                // returned from worker_loop_

  datatype Poster =
    | Idle
    | Wanting(msg: Msg)   // about to lock the queue and test for room
    | Blocked(msg: Msg)   // waiting on pop_cv
    | Pushed              // stored its item, has not yet notified push_cv

  datatype Phase = Serving | Stopping(requested: nat)

  datatype Pool = Pool(
    capacity: nat,
    queue: seq<Msg>,
    workers: seq<Worker>,
    posters: seq<Poster>,   // poster 0 is the thread that runs the destructor
    phase: Phase,
    posted: seq<Msg>,       // history: pushed, in order
    taken: seq<Msg>,        // history: dequeued, in order
    processed: seq<Msg>,    // history: acted on, in order of completion
    before: seq<Msg>)       // history: what had been pushed when the destructor began

  datatype Event =
    | Post(p: nat, msg: Msg)
    | TryPush(p: nat)
    | NotifyPush(p: nat, w: nat)
    | TryPop(w: nat)
    | NotifyPop(w: nat, p: nat)
    | Finish(w: nat)
    | WakeWorker(w: nat)    // spurious
    | WakePoster(p: nat)    // spurious
    | BeginStop
    | PostTerminate

  /** The constructor admits 1 to 1000 threads. */
  function Start(capacity: nat, threads: nat, posters: nat): Pool
    requires 1 <= threads <= 1000 && posters >= 1
  {
    Pool(capacity, [], seq(threads, _ => Checking), seq(posters, _ => Idle), Serving, [], [], [], [])
  }

  predicate Enabled(s: Pool, e: Event) {
    match e
    case Post(p, m) => s.phase.Serving? && p < |s.posters| && s.posters[p].Idle? && m != Terminate
    case TryPush(p) => p < |s.posters| && s.posters[p].Wanting?
    case NotifyPush(p, w) =>
      && p < |s.posters| && s.posters[p].Pushed? && w < |s.workers|
      && (s.workers[w].Sleeping? || Sleeping !in s.workers)
    case TryPop(w) => w < |s.workers| && s.workers[w].Checking?
    case NotifyPop(w, p) =>
      && w < |s.workers| && s.workers[w].Popped? && p < |s.posters|
      && (s.posters[p].Blocked? || forall i :: 0 <= i < |s.posters| ==> !s.posters[i].Blocked?)
    case Finish(w) => w < |s.workers| && s.workers[w].Running?
    case WakeWorker(w) => w < |s.workers| && s.workers[w].Sleeping?
    case WakePoster(p) => p < |s.posters| && s.posters[p].Blocked?
    case BeginStop => s.phase.Serving? && forall i :: 0 <= i < |s.posters| ==> s.posters[i].Idle?
    case PostTerminate =>
      && s.phase.Stopping? && s.phase.requested < |s.workers|
      && |s.posters| > 0 && s.posters[0].Idle?
  }

  function Apply(s: Pool, e: Event): Pool
    requires Enabled(s, e)
  {
    match e
    case Post(p, m) => s.(posters := s.posters[p := Wanting(m)])
    case TryPush(p) =>
      var m := s.posters[p].msg;
      if |s.queue| < s.capacity then
        s.(queue := s.queue + [m], posted := s.posted + [m], posters := s.posters[p := Pushed])
      else
        s.(posters := s.posters[p := Blocked(m)])
    case NotifyPush(p, w) =>
      var t := s.(posters := s.posters[p := Idle]);
      if s.workers[w].Sleeping? then t.(workers := s.workers[w := Checking]) else t
    case TryPop(w) =>
      if s.queue != [] then
        s.(queue := s.queue[1..], taken := s.taken + [s.queue[0]], workers := s.workers[w := Popped(s.queue[0])])
      else
        s.(workers := s.workers[w := Sleeping])
    case NotifyPop(w, p) =>
      var t := s.(workers := s.workers[w := Running(s.workers[w].msg)]);
      if s.posters[p].Blocked? then t.(posters := s.posters[p := Wanting(s.posters[p].msg)]) else t
    case Finish(w) =>
      var m := s.workers[w].msg;
      if m == Terminate then
        s.(workers := s.workers[w := Done])
      else
        s.(workers := s.workers[w := Checking], processed := s.processed + [m])
    case WakeWorker(w) => s.(workers := s.workers[w := Checking])
    case WakePoster(p) => s.(posters := s.posters[p := Wanting(s.posters[p].msg)])
    case BeginStop => s.(phase := Stopping(0), before := s.posted)
    case PostTerminate =>
      s.(phase := Stopping(s.phase.requested + 1), posters := s.posters[0 := Wanting(Terminate)])
  }

  // ----- counting -----

  function Sum<T>(items: seq<T>, f: T -> int): int {
    if items == [] then 0 else f(items[0]) + Sum(items[1..], f)
  }

  lemma {:induction false} SumUpdate<T>(items: seq<T>, f: T -> int, i: nat, x: T)
    requires i < |items|
    ensures Sum(items[i := x], f) == Sum(items, f) - f(items[i]) + f(x)
  {
    if i == 0 {
      assert items[0 := x][1..] == items[1..];
    } else {
      SumUpdate(items[1..], f, i - 1, x);
      assert items[i := x][1..] == items[1..][i - 1 := x];
    }
  }

  lemma {:induction false} SumSnoc<T>(items: seq<T>, f: T -> int, x: T)
    ensures Sum(items + [x], f) == Sum(items, f) + f(x)
  {
    if items != [] {
      SumSnoc(items[1..], f, x);
      assert (items + [x])[1..] == items[1..] + [x];
    } else {
      assert ([] + [x])[1..] == [];
    }
  }

  lemma {:induction false} SumBound<T>(items: seq<T>, f: T -> int, i: nat)
    requires forall x :: f(x) >= 0
    requires i < |items|
    ensures Sum(items, f) >= f(items[i])
  {
    SumNonNegative(items[1..], f);
    if i > 0 { SumBound(items[1..], f, i - 1); }
  }

  lemma {:induction false} SumNonNegative<T>(items: seq<T>, f: T -> int)
    requires forall x :: f(x) >= 0
    ensures Sum(items, f) >= 0
  {
    if items != [] { SumNonNegative(items[1..], f); }
  }

  lemma {:induction false} SumAll<T>(items: seq<T>, f: T -> int, value: int)
    requires forall i :: 0 <= i < |items| ==> f(items[i]) == value
    ensures Sum(items, f) == value * |items|
  {
    if items != [] { SumAll(items[1..], f, value); }
  }

  const isTerminate: Msg -> int := (m: Msg) => if m == Terminate then 1 else 0
  const isStopped: Worker -> int :=
    (w: Worker) => if w.Done? || ((w.Popped? || w.Running?) && w.msg == Terminate) then 1 else 0
  /** Will ask for another item. */
  const isLive: Worker -> int :=
    (w: Worker) => if w.Checking? || w.Sleeping? || (!w.Done? && w.msg != Terminate) then 1 else 0
  const isChecking: Worker -> int := (w: Worker) => if w.Checking? then 1 else 0
  const isPopped: Worker -> int := (w: Worker) => if w.Popped? then 1 else 0
  const isPushed: Poster -> int := (p: Poster) => if p.Pushed? then 1 else 0
  const isWanting: Poster -> int := (p: Poster) => if p.Wanting? then 1 else 0

  /** Occurrences of one message. */
  function Is(m: Msg): Msg -> int {
    (x: Msg) => if x == m then 1 else 0
  }

  /** Workers that have taken m and not finished with it. */
  function Holds(m: Msg): Worker -> int {
    (w: Worker) => if (w.Popped? || w.Running?) && w.msg == m then 1 else 0
  }

  lemma {:induction false} CountIsMultiplicity(msgs: seq<Msg>, m: Msg)
    ensures multiset(msgs)[m] == Sum(msgs, Is(m))
  {
    if msgs != [] {
      CountIsMultiplicity(msgs[1..], m);
      assert msgs == [msgs[0]] + msgs[1..];
    }
  }

  // ----- the invariant, one concern at a time -----

  /** Nothing is lost, duplicated or reordered between posting and dequeuing. */
  ghost predicate Fifo(s: Pool) {
    s.posted == s.taken + s.queue && |s.queue| <= s.capacity
  }

  /** The workers that stopped, or are about to, are as many as the terminates dequeued. */
  ghost predicate StopCount(s: Pool) {
    Sum(s.workers, isStopped) == Sum(s.taken, isTerminate)
  }

  ghost predicate PosterCarriesTerminate(s: Pool) {
    |s.posters| > 0 && (s.posters[0].Wanting? || s.posters[0].Blocked?)
  }

  /** Before the destructor only work is posted, after it only its terminates are. */
  ghost predicate Phases(s: Pool) {
    && |s.workers| > 0 && |s.posters| > 0
    && match s.phase
       case Serving =>
         && Terminate !in s.posted
         && (forall p :: 0 <= p < |s.posters| && (s.posters[p].Wanting? || s.posters[p].Blocked?) ==>
               s.posters[p].msg != Terminate)
       case Stopping(k) =>
         && Terminate !in s.before
         && (forall p :: 0 < p < |s.posters| ==> s.posters[p].Idle?)
         && (PosterCarriesTerminate(s) ==> s.posters[0].msg == Terminate && k > 0)
         && k <= |s.workers|
         && s.posted == s.before + seq(k - (if PosterCarriesTerminate(s) then 1 else 0), _ => Terminate)
  }

  /** No lost wake-up on push_cv: while some worker sleeps, every item has a thread on its way. */
  ghost predicate ItemsAttended(s: Pool) {
    Sleeping in s.workers ==> |s.queue| <= Sum(s.posters, isPushed) + Sum(s.workers, isChecking)
  }

  ghost predicate SomeBlocked(s: Pool) {
    exists p :: 0 <= p < |s.posters| && s.posters[p].Blocked?
  }

  /** No lost wake-up on pop_cv: while some poster sleeps, every free place has a thread on its way. */
  ghost predicate RoomAttended(s: Pool) {
    SomeBlocked(s) ==> s.capacity - |s.queue| <= Sum(s.workers, isPopped) + Sum(s.posters, isWanting)
  }

  /** Every message dequeued is either finished or still with its worker. */
  ghost predicate Accounted(s: Pool) {
    && Terminate !in s.processed
    && forall m :: m != Terminate ==>
         Sum(s.taken, Is(m)) == Sum(s.processed, Is(m)) + Sum(s.workers, Holds(m))
  }

  ghost predicate Inv(s: Pool) {
    Fifo(s) && StopCount(s) && Phases(s) && ItemsAttended(s) && RoomAttended(s) && Accounted(s)
  }

  lemma StartInv(capacity: nat, threads: nat, posters: nat)
    requires 1 <= threads <= 1000 && posters >= 1
    ensures Inv(Start(capacity, threads, posters))
  {
    var s := Start(capacity, threads, posters);
    SumAll(s.workers, isStopped, 0);
    forall m ensures Sum(s.workers, Holds(m)) == 0 {
      SumAll(s.workers, Holds(m), 0);
    }
  }

  lemma StepFifo(s: Pool, e: Event)
    requires Enabled(s, e) && Fifo(s)
    ensures Fifo(Apply(s, e))
  {
    var t := Apply(s, e);
    if e.TryPush? && |s.queue| < s.capacity {
      assert t.posted == s.taken + s.queue + [s.posters[e.p].msg];
    } else if e.TryPop? && s.queue != [] {
      assert s.queue == [s.queue[0]] + s.queue[1..];
    }
  }

  lemma StepStopCount(s: Pool, e: Event)
    requires Enabled(s, e) && StopCount(s)
    ensures StopCount(Apply(s, e))
  {
    var t := Apply(s, e);
    if e.NotifyPush? || e.TryPop? || e.NotifyPop? || e.Finish? || e.WakeWorker? {
      SumUpdate(s.workers, isStopped, e.w, t.workers[e.w]);
      assert t.workers == s.workers[e.w := t.workers[e.w]];
    }
    if e.TryPop? && s.queue != [] {
      SumSnoc(s.taken, isTerminate, s.queue[0]);
    }
  }

  lemma StepPhases(s: Pool, e: Event)
    requires Enabled(s, e) && Phases(s)
    ensures Phases(Apply(s, e))
  {
    var t := Apply(s, e);
    if s.phase.Stopping? && e.TryPush? && |s.queue| < s.capacity {
      var k := s.phase.requested;
      assert seq(k, _ => Terminate) == seq(k - 1, _ => Terminate) + [Terminate];
    }
    if e.BeginStop? {
      assert t.before + seq(0, _ => Terminate) == t.before;
    }
  }

  lemma StepItemsAttended(s: Pool, e: Event)
    requires Enabled(s, e) && ItemsAttended(s)
    ensures ItemsAttended(Apply(s, e))
  {
    var t := Apply(s, e);
    SumNonNegative(s.workers, isChecking);
    SumNonNegative(t.workers, isChecking);
    SumNonNegative(t.posters, isPushed);
    if e.NotifyPush? || e.TryPop? || e.NotifyPop? || e.Finish? || e.WakeWorker? {
      SumUpdate(s.workers, isChecking, e.w, t.workers[e.w]);
      assert t.workers == s.workers[e.w := t.workers[e.w]];
      assert forall i :: 0 <= i < |s.workers| && i != e.w ==> t.workers[i] == s.workers[i];
    }
    if e.Post? || e.TryPush? || e.NotifyPush? || e.NotifyPop? || e.WakePoster? {
      SumUpdate(s.posters, isPushed, e.p, t.posters[e.p]);
      assert t.posters == s.posters[e.p := t.posters[e.p]];
    }
    if e.PostTerminate? {
      SumUpdate(s.posters, isPushed, 0, t.posters[0]);
    }
  }

  lemma StepRoomAttended(s: Pool, e: Event)
    requires Enabled(s, e) && RoomAttended(s) && Fifo(s)
    ensures RoomAttended(Apply(s, e))
  {
    var t := Apply(s, e);
    SumNonNegative(t.workers, isPopped);
    SumNonNegative(t.posters, isWanting);
    if e.NotifyPush? || e.TryPop? || e.NotifyPop? || e.Finish? || e.WakeWorker? {
      SumUpdate(s.workers, isPopped, e.w, t.workers[e.w]);
      assert t.workers == s.workers[e.w := t.workers[e.w]];
    }
    if e.Post? || e.TryPush? || e.NotifyPush? || e.NotifyPop? || e.WakePoster? {
      SumUpdate(s.posters, isWanting, e.p, t.posters[e.p]);
      assert t.posters == s.posters[e.p := t.posters[e.p]];
      assert forall i :: 0 <= i < |s.posters| && i != e.p ==> t.posters[i] == s.posters[i];
    }
    if e.PostTerminate? {
      SumUpdate(s.posters, isWanting, 0, t.posters[0]);
      assert forall i :: 0 < i < |s.posters| ==> t.posters[i] == s.posters[i];
    }
  }

  lemma StepCount(s: Pool, e: Event, m: Msg)
    requires Enabled(s, e) && m != Terminate
    requires Sum(s.taken, Is(m)) == Sum(s.processed, Is(m)) + Sum(s.workers, Holds(m))
    ensures var t := Apply(s, e);
            Sum(t.taken, Is(m)) == Sum(t.processed, Is(m)) + Sum(t.workers, Holds(m))
  {
    var t := Apply(s, e);
    if e.NotifyPush? || e.TryPop? || e.NotifyPop? || e.Finish? || e.WakeWorker? {
      SumUpdate(s.workers, Holds(m), e.w, t.workers[e.w]);
      assert t.workers == s.workers[e.w := t.workers[e.w]];
    }
    if e.TryPop? && s.queue != [] {
      SumSnoc(s.taken, Is(m), s.queue[0]);
    }
    if e.Finish? {
      SumSnoc(s.processed, Is(m), s.workers[e.w].msg);
    }
  }

  lemma StepAccounted(s: Pool, e: Event)
    requires Enabled(s, e) && Accounted(s)
    ensures Accounted(Apply(s, e))
  {
    forall m | m != Terminate
      ensures Sum(Apply(s, e).taken, Is(m)) == Sum(Apply(s, e).processed, Is(m)) + Sum(Apply(s, e).workers, Holds(m))
    {
      StepCount(s, e, m);
    }
  }

  lemma StepInv(s: Pool, e: Event)
    requires Enabled(s, e) && Inv(s)
    ensures Inv(Apply(s, e))
  {
    StepFifo(s, e);
    StepStopCount(s, e);
    StepPhases(s, e);
    StepItemsAttended(s, e);
    StepRoomAttended(s, e);
    StepAccounted(s, e);
  }

  // ----- runs -----

  ghost predicate IsRun(s: Pool, es: seq<Event>)
    decreases |es|
  {
    es == [] || (Enabled(s, es[0]) && IsRun(Apply(s, es[0]), es[1..]))
  }

  ghost function After(s: Pool, es: seq<Event>): Pool
    requires IsRun(s, es)
    decreases |es|
  {
    if es == [] then s else After(Apply(s, es[0]), es[1..])
  }

  lemma StepKeepsSize(s: Pool, e: Event)
    requires Enabled(s, e)
    ensures |Apply(s, e).workers| == |s.workers| && Apply(s, e).capacity == s.capacity
  {
  }

  lemma {:induction false} RunInv(s: Pool, es: seq<Event>)
    requires Inv(s) && IsRun(s, es)
    ensures Inv(After(s, es))
    ensures |After(s, es).workers| == |s.workers| && After(s, es).capacity == s.capacity
    decreases |es|
  {
    if es != [] {
      var e, rest := es[0], es[1..];
      StepInv(s, e);
      StepKeepsSize(s, e);
      var t := Apply(s, e);
      RunInv(t, rest);
      assert After(s, es) == After(t, rest);
    }
  }

  // ----- what the application asked for -----

  /** The messages that threads gave to post_log and post_flush, as the events of the run say. */
  function Requested(es: seq<Event>): seq<Msg> {
    if es == [] then [] else (if es[0].Post? then [es[0].msg] else []) + Requested(es[1..])
  }

  /** Posters that have been given m and not yet stored it. */
  function Carries(m: Msg): Poster -> int {
    (p: Poster) => if (p.Wanting? || p.Blocked?) && p.msg == m then 1 else 0
  }

  lemma StepRequested(s: Pool, e: Event, m: Msg)
    requires Enabled(s, e) && m != Terminate
    ensures var t := Apply(s, e);
            Sum(t.posted, Is(m)) + Sum(t.posters, Carries(m))
            == Sum(s.posted, Is(m)) + Sum(s.posters, Carries(m)) + if e.Post? && e.msg == m then 1 else 0
  {
    var t := Apply(s, e);
    if e.Post? || e.TryPush? || e.NotifyPush? || e.WakePoster? || (e.NotifyPop? && s.posters[e.p].Blocked?) {
      SumUpdate(s.posters, Carries(m), e.p, t.posters[e.p]);
      assert t.posters == s.posters[e.p := t.posters[e.p]];
    } else if e.PostTerminate? {
      SumUpdate(s.posters, Carries(m), 0, t.posters[0]);
    }
    if e.TryPush? {
      SumSnoc(s.posted, Is(m), s.posters[e.p].msg);
    }
  }

  lemma {:induction false} RunRequested(s: Pool, es: seq<Event>, m: Msg)
    requires IsRun(s, es) && m != Terminate
    ensures var t := After(s, es);
            Sum(t.posted, Is(m)) + Sum(t.posters, Carries(m))
            == Sum(s.posted, Is(m)) + Sum(s.posters, Carries(m)) + Sum(Requested(es), Is(m))
    decreases |es|
  {
    if es != [] {
      var e, rest := es[0], es[1..];
      StepRequested(s, e, m);
      RunRequested(Apply(s, e), rest, m);
      assert After(s, es) == After(Apply(s, e), rest);
      SumConcat(if e.Post? then [e.msg] else [], Requested(rest), Is(m));
      if e.Post? {
        SumSnoc([], Is(m), e.msg);
        assert [] + [e.msg] == [e.msg];
      }
    }
  }

  // ----- the order in which each thread's messages are stored -----

  datatype Store = Store(poster: nat, msg: Msg)

  /** What one event stores in the queue, and who does it. */
  function StoreOf(s: Pool, e: Event): seq<Store>
    requires Enabled(s, e)
  {
    if e.TryPush? && |s.queue| < s.capacity then [Store(e.p, s.posters[e.p].msg)] else []
  }

  ghost function Stores(s: Pool, es: seq<Event>): seq<Store>
    requires IsRun(s, es)
    decreases |es|
  {
    if es == [] then [] else StoreOf(s, es[0]) + Stores(Apply(s, es[0]), es[1..])
  }

  function Messages(stores: seq<Store>): seq<Msg> {
    if stores == [] then [] else [stores[0].msg] + Messages(stores[1..])
  }

  function By(stores: seq<Store>, p: nat): seq<Msg> {
    if stores == [] then [] else (if stores[0].poster == p then [stores[0].msg] else []) + By(stores[1..], p)
  }

  /** What thread p asked for, in its own order; the destructor asks for its terminates. */
  function RequestOf(e: Event, p: nat): seq<Msg> {
    if e.Post? && e.p == p then [e.msg] else if e.PostTerminate? && p == 0 then [Terminate] else []
  }

  function RequestedBy(es: seq<Event>, p: nat): seq<Msg> {
    if es == [] then [] else RequestOf(es[0], p) + RequestedBy(es[1..], p)
  }

  function Carried(p: Poster): seq<Msg> {
    if p.Wanting? || p.Blocked? then [p.msg] else []
  }

  lemma StoredAreMessages(a: seq<Store>, b: seq<Store>, p: nat)
    requires |a| <= 1
    ensures Messages(a + b) == Messages(a) + Messages(b) && By(a + b, p) == By(a, p) + By(b, p)
  {
    if a == [] {
      assert a + b == b;
    } else {
      assert (a + b)[1..] == b;
    }
  }

  lemma StepKeepsOrder(s: Pool, e: Event, p: nat)
    requires Enabled(s, e) && p < |s.posters|
    ensures |Apply(s, e).posters| == |s.posters|
    ensures Apply(s, e).posted == s.posted + Messages(StoreOf(s, e))
    ensures Carried(s.posters[p]) + RequestOf(e, p) == By(StoreOf(s, e), p) + Carried(Apply(s, e).posters[p])
  {
  }

  /**
   * In every run the queue takes each thread's messages in the order in which that thread
   * asked for them; what it has not taken is at most the one message the thread still carries.
   */
  lemma {:induction false} PosterOrderKept(s: Pool, es: seq<Event>, p: nat)
    requires IsRun(s, es) && p < |s.posters|
    ensures |After(s, es).posters| == |s.posters|
    ensures After(s, es).posted == s.posted + Messages(Stores(s, es))
    ensures Carried(s.posters[p]) + RequestedBy(es, p) == By(Stores(s, es), p) + Carried(After(s, es).posters[p])
    decreases |es|
  {
    if es != [] {
      var e, rest := es[0], es[1..];
      var t := Apply(s, e);
      var a, b := StoreOf(s, e), Stores(t, rest);
      StepKeepsOrder(s, e, p);
      PosterOrderKept(t, rest, p);
      assert After(s, es) == After(t, rest);
      StoredAreMessages(a, b, p);
      Regroup(s.posted, Messages(a), Messages(b));
      calc {
        Carried(s.posters[p]) + RequestedBy(es, p);
        { Regroup(Carried(s.posters[p]), RequestOf(e, p), RequestedBy(rest, p)); }
        By(a, p) + Carried(t.posters[p]) + RequestedBy(rest, p);
        { Regroup(By(a, p), Carried(t.posters[p]), RequestedBy(rest, p)); }
        By(a, p) + (By(b, p) + Carried(After(s, es).posters[p]));
        { Regroup(By(a, p), By(b, p), Carried(After(s, es).posters[p])); }
        By(a, p) + By(b, p) + Carried(After(s, es).posters[p]);
      }
    }
  }

  /** In every run: dequeued in posting order with none lost, and the live workers counted. */
  lemma EveryRunIsFifo(capacity: nat, threads: nat, posters: nat, es: seq<Event>)
    requires 1 <= threads <= 1000 && posters >= 1
    requires IsRun(Start(capacity, threads, posters), es)
    ensures var s := After(Start(capacity, threads, posters), es);
            && s.posted == s.taken + s.queue
            && |s.queue| <= capacity
            && Sum(s.workers, isLive) == threads - Sum(s.taken, isTerminate)
            && forall m :: m != Terminate ==>
                 && Sum(Requested(es), Is(m)) == Sum(s.posted, Is(m)) + Sum(s.posters, Carries(m))
                 && Sum(s.taken, Is(m)) == Sum(s.processed, Is(m)) + Sum(s.workers, Holds(m))
  {
    var s0 := Start(capacity, threads, posters);
    StartInv(capacity, threads, posters);
    RunInv(s0, es);
    LiveOrStopped(After(s0, es).workers);
    forall m | m != Terminate
      ensures Sum(Requested(es), Is(m)) == Sum(After(s0, es).posted, Is(m)) + Sum(After(s0, es).posters, Carries(m))
    {
      RunRequested(s0, es, m);
      SumAll(s0.posters, Carries(m), 0);
    }
  }

  lemma {:induction false} LiveOrStopped(workers: seq<Worker>)
    ensures Sum(workers, isLive) + Sum(workers, isStopped) == |workers|
  {
    if workers != [] { LiveOrStopped(workers[1..]); }
  }

  // ----- shutdown -----

  predicate Spurious(e: Event) {
    e.WakeWorker? || e.WakePoster?
  }

  predicate Joined(s: Pool) {
    s.phase.Stopping? && forall w :: 0 <= w < |s.workers| ==> s.workers[w].Done?
  }

  lemma {:induction false} TerminateCount(k: nat)
    ensures Sum(seq(k, _ => Terminate), isTerminate) == k
  {
    SumAll(seq(k, _ => Terminate), isTerminate, 1);
  }

  lemma {:induction false} SumConcat<T>(a: seq<T>, b: seq<T>, f: T -> int)
    ensures Sum(a + b, f) == Sum(a, f) + Sum(b, f)
  {
    if a == [] {
      assert a + b == b;
    } else {
      SumConcat(a[1..], b, f);
      assert (a + b)[1..] == a[1..] + b;
    }
  }

  /** How many terminates have reached the queue. */
  lemma TerminatesPosted(s: Pool)
    requires Phases(s) && Fifo(s) && s.phase.Stopping?
    ensures Sum(s.taken, isTerminate) + Sum(s.queue, isTerminate)
            == s.phase.requested - (if PosterCarriesTerminate(s) then 1 else 0)
  {
    var k := s.phase.requested - (if PosterCarriesTerminate(s) then 1 else 0);
    SumConcat(s.taken, s.queue, isTerminate);
    SumConcat(s.before, seq(k, _ => Terminate), isTerminate);
    SumAll(s.before, isTerminate, 0);
    TerminateCount(k);
  }

  /** A state with fewer stopped workers than threads has one that is neither done nor stopping. */
  lemma {:induction false} SomeLive(workers: seq<Worker>) returns (w: nat)
    requires Sum(workers, isStopped) < |workers|
    ensures w < |workers| && isStopped(workers[w]) == 0
  {
    if isStopped(workers[0]) == 0 {
      w := 0;
    } else {
      w := SomeLive(workers[1..]);
      w := w + 1;
    }
  }

  /** An enabled, non-spurious event of a worker that is awake. */
  function WorkerEvent(s: Pool, w: nat): Event
    requires w < |s.workers|
  {
    match s.workers[w]
    case Checking => TryPop(w)
    case Popped(_) => NotifyPop(w, 0)
    case _ => Finish(w)
  }

  ghost predicate CanMove(s: Pool) {
    exists e :: Enabled(s, e) && !Spurious(e)
  }

  lemma AwakeWorkerMoves(s: Pool, w: nat)
    requires Phases(s) && w < |s.workers| && !s.workers[w].Sleeping? && !s.workers[w].Done?
    ensures CanMove(s)
  {
    if s.workers[w].Popped? && SomeBlocked(s) {
      var p :| 0 <= p < |s.posters| && s.posters[p].Blocked?;
      assert Enabled(s, NotifyPop(w, p));
    } else {
      assert Enabled(s, WorkerEvent(s, w));
    }
  }

  lemma {:induction false} SomePositive<T>(items: seq<T>, f: T -> int) returns (i: nat)
    requires forall x :: f(x) >= 0
    requires Sum(items, f) > 0
    ensures i < |items| && f(items[i]) > 0
  {
    if f(items[0]) > 0 {
      i := 0;
    } else {
      i := SomePositive(items[1..], f);
      i := i + 1;
    }
  }

  /** Items in the queue and a worker that has not stopped: somebody awake will come for them. */
  lemma QueuedWorkMoves(s: Pool)
    requires Inv(s) && s.phase.Stopping? && s.queue != []
    requires Sum(s.workers, isStopped) < |s.workers|
    ensures CanMove(s)
  {
    var w := SomeLive(s.workers);
    if s.workers[w].Sleeping? {
      if Sum(s.workers, isChecking) > 0 {
        var c := SomePositive(s.workers, isChecking);
        AwakeWorkerMoves(s, c);
      } else {
        var p := SomePositive(s.posters, isPushed);
        assert Enabled(s, NotifyPush(p, w));
      }
    } else {
      AwakeWorkerMoves(s, w);
    }
  }

  /** With room for at least one item, no reachable shutdown state is stuck before the join. */
  lemma ShutdownNeverStuck(s: Pool)
    requires Inv(s) && s.phase.Stopping? && s.capacity >= 1
    ensures Joined(s) || CanMove(s)
  {
    TerminatesPosted(s);
    SumNonNegative(s.queue, isTerminate);
    match s.posters[0]
    case Wanting(_) =>
      assert Enabled(s, TryPush(0));
    case Pushed =>
      if Sleeping in s.workers {
        var w :| 0 <= w < |s.workers| && s.workers[w] == Sleeping;
        assert Enabled(s, NotifyPush(0, w));
      } else {
        assert Enabled(s, NotifyPush(0, 0));
      }
    case Blocked(_) =>
      if Sum(s.workers, isPopped) > 0 {
        var w := SomePositive(s.workers, isPopped);
        AwakeWorkerMoves(s, w);
      } else {
        SumAll(s.posters, isWanting, 0);
        assert SomeBlocked(s);
        QueuedWorkMoves(s);
      }
    case Idle =>
      if s.phase.requested < |s.workers| {
        assert Enabled(s, PostTerminate);
      } else if !Joined(s) {
        IdleShutdownMoves(s);
      }
  }

  lemma IdleShutdownMoves(s: Pool)
    requires Inv(s) && s.phase == Stopping(|s.workers|) && s.posters[0].Idle? && !Joined(s)
    ensures CanMove(s)
  {
    TerminatesPosted(s);
    var w :| 0 <= w < |s.workers| && !s.workers[w].Done?;
    if !s.workers[w].Sleeping? {
      AwakeWorkerMoves(s, w);
    } else {
      StoppedLess(s.workers, w);
      assert s.queue != [];
      QueuedWorkMoves(s);
    }
  }

  lemma {:induction false} StoppedLess(workers: seq<Worker>, w: nat)
    requires w < |workers| && isStopped(workers[w]) == 0
    ensures Sum(workers, isStopped) < |workers|
  {
    StoppedAtMost(workers[1..]);
    if w > 0 { StoppedLess(workers[1..], w - 1); }
  }

  lemma {:induction false} StoppedAtMost(workers: seq<Worker>)
    ensures Sum(workers, isStopped) <= |workers|
  {
    if workers != [] { StoppedAtMost(workers[1..]); }
  }

  const workerWeight: Worker -> int := (w: Worker) =>
    match w
    case Checking => 1
    case Sleeping => 0
    case Popped(_) => 4
    case Running(_) => 2
    case Done => 0

  function PosterWeight(p: Poster): nat {
    match p
    case Idle => 0
    case Wanting(_) => 7
    case Blocked(_) => 6
    case Pushed => 2
  }

  /** What is left of a shutdown. */
  function Remaining(s: Pool): int
    requires |s.posters| > 0
  {
    (if s.phase.Stopping? then 8 * (|s.workers| - s.phase.requested) else 0)
    + PosterWeight(s.posters[0]) + 4 * |s.queue| + Sum(s.workers, workerWeight)
  }

  lemma RemainingDrops(s: Pool, e: Event)
    requires Phases(s) && s.phase.Stopping? && Enabled(s, e)
    ensures |Apply(s, e).posters| > 0
    ensures if Spurious(e) then Remaining(Apply(s, e)) <= Remaining(s) + 1
            else Remaining(Apply(s, e)) < Remaining(s)
  {
    var t := Apply(s, e);
    if e.NotifyPush? || e.TryPop? || e.NotifyPop? || e.Finish? || e.WakeWorker? {
      SumUpdate(s.workers, workerWeight, e.w, t.workers[e.w]);
      assert t.workers == s.workers[e.w := t.workers[e.w]];
    }
  }

  /** Every step of a shutdown but a spurious wake-up brings it closer to the join. */
  lemma ShutdownProgress(s: Pool, e: Event)
    requires Inv(s) && s.phase.Stopping? && Enabled(s, e)
    ensures Inv(Apply(s, e)) && Apply(s, e).phase.Stopping? && Apply(s, e).capacity == s.capacity
    ensures if Spurious(e) then Remaining(Apply(s, e)) <= Remaining(s) + 1
            else Remaining(Apply(s, e)) < Remaining(s)
  {
    StepInv(s, e);
    StepKeepsSize(s, e);
    RemainingDrops(s, e);
  }

  function SpuriousCount(es: seq<Event>): nat {
    if es == [] then 0 else (if Spurious(es[0]) then 1 else 0) + SpuriousCount(es[1..])
  }

  /**
   * A shutdown run takes at most Remaining(s) steps and two for each spurious wake-up,
   * and where it can go no further all workers have been joined.
   */
  lemma {:induction false} ShutdownCompletes(s: Pool, es: seq<Event>)
    requires Inv(s) && s.phase.Stopping? && s.capacity >= 1 && IsRun(s, es)
    ensures |es| <= Remaining(s) + 2 * SpuriousCount(es)
    ensures !CanMove(After(s, es)) ==> Joined(After(s, es))
    decreases |es|
  {
    if es == [] {
      SumNonNegative(s.workers, workerWeight);
      ShutdownNeverStuck(s);
    } else {
      var e, rest := es[0], es[1..];
      ShutdownProgress(s, e);
      var t := Apply(s, e);
      ShutdownCompletes(t, rest);
      assert After(s, es) == After(t, rest);
    }
  }

  /** When the last worker has exited, all that was posted before the destructor is processed. */
  lemma JoinedMeansProcessed(s: Pool)
    requires Inv(s) && Joined(s)
    ensures s.queue == [] && s.taken == s.posted
    ensures multiset(s.processed) == multiset(s.before)
  {
    JoinedMeansDrained(s);
    var k := s.phase.requested;
    forall m ensures multiset(s.processed)[m] == multiset(s.before)[m] {
      CountIsMultiplicity(s.processed, m);
      CountIsMultiplicity(s.before, m);
      if m != Terminate {
        SumAll(s.workers, Holds(m), 0);
        SumConcat(s.before, seq(k, _ => Terminate), Is(m));
        SumAll(seq(k, _ => Terminate), Is(m), 0);
      }
    }
  }

  lemma JoinedMeansDrained(s: Pool)
    requires Inv(s) && Joined(s)
    ensures s.queue == [] && s.taken == s.posted == s.before + seq(s.phase.requested, _ => Terminate)
  {
    SumAll(s.workers, isStopped, 1);
    TerminatesPosted(s);
    SumNonNegative(s.queue, isTerminate);
    var k := s.phase.requested;
    assert Sum(s.queue, isTerminate) == 0 && k == |s.workers|;
    if s.queue != [] {
      assert s.posted[|s.posted| - 1] == Terminate;
      SumBound(s.queue, isTerminate, |s.queue| - 1);
      assert false;
    }
  }

  lemma JoinedCarriesNothing(s: Pool, m: Msg)
    requires Inv(s) && Joined(s) && m != Terminate
    ensures Sum(s.posters, Carries(m)) == 0
  {
    SumAll(s.posters, Carries(m), 0);
  }

  lemma {:induction false} RequestsAreNoTerminates(s: Pool, es: seq<Event>)
    requires IsRun(s, es)
    ensures Terminate !in Requested(es)
    decreases |es|
  {
    if es != [] {
      RequestsAreNoTerminates(Apply(s, es[0]), es[1..]);
    }
  }

  /** When the join returns, exactly the messages the application asked for have been processed. */
  lemma ShutdownDrains(capacity: nat, threads: nat, posters: nat, es: seq<Event>)
    requires 1 <= threads <= 1000 && posters >= 1
    requires IsRun(Start(capacity, threads, posters), es)
    requires Joined(After(Start(capacity, threads, posters), es))
    ensures var s := After(Start(capacity, threads, posters), es);
            s.queue == [] && multiset(s.processed) == multiset(s.before) == multiset(Requested(es))
  {
    var s0 := Start(capacity, threads, posters);
    var s := After(s0, es);
    StartInv(capacity, threads, posters);
    RunInv(s0, es);
    JoinedMeansProcessed(s);
    RequestsAreNoTerminates(s0, es);
    forall m ensures multiset(s.processed)[m] == multiset(Requested(es))[m] {
      RequestedAreProcessed(s0, es, m);
    }
  }

  lemma RequestedAreProcessed(s0: Pool, es: seq<Event>, m: Msg)
    requires s0.posted == [] && (forall i :: 0 <= i < |s0.posters| ==> s0.posters[i].Idle?)
    requires IsRun(s0, es) && Inv(After(s0, es)) && Joined(After(s0, es))
    ensures multiset(After(s0, es).processed)[m] == multiset(Requested(es))[m]
  {
    var s := After(s0, es);
    CountIsMultiplicity(s.processed, m);
    CountIsMultiplicity(Requested(es), m);
    if m == Terminate {
      RequestsAreNoTerminates(s0, es);
    } else {
      RunRequested(s0, es, m);
      SumAll(s0.posters, Carries(m), 0);
      JoinedCarriesNothing(s, m);
      JoinedMeansDrained(s);
      SumAll(s.workers, Holds(m), 0);
    }
  }

  lemma RunOne(s: Pool, e: Event, rest: seq<Event>)
    requires Enabled(s, e) && IsRun(Apply(s, e), rest)
    ensures IsRun(s, [e] + rest) && After(s, [e] + rest) == After(Apply(s, e), rest)
  {
    assert ([e] + rest)[1..] == rest;
  }

  // ----- the size of the queue -----

  /** A queue of size 0 counts as full for ever: nothing is ever stored in it. */
  lemma {:induction false} NothingStored(s: Pool, es: seq<Event>)
    requires Inv(s) && s.capacity == 0 && s.posted == [] && IsRun(s, es)
    ensures After(s, es).posted == []
    decreases |es|
  {
    if es != [] {
      var t := Apply(s, es[0]);
      StepInv(s, es[0]);
      NothingStored(t, es[1..]);
      assert After(s, es) == After(t, es[1..]);
    }
  }

  /** With such a queue the destructor's join never returns and no message is ever processed. */
  lemma ZeroCapacityNeverJoins(threads: nat, posters: nat, es: seq<Event>)
    requires 1 <= threads <= 1000 && posters >= 1 && IsRun(Start(0, threads, posters), es)
    ensures !Joined(After(Start(0, threads, posters), es))
    ensures After(Start(0, threads, posters), es).taken == []
  {
    var s := After(Start(0, threads, posters), es);
    StartInv(0, threads, posters);
    RunInv(Start(0, threads, posters), es);
    NothingStored(Start(0, threads, posters), es);
    if Joined(s) {
      SumAll(s.workers, isStopped, 1);
    }
  }

  /** With room for one item a shutdown can be brought to its end. */
  lemma {:induction false} JoinRun(s: Pool) returns (es: seq<Event>)
    requires Inv(s) && s.phase.Stopping? && s.capacity >= 1
    ensures IsRun(s, es) && Joined(After(s, es))
    decreases Remaining(s)
  {
    ShutdownNeverStuck(s);
    SumNonNegative(s.workers, workerWeight);
    es := [];
    if !Joined(s) {
      var e :| Enabled(s, e) && !Spurious(e);
      ShutdownProgress(s, e);
      var rest := JoinRun(Apply(s, e));
      RunOne(s, e, rest);
      es := [e] + rest;
    }
  }

  ghost predicate CanJoin(capacity: nat, threads: nat, posters: nat)
    requires 1 <= threads <= 1000 && posters >= 1
  {
    exists es :: IsRun(Start(capacity, threads, posters), es) && Joined(After(Start(capacity, threads, posters), es))
  }

  /** A pool can be shut down at all if and only if its queue has room for one item. */
  lemma JoinIffRoom(capacity: nat, threads: nat, posters: nat)
    requires 1 <= threads <= 1000 && posters >= 1
    ensures CanJoin(capacity, threads, posters) <==> capacity >= 1
  {
    var s := Start(capacity, threads, posters);
    if capacity >= 1 {
      StartInv(capacity, threads, posters);
      StepInv(s, BeginStop);
      var rest := JoinRun(Apply(s, BeginStop));
      RunOne(s, BeginStop, rest);
    } else if CanJoin(capacity, threads, posters) {
      var es :| IsRun(s, es) && Joined(After(s, es));
      ZeroCapacityNeverJoins(threads, posters, es);
    }
  }

  /** One such shutdown, in which no thread can move any more. */
  lemma ZeroCapacityStuck()
    ensures var es := [BeginStop, PostTerminate, TryPush(0), TryPop(0)];
            var s0 := Start(0, 1, 1);
            IsRun(s0, es) && After(s0, es).phase.Stopping? && !Joined(After(s0, es)) && !CanMove(After(s0, es))
  {
    var s0 := Start(0, 1, 1);
    var s1 := Apply(s0, BeginStop);
    var s2 := Apply(s1, PostTerminate);
    var s3 := Apply(s2, TryPush(0));
    var s4 := Apply(s3, TryPop(0));
    RunOne(s3, TryPop(0), []);
    RunOne(s2, TryPush(0), [TryPop(0)]);
    RunOne(s1, PostTerminate, [TryPush(0), TryPop(0)]);
    RunOne(s0, BeginStop, [PostTerminate, TryPush(0), TryPop(0)]);
    assert [BeginStop, PostTerminate, TryPush(0), TryPop(0)] == [BeginStop] + [PostTerminate, TryPush(0), TryPop(0)];
    assert [PostTerminate, TryPush(0), TryPop(0)] == [PostTerminate] + [TryPush(0), TryPop(0)];
    assert [TryPush(0), TryPop(0)] == [TryPush(0)] + [TryPop(0)];
    assert [TryPop(0)] + [] == [TryPop(0)];
    assert s4.workers == [Sleeping] && s4.posters == [Blocked(Terminate)];
    assert !s4.workers[0].Done?;
  }
}
