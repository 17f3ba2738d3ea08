/** What holds in every interleaving of the accept loop and the workers. */
module PoolTheorems {
  import opened Pool

  // ── The invariant ──────────────────────────────────────────────────────────────

  predicate Ascending(s: seq<nat>) {
    forall i, j :: 0 <= i < j < |s| ==> s[i] < s[j]
  }

  /** The connections among the jobs. */
  function Connections(queue: seq<Job>): seq<nat> {
    if queue == [] then [] else
    (match queue[0] case Connection(n) => [n] case Shutdown => []) + Connections(queue[1..])
  }

  lemma {:induction false} ConnectionsSnoc(queue: seq<Job>, job: Job)
    ensures Connections(queue + [job]) == Connections(queue) + match job case Connection(n) => [n] case Shutdown => []
  {
    if queue == [] {
      assert queue + [job] == [job] && [job][1..] == [];
    } else {
      assert (queue + [job])[0] == queue[0] && (queue + [job])[1..] == queue[1..] + [job];
      ConnectionsSnoc(queue[1..], job);
    }
  }

  lemma {:induction false} ConnectionsBound(queue: seq<Job>)
    ensures |Connections(queue)| <= |queue|
  {
    if queue != [] {
      ConnectionsBound(queue[1..]);
    }
  }

  /** The connections below `n` whose turn it is to go to worker `w` of `workers`. */
  function Turns(n: nat, workers: nat, w: nat): seq<nat>
    requires workers > 0
  {
    if n == 0 then [] else Turns(n - 1, workers, w) + if (n - 1) % workers == w then [n - 1] else []
  }

  /** Every turn of the worker was either taken into its channel or refused, once. */
  predicate Partition(taken: seq<nat>, refused: seq<nat>, turns: seq<nat>) {
    multiset(taken) + multiset(refused) == multiset(turns)
  }

  /** Everything taken has been begun or is queued behind that, in the order of dispatch. */
  predicate InOrder(w: Worker, n: nat) {
    && w.taken == w.begun + Connections(w.queue)
    && Ascending(w.taken) && (forall x :: x in w.taken ==> x < n)
  }

  predicate Identified(w: Worker, i: nat) {
    && w.connSeq == |w.begun| == |w.ids|
    && forall k :: 0 <= k < |w.ids| ==> w.ids[k] == ConnId(i, k + 1)
  }

  /** The state of worker `i` of `workers` when `n` connections have been dispatched. */
  predicate Sound(w: Worker, i: nat, workers: nat, n: nat)
    requires workers > 0
  {
    && |w.queue| <= QUEUE_BOUND
    && InOrder(w, n)
    && Partition(w.taken, w.refused, Turns(n, workers, i))
    && Identified(w, i)
    && (w.phase.Serving? ==> w.begun != [])
  }

  predicate AllSound(workers: seq<Worker>, n: nat) {
    forall i :: 0 <= i < |workers| ==> Sound(workers[i], i, |workers|, n)
  }

  predicate Inv(s: State) {
    s.workers != [] && AllSound(s.workers, s.nextWorker)
  }

  lemma InitialInv(n: nat)
    requires n > 0
    ensures Inv(Initial(n))
  {
  }

  /** A connection dispatched to another worker is not a turn of this one. */
  lemma SoundElsewhere(w: Worker, i: nat, workers: nat, n: nat)
    requires workers > 0 && Sound(w, i, workers, n) && n % workers != i
    ensures Sound(w, i, workers, n + 1)
  {
    assert Turns(n + 1, workers, i) == Turns(n, workers, i);
  }

  lemma InOrderOffer(w: Worker, n: nat)
    requires InOrder(w, n)
    ensures InOrder(w.(queue := w.queue + [Connection(n)], taken := w.taken + [n]), n + 1)
    ensures InOrder(w, n + 1)
  {
    ConnectionsSnoc(w.queue, Connection(n));
    assert w.taken + [n] == w.begun + (Connections(w.queue) + [n]);
    AscendingSnoc(w.taken, n);
  }

  lemma AscendingSnoc(s: seq<nat>, n: nat)
    requires Ascending(s) && forall x :: x in s ==> x < n
    ensures Ascending(s + [n])
  {
    forall i, j | 0 <= i < j < |s + [n]| ensures (s + [n])[i] < (s + [n])[j] {
      assert s[i] in s;
    }
  }

  lemma PartitionOffer(taken: seq<nat>, refused: seq<nat>, n: nat, workers: nat, i: nat)
    requires workers > 0 && Partition(taken, refused, Turns(n, workers, i)) && n % workers == i
    ensures Partition(taken + [n], refused, Turns(n + 1, workers, i))
    ensures Partition(taken, refused + [n], Turns(n + 1, workers, i))
  {
    assert Turns(n + 1, workers, i) == Turns(n, workers, i) + [n];
  }

  lemma SoundOffer(w: Worker, i: nat, workers: nat, n: nat)
    requires workers > 0 && Sound(w, i, workers, n) && n % workers == i
    ensures Sound(TrySend(w, n), i, workers, n + 1)
  {
    PartitionOffer(w.taken, w.refused, n, workers, i);
    InOrderOffer(w, n);
  }

  lemma SoundShutdown(w: Worker, i: nat, workers: nat, n: nat)
    requires workers > 0 && Sound(w, i, workers, n)
    ensures Sound(TrySendShutdown(w), i, workers, n)
  {
    if Accepts(w) {
      ConnectionsSnoc(w.queue, Shutdown);
    }
  }

  lemma SoundReceived(w: Worker, i: nat, workers: nat, n: nat, disconnected: bool)
    requires workers > 0 && Sound(w, i, workers, n)
    ensures Sound(Received(w, i, disconnected), i, workers, n)
  {
    if w.queue != [] {
      match w.queue[0]
      case Shutdown => assert Connections(w.queue) == Connections(w.queue[1..]);
      case Connection(number) =>
        assert w.begun + ([number] + Connections(w.queue[1..])) == (w.begun + [number]) + Connections(w.queue[1..]);
    }
  }

  lemma SoundStep(s: State, i: nat, step: Step)
    requires Inv(s) && i < |s.workers|
    ensures Sound(WorkerStep(s, i, step), i, |s.workers|, s.nextWorker)
  {
    SoundReceived(s.workers[i], i, |s.workers|, s.nextWorker, s.disconnected);
  }

  lemma SoundAfterDispatch(workers: seq<Worker>, n: nat, i: nat)
    requires i < |workers| && Sound(workers[i], i, |workers|, n)
    ensures Sound(AfterDispatch(workers, n)[i], i, |workers|, n + 1)
  {
    if i == n % |workers| {
      SoundOffer(workers[i], i, |workers|, n);
    } else {
      SoundElsewhere(workers[i], i, |workers|, n);
    }
  }

  function AfterDispatch(workers: seq<Worker>, n: nat): (r: seq<Worker>)
    requires workers != []
    ensures |r| == |workers|
  {
    workers[n % |workers| := TrySend(workers[n % |workers|], n)]
  }

  lemma DispatchKeepsSound(workers: seq<Worker>, n: nat)
    requires workers != [] && AllSound(workers, n)
    ensures AllSound(AfterDispatch(workers, n), n + 1)
  {
    var after := AfterDispatch(workers, n);
    forall i | 0 <= i < |after| ensures Sound(after[i], i, |after|, n + 1) {
      SoundAfterDispatch(workers, n, i);
    }
  }

  lemma DispatchKeepsInv(s: State)
    requires Inv(s) && s.accepting.Draining?
    ensures Inv(Next(s, Dispatch))
  {
    DispatchKeepsSound(s.workers, s.nextWorker);
    Dispatched(s);
    SoundIsInv(AfterDispatch(s.workers, s.nextWorker), s.nextWorker + 1, Next(s, Dispatch));
  }

  lemma Dispatched(s: State)
    requires s.workers != [] && s.accepting.Draining?
    ensures Next(s, Dispatch).workers == AfterDispatch(s.workers, s.nextWorker)
    ensures Next(s, Dispatch).nextWorker == s.nextWorker + 1
  {
  }

  lemma SoundIsInv(workers: seq<Worker>, n: nat, t: State)
    requires workers != [] && AllSound(workers, n) && t.workers == workers && t.nextWorker == n
    ensures Inv(t)
  {
  }

  /** One worker is replaced by a sound one. */
  lemma ReplaceKeepsInv(s: State, i: nat, w: Worker, t: State)
    requires Inv(s) && i < |s.workers| && Sound(w, i, |s.workers|, s.nextWorker)
    requires t.workers == s.workers[i := w] && t.nextWorker == s.nextWorker
    ensures Inv(t)
  {
  }

  /** Every step of every thread keeps the invariant. */
  lemma NextKeepsInv(s: State, step: Step)
    requires Inv(s)
    ensures Inv(Next(s, step)) && |Next(s, step).workers| == |s.workers|
  {
    if step.Dispatch? {
      if s.accepting.Draining? {
        DispatchKeepsInv(s);
      }
    } else if step.Signal? {
      SignalKeepsInv(s);
    } else if step.CheckFlag? || step.Receive? || step.TimeOut? || step.Finish? {
      if step.worker < |s.workers| {
        WorkerKeepsInv(s, step);
      }
    }
  }

  lemma SignalKeepsInv(s: State)
    requires Inv(s)
    ensures Inv(Next(s, Signal)) && |Next(s, Signal).workers| == |s.workers|
  {
    if s.accepting.Signalling? && s.accepting.next < |s.workers| {
      var i := s.accepting.next;
      SoundShutdown(s.workers[i], i, |s.workers|, s.nextWorker);
      ReplaceKeepsInv(s, i, TrySendShutdown(s.workers[i]), Next(s, Signal));
    }
  }

  lemma WorkerKeepsInv(s: State, step: Step)
    requires step.CheckFlag? || step.Receive? || step.TimeOut? || step.Finish?
    requires Inv(s) && step.worker < |s.workers|
    ensures Inv(Next(s, step)) && |Next(s, step).workers| == |s.workers|
  {
    SoundStep(s, step.worker, step);
    ReplaceKeepsInv(s, step.worker, WorkerStep(s, step.worker, step), Next(s, step));
  }

  /** The invariant holds in every run. */
  lemma {:induction false} RunKeepsInv(s: State, schedule: seq<Step>)
    requires Inv(s)
    ensures Inv(After(s, schedule)) && |After(s, schedule).workers| == |s.workers|
  {
    if schedule != [] {
      var k := |schedule| - 1;
      RunKeepsInv(s, schedule[..k]);
      NextKeepsInv(After(s, schedule[..k]), schedule[k]);
    }
  }

  // ── Conservation ───────────────────────────────────────────────────────────────

  /** What has become of connections. */
  datatype Tally = Tally(dropped: nat, queued: nat, abandoned: nat, active: nat, finished: nat) {
    function Sum(): nat {
      dropped + queued + abandoned + active + finished
    }

    function Plus(other: Tally): Tally {
      Tally(dropped + other.dropped, queued + other.queued, abandoned + other.abandoned,
            active + other.active, finished + other.finished)
    }
  }

  function TallyOf(w: Worker): Tally {
    var (waiting, active) := (|Connections(w.queue)|, if w.phase.Serving? then 1 else 0);
    Tally(|w.refused|,
          if w.phase.Stopped? then 0 else waiting,
          if w.phase.Stopped? then waiting else 0,
          active,
          if active <= |w.begun| then |w.begun| - active else 0)
  }

  function Total(workers: seq<Worker>): Tally {
    if workers == [] then Tally(0, 0, 0, 0, 0)
    else Total(workers[..|workers| - 1]).Plus(TallyOf(workers[|workers| - 1]))
  }

  /** How many turns the first `k` workers had together. */
  function AllTurns(n: nat, workers: nat, k: nat): nat
    requires workers > 0
  {
    if k == 0 then 0 else AllTurns(n, workers, k - 1) + |Turns(n, workers, k - 1)|
  }

  lemma {:induction false} AllTurnsStep(n: nat, workers: nat, k: nat)
    requires workers > 0 && n > 0
    ensures AllTurns(n, workers, k) == AllTurns(n - 1, workers, k) + if (n - 1) % workers < k then 1 else 0
  {
    if k > 0 {
      AllTurnsStep(n, workers, k - 1);
    }
  }

  /** Every connection is the turn of exactly one worker. */
  lemma {:induction false} EveryTurnIsSomeones(n: nat, workers: nat)
    requires workers > 0
    ensures AllTurns(n, workers, workers) == n
  {
    if n == 0 {
      NoTurns(workers, workers);
    } else {
      EveryTurnIsSomeones(n - 1, workers);
      AllTurnsStep(n, workers, workers);
    }
  }

  lemma {:induction false} NoTurns(workers: nat, k: nat)
    requires workers > 0
    ensures AllTurns(0, workers, k) == 0
  {
    if k > 0 {
      NoTurns(workers, k - 1);
    }
  }

  lemma TallyIsTurns(w: Worker, i: nat, workers: nat, n: nat)
    requires workers > 0 && Sound(w, i, workers, n)
    ensures Tallies(TallyOf(w), |Turns(n, workers, i)|)
  {
    assert |multiset(w.taken)| == |w.taken| && |multiset(w.refused)| == |w.refused|;
    assert |multiset(Turns(n, workers, i))| == |Turns(n, workers, i)|;
    ConnectionsBound(w.queue);
  }

  predicate Tallies(t: Tally, turns: nat) {
    t.Sum() == turns && t.active <= 1 && t.queued + t.abandoned <= QUEUE_BOUND
  }

  lemma {:induction false} TotalIsTurns(workers: seq<Worker>, count: nat, n: nat)
    requires count > 0
    requires forall i :: 0 <= i < |workers| ==> Tallies(TallyOf(workers[i]), |Turns(n, count, i)|)
    ensures Total(workers).Sum() == AllTurns(n, count, |workers|)
    ensures Total(workers).active <= |workers|
    ensures Total(workers).queued + Total(workers).abandoned <= QUEUE_BOUND * |workers|
  {
    if workers != [] {
      var k := |workers| - 1;
      TotalIsTurns(workers[..k], count, n);
      assert Tallies(TallyOf(workers[k]), |Turns(n, count, k)|);
    }
  }

  /** No connection is lost or served twice: each was dropped, or waits, was abandoned, is or was served. */
  lemma Conservation(n: nat, schedule: seq<Step>)
    requires n > 0
    ensures var s := After(Initial(n), schedule);
            && Total(s.workers).Sum() == s.nextWorker
            && Total(s.workers).active <= n
            && Total(s.workers).queued + Total(s.workers).abandoned <= QUEUE_BOUND * n
  {
    InitialInv(n);
    RunKeepsInv(Initial(n), schedule);
    var s := After(Initial(n), schedule);
    forall i | 0 <= i < n ensures Tallies(TallyOf(s.workers[i]), |Turns(s.nextWorker, n, i)|) {
      TallyIsTurns(s.workers[i], i, n, s.nextWorker);
    }
    TotalIsTurns(s.workers, n, s.nextWorker);
    EveryTurnIsSomeones(s.nextWorker, n);
  }

  /** Each worker serves the connections it took in the order of dispatch, and takes only its own turns. */
  lemma ServedInOrder(n: nat, schedule: seq<Step>, i: nat)
    requires n > 0 && i < n
    ensures var s := After(Initial(n), schedule);
            && |s.workers| == n && s.workers[i].begun <= s.workers[i].taken
            && Ascending(s.workers[i].begun)
            && (forall x :: x in s.workers[i].taken || x in s.workers[i].refused ==> x < s.nextWorker && x % n == i)
            && |s.workers[i].queue| <= QUEUE_BOUND
  {
    InitialInv(n);
    RunKeepsInv(Initial(n), schedule);
    var s := After(Initial(n), schedule);
    var w := s.workers[i];
    assert Sound(w, i, n, s.nextWorker);
    forall x | x in w.taken || x in w.refused ensures x < s.nextWorker && x % n == i {
      assert x in multiset(w.taken) + multiset(w.refused);
      assert x in multiset(Turns(s.nextWorker, n, i));
      TurnsAreOwn(s.nextWorker, n, i, x);
    }
  }

  lemma {:induction false} TurnsAreOwn(n: nat, workers: nat, w: nat, x: nat)
    requires workers > 0 && x in Turns(n, workers, w)
    ensures x < n && x % workers == w
  {
    if !(n - 1 == x && (n - 1) % workers == w) {
      TurnsAreOwn(n - 1, workers, w, x);
    }
  }

  // ── Fairness ───────────────────────────────────────────────────────────────────

  lemma DivSucc(n: nat, m: nat)
    requires m > 0
    ensures if n % m + 1 < m then (n + 1) / m == n / m && (n + 1) % m == n % m + 1
            else (n + 1) / m == n / m + 1 && (n + 1) % m == 0
  {
    var (q, r) := (n / m, n % m);
    assert n == q * m + r;
    if r + 1 < m {
      DivUnique(n + 1, m, q, r + 1);
    } else {
      assert n + 1 == (q + 1) * m + 0;
      DivUnique(n + 1, m, q + 1, 0);
    }
  }

  lemma DivUnique(n: int, m: int, q: int, r: int)
    requires 0 <= r < m && n == q * m + r
    ensures n / m == q && n % m == r
  {
    var k := n / m - q;
    assert n % m == r - k * m;
    assert k >= 1 ==> k * m >= m;
    assert k <= -1 ==> k * m <= -m;
  }

  /** Round robin: of `n` connections every worker is offered `n / workers`, the first ones one more. */
  lemma {:induction false} TurnsAreFair(n: nat, workers: nat, w: nat)
    requires w < workers
    ensures |Turns(n, workers, w)| == n / workers + if w < n % workers then 1 else 0
  {
    if n == 0 {
      DivUnique(0, workers, 0, 0);
    } else {
      TurnsAreFair(n - 1, workers, w);
      DivSucc(n - 1, workers);
    }
  }

  /** However the threads run, every worker is chosen equally often, up to one. */
  lemma ChosenFairly(n: nat, schedule: seq<Step>, i: nat)
    requires n > 0 && i < n
    ensures var s := After(Initial(n), schedule);
            |s.workers| == n &&
            |s.workers[i].taken| + |s.workers[i].refused| == s.nextWorker / n + if i < s.nextWorker % n then 1 else 0
  {
    InitialInv(n);
    RunKeepsInv(Initial(n), schedule);
    var s := After(Initial(n), schedule);
    assert Sound(s.workers[i], i, n, s.nextWorker);
    TallyIsTurns(s.workers[i], i, n, s.nextWorker);
    assert |s.workers[i].taken| == |s.workers[i].begun| + |Connections(s.workers[i].queue)|;
    TurnsAreFair(s.nextWorker, n, i);
  }

  // ── Identifiers ────────────────────────────────────────────────────────────────

  /** No two connections of a run have the same identifier. */
  predicate DistinctIds(workers: seq<Worker>) {
    forall v, w, j, k ::
      0 <= v < |workers| && 0 <= w < |workers| && 0 <= j < |workers[v].ids| && 0 <= k < |workers[w].ids| ==>
      workers[v].ids[j] == workers[w].ids[k] ==> v == w && j == k
  }

  /** No worker has served so many connections that its identifiers reach those of a later one. */
  predicate IdsFit(workers: seq<Worker>) {
    forall v, w :: 0 <= v < w < |workers| && |workers[w].ids| > 0 ==> |workers[v].ids| <= (w - v) * ID_STRIDE
  }

  /** The identifiers are distinct exactly if they fit. */
  lemma DistinctIffFit(s: State)
    requires Inv(s)
    ensures DistinctIds(s.workers) <==> IdsFit(s.workers)
  {
    if IdsFit(s.workers) {
      forall v, w, j, k | 0 <= v < |s.workers| && 0 <= w < |s.workers| && 0 <= j < |s.workers[v].ids|
          && 0 <= k < |s.workers[w].ids| && s.workers[v].ids[j] == s.workers[w].ids[k]
        ensures v == w && j == k
      {
        FitSeparates(s, v, w, j, k);
      }
    } else {
      var v, w :| 0 <= v < w < |s.workers| && |s.workers[w].ids| > 0 && |s.workers[v].ids| > (w - v) * ID_STRIDE;
      IdAt(s, v, (w - v) * ID_STRIDE);
      IdAt(s, w, 0);
      assert s.workers[v].ids[(w - v) * ID_STRIDE] == s.workers[w].ids[0];
    }
  }

  lemma IdAt(s: State, i: nat, k: nat)
    requires Inv(s) && i < |s.workers| && k < |s.workers[i].ids|
    ensures s.workers[i].ids[k] == ConnId(i, k + 1)
  {
    assert Sound(s.workers[i], i, |s.workers|, s.nextWorker);
  }

  lemma FitSeparates(s: State, v: nat, w: nat, j: nat, k: nat)
    requires Inv(s) && IdsFit(s.workers)
    requires v < |s.workers| && w < |s.workers| && j < |s.workers[v].ids| && k < |s.workers[w].ids|
    requires s.workers[v].ids[j] == s.workers[w].ids[k]
    ensures v == w && j == k
  {
    IdAt(s, v, j);
    IdAt(s, w, k);
  }

  /** In every run in which no worker serves more than 100,000 connections the identifiers are distinct. */
  lemma IdsAreDistinct(n: nat, schedule: seq<Step>)
    requires n > 0
    requires forall i :: 0 <= i < |After(Initial(n), schedule).workers| ==>
               |After(Initial(n), schedule).workers[i].begun| <= ID_STRIDE
    ensures DistinctIds(After(Initial(n), schedule).workers)
  {
    InitialInv(n);
    RunKeepsInv(Initial(n), schedule);
    var s := After(Initial(n), schedule);
    forall v, w | 0 <= v < w < |s.workers| && |s.workers[w].ids| > 0 ensures |s.workers[v].ids| <= (w - v) * ID_STRIDE {
      assert Sound(s.workers[v], v, |s.workers|, s.nextWorker);
    }
    DistinctIffFit(s);
  }

  // ── Shutdown ───────────────────────────────────────────────────────────────────

  /** How many connections a worker can still begin once the flag is up. */
  function StillToBegin(w: Worker): nat {
    if w.phase.Receiving? then 1 else 0
  }

  lemma ShutdownStep(s: State, step: Step, i: nat)
    requires s.shutdown && i < |s.workers|
    ensures var t := Next(s, step);
            && t.shutdown && |t.workers| == |s.workers|
            && |t.workers[i].begun| + StillToBegin(t.workers[i]) <= |s.workers[i].begun| + StillToBegin(s.workers[i])
            && s.workers[i].begun <= t.workers[i].begun
  {
  }

  /** After the flag is raised a worker begins at most one more connection, and only if it was waiting for one. */
  lemma {:induction false} AtMostOneMore(s: State, schedule: seq<Step>, i: nat)
    requires s.shutdown && i < |s.workers|
    ensures var t := After(s, schedule);
            && t.shutdown && |t.workers| == |s.workers|
            && |t.workers[i].begun| + StillToBegin(t.workers[i]) <= |s.workers[i].begun| + StillToBegin(s.workers[i])
            && s.workers[i].begun <= t.workers[i].begun
  {
    if schedule != [] {
      var k := |schedule| - 1;
      AtMostOneMore(s, schedule[..k], i);
      ShutdownStep(After(s, schedule[..k]), schedule[k], i);
    }
  }

  /** How many steps of its own a worker has left once the flag is up. */
  function StepsLeft(w: Worker): nat {
    match w.phase
    case Receiving => 3
    case Serving => 2
    case AtTop => 1
    case Stopped => 0
  }

  /**
   The step is one of worker `i`, and it is where it takes it; a receiving worker has a job, a closed
   channel or no patience left.
   */
  predicate Own(s: State, step: Step, i: nat) {
    i < |s.workers| &&
    match (step, s.workers[i].phase)
    case (CheckFlag(w), AtTop) => w == i
    case (Receive(w), Receiving) => w == i && (s.workers[i].queue != [] || s.disconnected)
    case (TimeOut(w), Receiving) => w == i
    case (Finish(w), Serving) => w == i
    case _ => false
  }

  /**
   With the flag up no step of any thread sends a worker back, and every step of its own brings it
   closer to its end.
   */
  lemma WorkerAdvances(s: State, step: Step, i: nat)
    requires s.shutdown && i < |s.workers|
    ensures |Next(s, step).workers| == |s.workers|
    ensures StepsLeft(Next(s, step).workers[i]) <= StepsLeft(s.workers[i])
    ensures Own(s, step, i) ==> StepsLeft(Next(s, step).workers[i]) < StepsLeft(s.workers[i])
  {
  }

  /** How many steps of its own worker `i` takes in a schedule. */
  function OwnSteps(s: State, schedule: seq<Step>, i: nat): nat {
    if schedule == [] then 0 else
    var k := |schedule| - 1;
    OwnSteps(s, schedule[..k], i) + if Own(After(s, schedule[..k]), schedule[k], i) then 1 else 0
  }

  lemma {:induction false} StepsRunOut(s: State, schedule: seq<Step>, i: nat)
    requires s.shutdown && i < |s.workers|
    ensures var t := After(s, schedule);
            && t.shutdown && |t.workers| == |s.workers|
            && StepsLeft(t.workers[i]) + OwnSteps(s, schedule, i) <= StepsLeft(s.workers[i])
  {
    if schedule != [] {
      var k := |schedule| - 1;
      StepsRunOut(s, schedule[..k], i);
      WorkerAdvances(After(s, schedule[..k]), schedule[k], i);
    }
  }

  /**
   Three steps of its own after the flag is up a worker has stopped, whatever is in its channel; it
   takes no more than three.
   */
  lemma WorkerStops(s: State, schedule: seq<Step>, i: nat)
    requires s.shutdown && i < |s.workers|
    ensures OwnSteps(s, schedule, i) <= 3
    ensures OwnSteps(s, schedule, i) == 3 ==>
              |After(s, schedule).workers| == |s.workers| && After(s, schedule).workers[i].phase.Stopped?
  {
    StepsRunOut(s, schedule, i);
  }

  // ── Reasons to stop ────────────────────────────────────────────────────────────

  /** The worker is told to stop, and stops, only for a reason. */
  predicate Motivated(w: Worker, shutdown: bool, disconnected: bool) {
    && (Shutdown in w.queue ==> shutdown)
    && (w.phase.Stopped? ==> shutdown || disconnected)
  }

  predicate Reasons(s: State) {
    && (s.accepting.Signalling? ==> s.shutdown)
    && (s.disconnected ==> s.accepting.Returned?)
    && forall i :: 0 <= i < |s.workers| ==> Motivated(s.workers[i], s.shutdown, s.disconnected)
  }

  lemma WorkerKeepsMotive(s: State, i: nat, step: Step)
    requires Reasons(s) && i < |s.workers|
    ensures Motivated(WorkerStep(s, i, step), s.shutdown, s.disconnected)
  {
    var w := s.workers[i];
    if w.queue != [] {
      assert w.queue[0] in w.queue && forall j :: j in w.queue[1..] ==> j in w.queue;
    }
  }

  lemma NextKeepsReasons(s: State, step: Step)
    requires Reasons(s)
    ensures Reasons(Next(s, step))
  {
    if step.CheckFlag? || step.Receive? || step.TimeOut? || step.Finish? {
      if step.worker < |s.workers| {
        WorkerKeepsMotive(s, step.worker, step);
      }
    }
  }

  lemma {:induction false} RunKeepsReasons(s: State, schedule: seq<Step>)
    requires Reasons(s)
    ensures Reasons(After(s, schedule))
  {
    if schedule != [] {
      var k := |schedule| - 1;
      RunKeepsReasons(s, schedule[..k]);
      NextKeepsReasons(After(s, schedule[..k]), schedule[k]);
    }
  }

  /** As long as the flag is down and the accept loop has not failed, all workers run and no connection is abandoned. */
  lemma NoneAbandonedWhileRunning(n: nat, schedule: seq<Step>)
    ensures var s := After(Initial(n), schedule);
            !s.shutdown && !s.disconnected ==>
              Total(s.workers).abandoned == 0 && forall w :: w in s.workers ==> !w.phase.Stopped?
  {
    RunKeepsReasons(Initial(n), schedule);
    var s := After(Initial(n), schedule);
    if !s.shutdown && !s.disconnected {
      forall w | w in s.workers ensures !w.phase.Stopped? {
        var i :| 0 <= i < |s.workers| && s.workers[i] == w;
        assert Motivated(s.workers[i], false, false);
      }
      NoneAbandoned(s.workers);
    }
  }

  lemma {:induction false} NoneAbandoned(workers: seq<Worker>)
    requires forall w :: w in workers ==> !w.phase.Stopped?
    ensures Total(workers).abandoned == 0
  {
    if workers != [] {
      assert workers[|workers| - 1] in workers;
      NoneAbandoned(workers[..|workers| - 1]);
    }
  }
}
