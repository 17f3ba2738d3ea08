/** What the pool does with each connection: when it is dropped, and that it is served otherwise. */
module PoolService {
  import opened Pool
  import opened PoolTheorems

  // ── Dropping ───────────────────────────────────────────────────────────────────

  lemma {:induction false} DroppedOfReplaced(workers: seq<Worker>, i: nat, w: Worker)
    requires i < |workers|
    ensures Total(workers[i := w]).dropped + |workers[i].refused| == Total(workers).dropped + |w.refused|
  {
    var k := |workers| - 1;
    if i == k {
      assert workers[i := w][..k] == workers[..k];
    } else {
      assert workers[i := w][..k] == workers[..k][i := w];
      DroppedOfReplaced(workers[..k], i, w);
    }
  }

  /** The worker cannot take another connection: it has stopped, or eight jobs are waiting. */
  predicate Busy(w: Worker) {
    w.phase.Stopped? || |w.queue| >= 8
  }

  /** Connection `number` came to the worker `v`, which is `w` afterwards. */
  predicate CameTo(v: Worker, w: Worker, number: nat) {
    && w.phase == v.phase && w.begun == v.begun && w.ids == v.ids
    && if Busy(v) then w.queue == v.queue && w.refused == v.refused + [number]
       else w.queue == v.queue + [Connection(number)] && w.refused == v.refused
  }

  /**
   A dispatch, from any state: the connection goes to the worker whose turn it is, and it is dropped
   exactly if that worker has stopped or has eight jobs waiting; otherwise it is the last in its queue.
   */
  lemma DispatchedOrDropped(s: State)
    requires s.workers != [] && s.accepting.Draining?
    ensures var (t, i) := (Next(s, Dispatch), s.nextWorker % |s.workers|);
            && t.nextWorker == s.nextWorker + 1 && |t.workers| == |s.workers| && t.accepting == s.accepting
            && CameTo(s.workers[i], t.workers[i], s.nextWorker)
            && (forall j :: 0 <= j < |s.workers| && j != i ==> t.workers[j] == s.workers[j])
            && Total(t.workers).dropped == Total(s.workers).dropped + if Busy(s.workers[i]) then 1 else 0
  {
    var i := s.nextWorker % |s.workers|;
    DroppedOfReplaced(s.workers, i, Next(s, Dispatch).workers[i]);
  }

  /** Nothing but a dispatch drops a connection. */
  lemma OnlyDispatchDrops(s: State, step: Step)
    requires !step.Dispatch? || !s.accepting.Draining?
    ensures Total(Next(s, step).workers).dropped == Total(s.workers).dropped
  {
    hide Total;
    match step
    case Signal =>
      if s.accepting.Signalling? && s.accepting.next < |s.workers| {
        DroppedOfReplaced(s.workers, s.accepting.next, Next(s, step).workers[s.accepting.next]);
      }
    case RaiseFlag =>
    case Poll(_) =>
    case Dispatch =>
    case EndDrain =>
    case DropSenders =>
    case _ =>
      if step.worker < |s.workers| {
        DroppedOfReplaced(s.workers, step.worker, Next(s, step).workers[step.worker]);
      }
  }

  /** The flag is not raised and no poll fails. */
  predicate Undisturbed(schedule: seq<Step>) {
    forall step :: step in schedule ==> step != RaiseFlag && step != Poll(PollFailed)
  }

  /** Whenever a connection is dispatched, fewer than eight jobs are waiting at the worker whose turn it is. */
  predicate Roomy(n: nat, schedule: seq<Step>)
    requires n > 0
  {
    forall k :: 0 <= k < |schedule| && schedule[k].Dispatch? ==> HasRoom(After(Initial(n), schedule[..k]))
  }

  predicate HasRoom(s: State) {
    s.workers != [] ==> |s.workers[s.nextWorker % |s.workers|].queue| < 8
  }

  predicate AllRunning(s: State) {
    && !s.shutdown && !s.disconnected && (s.accepting.Polling? || s.accepting.Draining?)
    && forall i :: 0 <= i < |s.workers| ==> !s.workers[i].phase.Stopped?
  }

  /** As long as nothing disturbs it the server accepts, and all its workers run. */
  lemma {:induction false} RunsUndisturbed(n: nat, schedule: seq<Step>)
    requires Undisturbed(schedule)
    ensures AllRunning(After(Initial(n), schedule)) && |After(Initial(n), schedule).workers| == n
  {
    RunKeepsReasons(Initial(n), schedule);
    if schedule != [] {
      var k := |schedule| - 1;
      assert forall step :: step in schedule[..k] ==> step in schedule;
      RunsUndisturbed(n, schedule[..k]);
      assert schedule[k] in schedule;
      RunningStep(After(Initial(n), schedule[..k]), schedule[k]);
      forall i | 0 <= i < n ensures !After(Initial(n), schedule).workers[i].phase.Stopped? {
        assert Motivated(After(Initial(n), schedule).workers[i], false, false);
      }
    }
  }

  lemma RunningStep(s: State, step: Step)
    requires AllRunning(s) && step != RaiseFlag && step != Poll(PollFailed)
    ensures var t := Next(s, step);
            && !t.shutdown && !t.disconnected && (t.accepting.Polling? || t.accepting.Draining?)
            && |t.workers| == |s.workers|
  {
  }

  /** An undisturbed server whose queues have room drops and abandons nothing: each connection waits or was begun. */
  lemma {:induction false} NothingDropped(n: nat, schedule: seq<Step>)
    requires n > 0 && Undisturbed(schedule) && Roomy(n, schedule)
    ensures var total := Total(After(Initial(n), schedule).workers); total.dropped == total.abandoned == 0
  {
    RunsUndisturbed(n, schedule);
    var t := After(Initial(n), schedule);
    NoneAbandoned(t.workers);
    if schedule == [] {
      NoneDroppedAtStart(n);
    } else {
      var k := |schedule| - 1;
      var s := After(Initial(n), schedule[..k]);
      assert forall step :: step in schedule[..k] ==> step in schedule;
      forall j | 0 <= j < k && schedule[..k][j].Dispatch? ensures HasRoom(After(Initial(n), schedule[..k][..j])) {
        assert schedule[..k][..j] == schedule[..j];
      }
      NothingDropped(n, schedule[..k]);
      RunsUndisturbed(n, schedule[..k]);
      if schedule[k].Dispatch? && s.accepting.Draining? {
        assert HasRoom(s);
        DispatchedOrDropped(s);
      } else {
        OnlyDispatchDrops(s, schedule[k]);
      }
    }
  }

  lemma {:induction false} NoneDroppedAtStart(n: nat)
    ensures Total(Initial(n).workers).dropped == 0
  {
    if n > 0 {
      assert Initial(n).workers[..n - 1] == Initial(n - 1).workers;
      NoneDroppedAtStart(n - 1);
    }
  }

  // ── Serving ────────────────────────────────────────────────────────────────────

  lemma {:induction false} AfterConcat(s: State, a: seq<Step>, b: seq<Step>)
    ensures After(s, a + b) == After(After(s, a), b)
  {
    if b == [] {
      assert a + b == a;
    } else {
      var k := |b| - 1;
      assert (a + b)[..|a + b| - 1] == a + b[..k] && (a + b)[|a + b| - 1] == b[k];
      AfterConcat(s, a, b[..k]);
    }
  }

  /** One turn of the loop of worker `i`. */
  function Round(i: nat): seq<Step> {
    [CheckFlag(i), Receive(i), Finish(i)]
  }

  function Rounds(i: nat, k: nat): seq<Step> {
    if k == 0 then [] else Round(i) + Rounds(i, k - 1)
  }

  lemma AfterRound(s: State, i: nat)
    ensures After(s, Round(i)) == Next(Next(Next(s, CheckFlag(i)), Receive(i)), Finish(i))
    ensures After(s, [CheckFlag(i), Receive(i)]) == Next(Next(s, CheckFlag(i)), Receive(i))
  {
    var (a, b) := ([CheckFlag(i)], [CheckFlag(i), Receive(i)]);
    assert a[..0] == [] && b[..1] == a && Round(i)[..2] == b;
    assert After(s, []) == s && After(s, a) == Next(s, CheckFlag(i));
  }

  /** The worker `v` is at the top of its loop with the connection `number` next; `w` is it behind that. */
  predicate BegunOne(v: Worker, w: Worker, i: nat, number: nat) {
    && v.queue != [] && w.queue == v.queue[1..] && w.begun == v.begun + [number]
    && w.ids == v.ids + [i * 100_000 + v.connSeq + 1]
    && w.connSeq == v.connSeq + 1
  }

  /** While the flag is down, an idle worker begins the oldest connection in its queue in its next turn, and ends it. */
  lemma ServesNext(s: State, i: nat, number: nat)
    requires !s.shutdown && i < |s.workers| && s.workers[i].phase.AtTop?
    requires s.workers[i].queue != [] && s.workers[i].queue[0] == Connection(number)
    ensures var t := After(s, [CheckFlag(i), Receive(i)]);
            && |t.workers| == |s.workers| && t.workers[i].phase.Serving?
            && BegunOne(s.workers[i], t.workers[i], i, number)
    ensures var t := After(s, Round(i));
            && |t.workers| == |s.workers| && t.workers[i].phase.AtTop? && !t.shutdown
            && BegunOne(s.workers[i], t.workers[i], i, number)
  {
    hide After, Round, BegunOne;
    AfterRound(s, i);
    var v := s.workers[i];
    var a := Next(s, CheckFlag(i));
    Checked(s, i);
    Taken(a, i, number);
    Finished(Next(a, Receive(i)), i);
  }

  lemma Checked(s: State, i: nat)
    requires !s.shutdown && i < |s.workers| && s.workers[i].phase.AtTop?
    ensures var t := Next(s, CheckFlag(i));
            !t.shutdown && |t.workers| == |s.workers| && t.workers[i] == s.workers[i].(phase := Receiving)
  {
  }

  lemma Taken(s: State, i: nat, number: nat)
    requires i < |s.workers| && s.workers[i].phase.Receiving?
    requires s.workers[i].queue != [] && s.workers[i].queue[0] == Connection(number)
    ensures var t := Next(s, Receive(i));
            && t.shutdown == s.shutdown && |t.workers| == |s.workers| && t.workers[i].phase.Serving?
            && BegunOne(s.workers[i].(phase := AtTop), t.workers[i], i, number)
  {
  }

  lemma Finished(s: State, i: nat)
    requires i < |s.workers| && s.workers[i].phase.Serving?
    ensures var t := Next(s, Finish(i));
            && t.shutdown == s.shutdown && |t.workers| == |s.workers| && t.workers[i].phase.AtTop?
            && forall v, number :: BegunOne(v, s.workers[i], i, number) ==> BegunOne(v, t.workers[i], i, number)
  {
  }

  /** In as many turns as jobs are waiting it has begun all of them, in order. */
  lemma {:induction false} ServesAll(s: State, i: nat)
    requires !s.shutdown && i < |s.workers| && s.workers[i].phase.AtTop? && Shutdown !in s.workers[i].queue
    ensures var t := After(s, Rounds(i, |s.workers[i].queue|));
            && |t.workers| == |s.workers| && t.workers[i].queue == []
            && t.workers[i].begun == s.workers[i].begun + Connections(s.workers[i].queue)
    decreases |s.workers[i].queue|
  {
    hide Next;
    var v := s.workers[i];
    if v.queue == [] {
      assert v.begun + [] == v.begun;
    } else {
      assert v.queue[0] in v.queue && forall job :: job in v.queue[1..] ==> job in v.queue;
      var number := v.queue[0].number;
      ServesNext(s, i, number);
      ServesAll(After(s, Round(i)), i);
      AfterConcat(s, Round(i), Rounds(i, |v.queue| - 1));
      assert (v.begun + [number]) + Connections(v.queue[1..]) == v.begun + ([number] + Connections(v.queue[1..]));
    }
  }

  /**
   A connection that arrives while the server is idle is served: it is accepted, goes to the worker whose
   turn it is, and that worker begins it once it has begun those that were waiting.
   */
  lemma ArrivalIsServed(n: nat, schedule: seq<Step>)
    requires n > 0 && Undisturbed(schedule) && After(Initial(n), schedule).accepting.Polling?
    requires |After(Initial(n), schedule).workers| == n
    requires var s := After(Initial(n), schedule);
             s.workers[s.nextWorker % n].phase.AtTop? && |s.workers[s.nextWorker % n].queue| < 8
    ensures var s := After(Initial(n), schedule);
            var (i, k) := (s.nextWorker % n, |s.workers[s.nextWorker % n].queue| + 1);
            var t := After(s, [Poll(Ready), Dispatch] + Rounds(i, k));
            && |t.workers| == n && t.workers[i].queue == []
            && s.nextWorker in t.workers[i].begun
            && t.workers[i].begun == s.workers[i].begun + Connections(s.workers[i].queue) + [s.nextWorker]
  {
    var s := After(Initial(n), schedule);
    var (i, k) := (s.nextWorker % n, |s.workers[s.nextWorker % n].queue| + 1);
    RunsUndisturbed(n, schedule);
    RunKeepsReasons(Initial(n), schedule);
    assert Motivated(s.workers[i], s.shutdown, s.disconnected);
    var polled := Next(s, Poll(Ready));
    var u := Next(polled, Dispatch);
    AfterTwo(s, Poll(Ready), Dispatch);
    DispatchedOrDropped(polled);
    ConnectionsSnoc(s.workers[i].queue, Connection(s.nextWorker));
    ServesAll(u, i);
    AfterConcat(s, [Poll(Ready), Dispatch], Rounds(i, k));
    AddLast(s.workers[i].begun, Connections(s.workers[i].queue), s.nextWorker);
  }

  lemma AddLast(a: seq<nat>, b: seq<nat>, x: nat)
    ensures a + (b + [x]) == a + b + [x] && x in a + b + [x]
  {
  }

  lemma AfterTwo(s: State, a: Step, b: Step)
    ensures After(s, [a, b]) == Next(Next(s, a), b)
  {
    assert [a, b][..1] == [a] && [a][..0] == [] && After(s, []) == s;
  }

  // ── Stopping ───────────────────────────────────────────────────────────────────

  function Signals(k: nat): seq<Step> {
    if k == 0 then [] else Signals(k - 1) + [Signal]
  }

  /** The queue of a worker that was told to stop: the job is its last one, if it could take it. */
  predicate Told(v: Worker, w: Worker) {
    && w.phase == v.phase && w.begun == v.begun && w.refused == v.refused
    && w.queue == if Busy(v) then v.queue else v.queue + [Shutdown]
  }

  lemma {:induction false} TellsInOrder(s: State, k: nat)
    requires s.accepting == Signalling(0) && k <= |s.workers|
    ensures var t := After(s, Signals(k));
            && t.accepting == Signalling(k) && |t.workers| == |s.workers| && t.shutdown == s.shutdown
            && (forall j :: 0 <= j < k ==> Told(s.workers[j], t.workers[j]))
            && (forall j :: k <= j < |s.workers| ==> t.workers[j] == s.workers[j])
  {
    if k > 0 {
      TellsInOrder(s, k - 1);
      assert Signals(k)[..k - 1] == Signals(k - 1) by { SignalsLength(k - 1); }
      SignalsLength(k);
    }
  }

  lemma {:induction false} SignalsLength(k: nat)
    ensures |Signals(k)| == k
  {
    if k > 0 {
      SignalsLength(k - 1);
    }
  }

  /** With the flag up the next poll ends the accept loop: every worker is told to stop, and the loop returns. */
  lemma AcceptLoopEnds(s: State)
    requires s.shutdown && (s.accepting.Polling? || s.accepting.Draining?)
    ensures var t := After(s, [EndDrain, Poll(Ready)] + Signals(|s.workers| + 1));
            && t.accepting.Returned? && |t.workers| == |s.workers|
            && forall j :: 0 <= j < |s.workers| ==> Told(s.workers[j], t.workers[j])
  {
    var n := |s.workers|;
    var u := Next(Next(s, EndDrain), Poll(Ready));
    AfterTwo(s, EndDrain, Poll(Ready));
    AfterConcat(s, [EndDrain, Poll(Ready)], Signals(n + 1));
    TellsInOrder(u, n);
    SignalsLength(n);
    assert Signals(n + 1)[..n] == Signals(n);
  }

  /** A worker that receives the job stops, and so does one that waits when the accept loop is gone. */
  lemma WaitingStops(s: State, i: nat)
    requires i < |s.workers| && s.workers[i].phase.Receiving?
    ensures s.workers[i].queue != [] && s.workers[i].queue[0].Shutdown? ==>
              Next(s, Receive(i)).workers
                == s.workers[i := s.workers[i].(queue := s.workers[i].queue[1..], phase := Stopped)]
    ensures s.workers[i].queue == [] && s.accepting.Returned? ==>
              After(s, [DropSenders, Receive(i)]).workers == s.workers[i := s.workers[i].(phase := Stopped)]
  {
    AfterTwo(s, DropSenders, Receive(i));
  }
}
