/** The accept loop and its worker threads, as interleaved steps. */
module Pool {

  /** How many jobs the channel of a worker holds. */
  const QUEUE_BOUND: nat := 8

  /** Connections are numbered in the order in which they are dispatched. */
  datatype Job = Connection(number: nat) | Shutdown

  /** Where a worker is in its loop. */
  datatype Phase = AtTop | Receiving | Serving | Stopped

  /**
   A worker with its channel. `taken` and `refused` are the connections that did and did not get into
   the channel, `begun` those it has begun to serve, and `ids` the identifiers it gave them.
   */
  datatype Worker = Worker(queue: seq<Job>, phase: Phase, connSeq: nat,
                           taken: seq<nat>, refused: seq<nat>, begun: seq<nat>, ids: seq<nat>)

  const IDLE: Worker := Worker([], AtTop, 0, [], [], [], [])

  /** Where the accept loop is. */
  datatype Accepting = Polling | Draining | Signalling(next: nat) | Returned

  datatype State = State(workers: seq<Worker>, shutdown: bool, nextWorker: nat, accepting: Accepting,
                         disconnected: bool)

  datatype PollResult = Ready | Interrupted | PollFailed

  datatype Step =
    | RaiseFlag
    | Poll(result: PollResult)
    | Dispatch
    | EndDrain
    | Signal
    | DropSenders
    | CheckFlag(worker: nat)
    | Receive(worker: nat)
    | TimeOut(worker: nat)
    | Finish(worker: nat)

  // ── What each step does ────────────────────────────────────────────────────────

  /** The channel takes a job: its receiver is alive and it is not full. */
  predicate Accepts(w: Worker) {
    !w.phase.Stopped? && |w.queue| < QUEUE_BOUND
  }

  /** `try_send` of a connection, which is dropped if the channel does not take it. */
  function TrySend(w: Worker, number: nat): Worker {
    if Accepts(w) then w.(queue := w.queue + [Connection(number)], taken := w.taken + [number])
    else w.(refused := w.refused + [number])
  }

  function TrySendShutdown(w: Worker): Worker {
    if Accepts(w) then w.(queue := w.queue + [Shutdown]) else w
  }

  const ID_STRIDE: nat := 100_000

  function ConnId(worker: nat, connSeq: nat): nat {
    worker * ID_STRIDE + connSeq
  }

  /** `recv_timeout` that does not time out. */
  function Received(w: Worker, id: nat, disconnected: bool): Worker {
    if w.queue == [] then (if disconnected then w.(phase := Stopped) else w)
    else match w.queue[0]
      case Shutdown => w.(queue := w.queue[1..], phase := Stopped)
      case Connection(number) =>
        w.(queue := w.queue[1..], phase := Serving, connSeq := w.connSeq + 1,
           begun := w.begun + [number], ids := w.ids + [ConnId(id, w.connSeq + 1)])
  }

  function WorkerStep(s: State, i: nat, step: Step): Worker
    requires i < |s.workers|
  {
    var w := s.workers[i];
    match (step, w.phase)
    case (CheckFlag(_), AtTop) => w.(phase := if s.shutdown then Stopped else Receiving)
    case (Receive(_), Receiving) => Received(w, i, s.disconnected)
    case (TimeOut(_), Receiving) => w.(phase := AtTop)
    case (Finish(_), Serving) => w.(phase := AtTop)
    case _ => w
  }

  /** The state after a step; a step whose thread is elsewhere in its loop does nothing. */
  function Next(s: State, step: Step): State {
    match step
    case RaiseFlag => s.(shutdown := true)
    case Poll(result) =>
      if !s.accepting.Polling? || result.Interrupted? then s
      else if result.PollFailed? then s.(accepting := Returned)
      else s.(accepting := if s.shutdown then Signalling(0) else Draining)
    case Dispatch =>
      if !s.accepting.Draining? || s.workers == [] then s else
      var i := s.nextWorker % |s.workers|;
      s.(nextWorker := s.nextWorker + 1, workers := s.workers[i := TrySend(s.workers[i], s.nextWorker)])
    case EndDrain => if s.accepting.Draining? then s.(accepting := Polling) else s
    case Signal =>
      if !s.accepting.Signalling? then s
      else if s.accepting.next >= |s.workers| then s.(accepting := Returned)
      else
        var i := s.accepting.next;
        s.(accepting := Signalling(i + 1), workers := s.workers[i := TrySendShutdown(s.workers[i])])
    case DropSenders => if s.accepting.Returned? then s.(disconnected := true) else s
    case _ => if step.worker < |s.workers|
      then s.(workers := s.workers[step.worker := WorkerStep(s, step.worker, step)]) else s
  }

  function After(s: State, schedule: seq<Step>): State {
    if schedule == [] then s else Next(After(s, schedule[..|schedule| - 1]), schedule[|schedule| - 1])
  }

  function Initial(n: nat): State {
    State(seq(n, _ => IDLE), false, 0, Polling, false)
  }

  // ── The program ────────────────────────────────────────────────────────────────

  class Server {
    var workers: seq<Worker>
    var shutdown: bool
    var nextWorker: nat
    var accepting: Accepting
    var disconnected: bool

    function Value(): State
      reads this
    {
      State(workers, shutdown, nextWorker, accepting, disconnected)
    }

    constructor (n: nat)
      ensures Value() == Initial(n)
    {
      workers := seq(n, _ => IDLE);
      shutdown, nextWorker, accepting, disconnected := false, 0, Polling, false;
    }

    /** `poll`, then the test of the flag. */
    method PollOnce(result: PollResult)
      requires accepting.Polling?
      modifies this
      ensures Value() == Next(old(Value()), Poll(result))
    {
      match result {
        case Interrupted => return;
        case PollFailed => accepting := Returned;
        case Ready =>
          if shutdown {
            accepting := Signalling(0);
          } else {
            accepting := Draining;
          }
      }
    }

    /** Hand an accepted connection to the next worker; the turn passes on even if it is dropped. */
    method DispatchOne()
      requires accepting.Draining? && workers != []
      modifies this
      ensures Value() == Next(old(Value()), Dispatch)
    {
      var i, number := nextWorker % |workers|, nextWorker;
      nextWorker := nextWorker + 1;
      var w := workers[i];
      if !w.phase.Stopped? && |w.queue| < QUEUE_BOUND {
        w := w.(queue := w.queue + [Connection(number)], taken := w.taken + [number]);
      } else {
        w := w.(refused := w.refused + [number]);
      }
      workers := workers[i := w];
    }

    /** One turn of the loop that signals the workers to stop. */
    method SignalOne()
      requires accepting.Signalling?
      modifies this
      ensures Value() == Next(old(Value()), Signal)
    {
      var i := accepting.next;
      if i >= |workers| {
        accepting := Returned;
        return;
      }
      if Accepts(workers[i]) {
        workers := workers[i := workers[i].(queue := workers[i].queue + [Shutdown])];
      }
      accepting := Signalling(i + 1);
    }

    /** The test at the top of the worker loop. */
    method TestFlag(i: nat)
      requires i < |workers| && workers[i].phase.AtTop?
      modifies this
      ensures Value() == Next(old(Value()), CheckFlag(i))
    {
      if shutdown {
        workers := workers[i := workers[i].(phase := Stopped)];
      } else {
        workers := workers[i := workers[i].(phase := Receiving)];
      }
    }

    /** The worker wakes up with a job, or because the channel is closed. */
    method ReceiveJob(i: nat)
      requires i < |workers| && workers[i].phase.Receiving?
      modifies this
      ensures Value() == Next(old(Value()), Receive(i))
    {
      var w := workers[i];
      if w.queue == [] {
        if disconnected {
          w := w.(phase := Stopped);
        }
      } else {
        var job := w.queue[0];
        w := w.(queue := w.queue[1..]);
        match job {
          case Shutdown =>
            w := w.(phase := Stopped);
          case Connection(number) =>
            w := w.(connSeq := w.connSeq + 1);
            var connId := i * 100_000 + w.connSeq;
            w := w.(phase := Serving, begun := w.begun + [number], ids := w.ids + [connId]);
        }
      }
      workers := workers[i := w];
    }

    /** The whole program under any schedule of its threads. */
    method Run(schedule: seq<Step>)
      modifies this
      ensures Value() == After(old(Value()), schedule)
    {
      for k := 0 to |schedule|
        invariant Value() == After(old(Value()), schedule[..k])
      {
        ghost var before := schedule[..k + 1];
        assert before[..k] == schedule[..k];
        match schedule[k] {
          case RaiseFlag => shutdown := true;
          case Poll(result) =>
            if accepting.Polling? {
              PollOnce(result);
            }
          case Dispatch =>
            if accepting.Draining? && workers != [] {
              DispatchOne();
            }
          case EndDrain =>
            if accepting.Draining? {
              accepting := Polling;
            }
          case Signal =>
            if accepting.Signalling? {
              SignalOne();
            }
          case DropSenders =>
            if accepting.Returned? {
              disconnected := true;
            }
          case CheckFlag(i) =>
            if i < |workers| && workers[i].phase.AtTop? {
              TestFlag(i);
            }
          case Receive(i) =>
            if i < |workers| && workers[i].phase.Receiving? {
              ReceiveJob(i);
            }
          case TimeOut(i) =>
            if i < |workers| && workers[i].phase.Receiving? {
              workers := workers[i := workers[i].(phase := AtTop)];
            }
          case Finish(i) =>
            if i < |workers| && workers[i].phase.Serving? {
              workers := workers[i := workers[i].(phase := AtTop)];
            }
        }
      }
      assert schedule[..|schedule|] == schedule;
    }
  }
}
