/** The libuv worker pool, one step per critical section (threadpool.c). */
module Pool {
  import opened Lists

  type Req = nat

  datatype Kind = Cpu | SlowIo

  datatype Item = Work(req: Req) | RunSlow | Exit

  datatype Worker = AtLoop | Idle | Busy(req: Req, slow: bool) | Returning(slow: bool) | Gone

  /** Where a request is. */
  datatype Place = Queued | Pending | Running(worker: nat) | Cancelling | Finished | Draining | Delivered

  datatype Pool = Pool(
    wq: seq<Item>, slowPending: seq<Req>, idle: nat, slowRunning: nat, workers: seq<Worker>,
    cancelling: seq<Req>,       // taken out by uv__work_cancel, not yet posted to the loop
    finished: seq<Req>,         // the loop's queue
    draining: seq<Req>,         // moved out by uv__work_done
    delivered: seq<(Req, bool)>, // with the flag ECANCELED
    ran: set<Req>,              // requests whose work function was called
    cancelled: set<Req>,        // requests whose work is uv__cancelled
    place: map<Req, Place>)

  function Threshold(s: Pool): nat
  {
    (|s.workers| + 1) / 2
  }

  // ---------- the invariant ----------

  function SlowWorkers(workers: seq<Worker>): nat
  {
    if workers == [] then 0
    else SlowWorkers(workers[..|workers| - 1]) + if IsSlow(workers[|workers| - 1]) then 1 else 0
  }

  predicate IsSlow(w: Worker)
  {
    (w.Busy? || w.Returning?) && w.slow
  }

  function IdleWorkers(workers: seq<Worker>): nat
  {
    if workers == [] then 0
    else IdleWorkers(workers[..|workers| - 1]) + if workers[|workers| - 1].Idle? then 1 else 0
  }

  lemma {:induction false} UpdateCounts(workers: seq<Worker>, t: nat, w: Worker)
    requires t < |workers|
    ensures SlowWorkers(workers[t := w]) == SlowWorkers(workers) - (if IsSlow(workers[t]) then 1 else 0) +
            (if IsSlow(w) then 1 else 0)
    ensures IdleWorkers(workers[t := w]) == IdleWorkers(workers) - (if workers[t].Idle? then 1 else 0) +
            (if w.Idle? then 1 else 0)
  {
    var n := |workers| - 1;
    if t == n {
      assert workers[t := w][..n] == workers[..n];
    } else {
      UpdateCounts(workers[..n], t, w);
      assert workers[t := w][..n] == workers[..n][t := w];
    }
  }

  type Places = map<Req, Place>

  ghost predicate At(place: Places, r: Req, p: Place)
  {
    r in place && place[r] == p
  }

  /** The list holds exactly the requests in one place, once each. */
  ghost predicate ListAt(q: seq<Req>, place: Places, p: Place)
  {
    NoDups(q) && forall r: Req :: r in q <==> At(place, r, p)
  }

  ghost predicate QueueAt(wq: seq<Item>, place: Places)
  {
    NoDups(wq) && forall r: Req :: Work(r) in wq <==> At(place, r, Queued)
  }

  ghost predicate WorkersAt(workers: seq<Worker>, place: Places)
  {
    && (forall t: nat :: t < |workers| && workers[t].Busy? ==> At(place, workers[t].req, Running(t)))
    && (forall r: Req, t: nat :: At(place, r, Running(t)) ==> t < |workers| && workers[t].Busy? && workers[t].req == r)
  }

  /** The requests delivered are exactly those in that place, once each. */
  ghost predicate DeliveredAt(delivered: seq<(Req, bool)>, place: Places)
  {
    && (forall i :: 0 <= i < |delivered| ==> At(place, delivered[i].0, Delivered))
    && (forall r: Req :: At(place, r, Delivered) ==> exists i :: 0 <= i < |delivered| && delivered[i].0 == r)
    && (forall i, j :: 0 <= i < j < |delivered| ==> delivered[i].0 != delivered[j].0)
  }

  /** Every queue and every busy worker holds exactly the requests that are in that place, once each. */
  ghost predicate Placed(s: Pool)
  {
    && QueueAt(s.wq, s.place) && ListAt(s.slowPending, s.place, Pending) && ListAt(s.cancelling, s.place, Cancelling)
    && ListAt(s.finished, s.place, Finished) && ListAt(s.draining, s.place, Draining)
    && WorkersAt(s.workers, s.place)
  }

  // ---------- one request moves ----------

  lemma ListMoved(q: seq<Req>, q': seq<Req>, place: Places, p: Place, r: Req, to: Place)
    requires ListAt(q, place, p) && !(At(place, r, p) && to == p)
    requires if At(place, r, p) then NoDups(q') && forall y: Req :: y in q' <==> y in q && y != r
             else q' == if to == p then q + [r] else q
    ensures ListAt(q', place[r := to], p)
  {}

  lemma QueueMoved(q: seq<Item>, q': seq<Item>, place: Places, r: Req, to: Place)
    requires QueueAt(q, place) && !(At(place, r, Queued) && to == Queued)
    requires NoDups(q')
    requires forall y: Req :: Work(y) in q' <==> if y == r then to == Queued else Work(y) in q
    ensures QueueAt(q', place[r := to])
  {}

  /** Worker t picks the request up, or puts it down, or none is concerned. */
  lemma WorkersMoved(workers: seq<Worker>, workers': seq<Worker>, place: Places, r: Req, to: Place, t: nat, w: Worker)
    requires WorkersAt(workers, place) && t < |workers| && workers' == workers[t := w]
    requires workers[t].Busy? ==> workers[t].req == r && !w.Busy?
    requires r in place && place[r].Running? ==> place[r].worker == t
    requires if w.Busy? then w.req == r && to == Running(t) else !to.Running?
    ensures WorkersAt(workers', place[r := to])
  {
    var next := place[r := to];
    forall y: Req, u: nat | At(next, y, Running(u)) ensures u < |workers| && workers'[u].Busy? && workers'[u].req == y {
      assert y == r || At(place, y, Running(u));
    }
  }

  lemma WorkersStay(workers: seq<Worker>, place: Places, r: Req, to: Place)
    requires WorkersAt(workers, place) && !to.Running? && !(r in place && place[r].Running?)
    ensures WorkersAt(workers, place[r := to])
  {
    var next := place[r := to];
    forall y: Req, u: nat | At(next, y, Running(u)) ensures u < |workers| && workers[u].Busy? && workers[u].req == y {
      assert At(place, y, Running(u));
    }
  }

  predicate Outcome(p: Place, ran: bool, cancelled: bool)
  {
    match p
    case Queued => !ran && !cancelled
    case Pending => !ran && !cancelled
    case Running(_) => ran && !cancelled
    case Cancelling => !ran && cancelled
    case Finished => ran != cancelled
    case Draining => ran != cancelled
    case Delivered => ran != cancelled
  }

  predicate Past(p: Place)
  {
    p.Cancelling? || p.Finished? || p.Draining? || p.Delivered?
  }

  /** A request past the queues either ran or was cancelled, never both; delivery tells which. */
  ghost predicate Outcomes(s: Pool)
  {
    && (forall r :: r in s.ran ==> r in s.place)
    && (forall r :: r in s.place ==> Outcome(s.place[r], r in s.ran, r in s.cancelled))
    && (forall i :: 0 <= i < |s.delivered| ==> DeliveryOk(s, s.delivered[i]))
  }

  ghost predicate DeliveryOk(s: Pool, d: (Req, bool))
  {
    d.0 in s.place && Past(s.place[d.0]) && (d.1 <==> d.0 in s.cancelled)
  }

  /** What holds whenever the mutex is free. */
  ghost predicate Inv(s: Pool)
  {
    && Placed(s) && Outcomes(s)
    && s.idle == IdleWorkers(s.workers)
    && s.slowRunning == SlowWorkers(s.workers) <= Threshold(s)
    && (s.slowPending != [] ==> RunSlow in s.wq)
  }

  // ---------- steps ----------

  /** post. */
  function Submit(s: Pool, r: Req, kind: Kind): Pool
  {
    if kind.SlowIo? then
      var t := s.(slowPending := s.slowPending + [r], place := s.place[r := Pending]);
      if RunSlow in s.wq then t else t.(wq := t.wq + [RunSlow])
    else s.(wq := s.wq + [Work(r)], place := s.place[r := Queued])
  }

  function PostExit(s: Pool): Pool
  {
    s.(wq := s.wq + [Exit])
  }

  /** The worker's waiting condition. */
  predicate MustWait(s: Pool)
  {
    s.wq == [] || (s.wq[0].RunSlow? && |s.wq| == 1 && s.slowRunning >= Threshold(s))
  }

  function Wait(s: Pool, t: nat): Pool
    requires t < |s.workers|
  {
    s.(idle := s.idle + 1, workers := s.workers[t := Idle])
  }

  /** Woken by a signal, or for no reason. */
  function Wake(s: Pool, t: nat): Pool
    requires t < |s.workers| && s.idle > 0
  {
    s.(idle := s.idle - 1, workers := s.workers[t := AtLoop])
  }

  /** The worker takes the head of the queue. */
  function Take(s: Pool, t: nat): Pool
    requires t < |s.workers| && s.wq != []
  {
    var q, rest := s.wq[0], s.wq[1..];
    match q
    case Exit => s.(workers := s.workers[t := Gone])
    case Work(r) =>
      s.(wq := rest, workers := s.workers[t := Busy(r, false)], ran := s.ran + {r}, place := s.place[r := Running(t)])
    case RunSlow =>
      if s.slowRunning >= Threshold(s) then s.(wq := rest + [RunSlow])
      else if s.slowPending == [] then s.(wq := rest)
      else
        var r, more := s.slowPending[0], s.slowPending[1..];
        s.(wq := if more != [] then rest + [RunSlow] else rest, slowPending := more, slowRunning := s.slowRunning + 1,
           workers := s.workers[t := Busy(r, true)], ran := s.ran + {r}, place := s.place[r := Running(t)])
  }

  /** The work is done: the request goes to the loop's queue. */
  function Publish(s: Pool, t: nat): Pool
    requires t < |s.workers| && s.workers[t].Busy?
  {
    var w := s.workers[t];
    s.(workers := s.workers[t := Returning(w.slow)], finished := s.finished + [w.req],
        place := s.place[w.req := Finished])
  }

  /** The worker is back at the top of its loop. */
  function Return(s: Pool, t: nat): Pool
    requires t < |s.workers| && s.workers[t].Returning? && (s.workers[t].slow ==> s.slowRunning > 0)
  {
    s.(workers := s.workers[t := AtLoop], slowRunning := if s.workers[t].slow then s.slowRunning - 1 else s.slowRunning)
  }

  /** uv__work_cancel tests whether the node of the request is linked and its work is not null.  A delivered
      request keeps its links, so one delivered as cancelled passes the test again. */
  ghost predicate Cancellable(s: Pool, r: Req)
  {
    && r in s.place
    && (s.place[r].Queued? || s.place[r].Pending?
        || ((s.place[r].Finished? || s.place[r].Draining? || s.place[r].Delivered?) && r in s.cancelled))
  }

  /** uv__work_cancel under both mutexes: out of whichever queue holds it. */
  function CancelRemove(s: Pool, r: Req): Pool
  {
    s.(wq := Without(s.wq, Work(r)), slowPending := Without(s.slowPending, r), finished := Without(s.finished, r),
       draining := Without(s.draining, r), cancelling := s.cancelling + [r], cancelled := s.cancelled + {r},
       place := s.place[r := Cancelling])
  }

  /** uv__work_cancel, second part: onto the loop's queue. */
  function CancelPost(s: Pool, r: Req): Pool
  {
    s.(cancelling := Without(s.cancelling, r), finished := s.finished + [r], place := s.place[r := Finished])
  }

  /** uv__work_done moves the whole queue out. */
  function Drain(s: Pool): Pool
  {
    s.(finished := [], draining := s.finished,
       place := map r | r in s.place :: if s.place[r].Finished? then Draining else s.place[r])
  }

  /** uv__work_done calls one done function. */
  function Deliver(s: Pool): Pool
    requires s.draining != []
  {
    var r := s.draining[0];
    s.(draining := s.draining[1..], delivered := s.delivered + [(r, r in s.cancelled)],
        place := s.place[r := Delivered])
  }

  datatype Step =
    | DoSubmit(r: Req, kind: Kind) | DoExit | DoWait(t: nat) | DoWake(t: nat) | DoTake(t: nat)
        | DoPublish(t: nat) | DoReturn(t: nat)
    | DoCancel(r: Req) | DoCancelPost(r: Req) | DoDrain | DoDeliver

  ghost predicate Next(s: Pool, u: Pool, step: Step)
  {
    match step
    case DoSubmit(r, kind) => r !in s.place && r !in s.cancelled && u == Submit(s, r, kind)
    case DoExit => Exit !in s.wq && u == PostExit(s)
    case DoWait(t) => t < |s.workers| && s.workers[t].AtLoop? && MustWait(s) && u == Wait(s, t)
    case DoWake(t) => t < |s.workers| && s.workers[t].Idle? && s.idle > 0 && u == Wake(s, t)
    case DoTake(t) => t < |s.workers| && s.workers[t].AtLoop? && !MustWait(s) && u == Take(s, t)
    case DoPublish(t) => t < |s.workers| && s.workers[t].Busy? && u == Publish(s, t)
    case DoReturn(t) => t < |s.workers| && s.workers[t].Returning? && (s.workers[t].slow ==> s.slowRunning > 0)
        && u == Return(s, t)
    case DoCancel(r) => Cancellable(s, r) && u == CancelRemove(s, r)
    case DoCancelPost(r) => r in s.cancelling && u == CancelPost(s, r)
    case DoDrain => s.draining == [] && u == Drain(s)
    case DoDeliver => s.draining != [] && u == Deliver(s)
  }

  ghost predicate Init(s: Pool)
  {
    && s.wq == [] && s.slowPending == [] && s.cancelling == [] && s.finished == [] && s.draining == []
       && s.delivered == []
    && s.ran == {} && s.cancelled == {} && s.place == map[] && s.idle == 0 && s.slowRunning == 0
    && forall t :: 0 <= t < |s.workers| ==> s.workers[t] == AtLoop
  }

  // ---------- every step keeps the invariant ----------

  /** The lists that a move does not concern. */
  lemma OthersStay(s: Pool, r: Req, to: Place)
    requires Placed(s)
    ensures !At(s.place, r, Pending) && to != Pending ==> ListAt(s.slowPending, s.place[r := to], Pending)
    ensures !At(s.place, r, Cancelling) && to != Cancelling ==> ListAt(s.cancelling, s.place[r := to], Cancelling)
    ensures !At(s.place, r, Finished) && to != Finished ==> ListAt(s.finished, s.place[r := to], Finished)
    ensures !At(s.place, r, Draining) && to != Draining ==> ListAt(s.draining, s.place[r := to], Draining)
    ensures !At(s.place, r, Queued) && to != Queued ==> QueueAt(s.wq, s.place[r := to])
    ensures !(r in s.place && s.place[r].Running?) && !to.Running? ==> WorkersAt(s.workers, s.place[r := to])
  {
    if !(r in s.place && s.place[r].Running?) && !to.Running? { WorkersStay(s.workers, s.place, r, to); }
  }

  lemma SubmitKeeps(s: Pool, r: Req, kind: Kind)
    requires Inv(s) && r !in s.place && r !in s.cancelled
    ensures Inv(Submit(s, r, kind))
  {
    hide ListAt, QueueAt, WorkersAt;
    var to := if kind.SlowIo? then Pending else Queued;
    OthersStay(s, r, to);
    QueueNoDups(s.wq, s.place);
    if kind.SlowIo? {
      ListMoved(s.slowPending, s.slowPending + [r], s.place, Pending, r, to);
      QueueMoved(s.wq, Submit(s, r, kind).wq, s.place, r, to);
    } else {
      QueueMoved(s.wq, s.wq + [Work(r)], s.place, r, to);
    }
  }

  lemma QueueNoDups(wq: seq<Item>, place: Places)
    requires QueueAt(wq, place)
    ensures NoDups(wq) && forall r: Req :: Work(r) in wq <==> At(place, r, Queued)
  {}

  lemma ExitKeeps(s: Pool)
    requires Inv(s) && Exit !in s.wq
    ensures Inv(PostExit(s))
  {}

  lemma WorkerIdles(s: Pool, t: nat, w: Worker)
    requires Inv(s) && t < |s.workers| && !s.workers[t].Busy? && !w.Busy?
    ensures WorkersAt(s.workers[t := w], s.place)
  {}

  lemma WaitKeeps(s: Pool, t: nat)
    requires Inv(s) && t < |s.workers|
    ensures s.workers[t].AtLoop? ==> Inv(Wait(s, t))
    ensures s.workers[t].Idle? && s.idle > 0 ==> Inv(Wake(s, t))
  {
    hide ListAt, QueueAt, WorkersAt;
    UpdateCounts(s.workers, t, Idle);
    UpdateCounts(s.workers, t, AtLoop);
    if s.workers[t].AtLoop? || s.workers[t].Idle? {
      WorkerIdles(s, t, Idle);
      WorkerIdles(s, t, AtLoop);
    }
  }

  lemma TakeWork(s: Pool, t: nat)
    requires Inv(s) && t < |s.workers| && s.workers[t].AtLoop? && s.wq != [] && s.wq[0].Work?
    ensures Inv(Take(s, t))
  {
    hide ListAt, WorkersAt;
    var r, w := s.wq[0].req, Busy(s.wq[0].req, false);
    assert Work(r) in s.wq && At(s.place, r, Queued);
    Pop(s.wq);
    OthersStay(s, r, Running(t));
    QueueMoved(s.wq, s.wq[1..], s.place, r, Running(t));
    WorkersMoved(s.workers, s.workers[t := w], s.place, r, Running(t), t, w);
    UpdateCounts(s.workers, t, w);
  }

  lemma TakeSlow(s: Pool, t: nat)
    requires Inv(s) && t < |s.workers| && s.workers[t].AtLoop? && s.wq != [] && s.wq[0].RunSlow?
    requires s.slowPending != [] && s.slowRunning < Threshold(s)
    ensures Inv(Take(s, t))
  {
    hide QueueAt, WorkersAt, ListAt;
    var r := s.slowPending[0];
    var w, u := Busy(r, true), Take(s, t);
    ListHead(s.slowPending, s.place, Pending);
    OthersStay(s, r, Running(t));
    ListMoved(s.slowPending, s.slowPending[1..], s.place, Pending, r, Running(t));
    QueueNoDups(s.wq, s.place);
    Pop(s.wq);
    QueueMoved(s.wq, u.wq, s.place, r, Running(t));
    WorkersMoved(s.workers, s.workers[t := w], s.place, r, Running(t), t, w);
    UpdateCounts(s.workers, t, w);
  }

  lemma ListHead(q: seq<Req>, place: Places, p: Place)
    requires ListAt(q, place, p) && q != []
    ensures At(place, q[0], p) && NoDups(q[1..]) && forall y: Req :: y in q[1..] <==> y in q && y != q[0]
  {}

  lemma TakeKeeps(s: Pool, t: nat)
    requires Inv(s) && t < |s.workers| && s.workers[t].AtLoop? && s.wq != []
    ensures Inv(Take(s, t))
  {
    hide ListAt, QueueAt, WorkersAt;
    match s.wq[0]
    case Work(r) => TakeWork(s, t);
    case Exit =>
      WorkerIdles(s, t, Gone);
      UpdateCounts(s.workers, t, Gone);
    case RunSlow =>
      if s.slowRunning < Threshold(s) && s.slowPending != [] {
        TakeSlow(s, t);
      } else {
        Requeue(s);
      }
  }

  lemma Requeue(s: Pool)
    requires Inv(s) && s.wq != [] && s.wq[0].RunSlow?
    ensures QueueAt(s.wq[1..], s.place) && QueueAt(s.wq[1..] + [RunSlow], s.place)
  {}

  lemma PublishKeeps(s: Pool, t: nat)
    requires Inv(s) && t < |s.workers| && s.workers[t].Busy?
    ensures Inv(Publish(s, t))
  {
    hide ListAt, QueueAt;
    var r, w := s.workers[t].req, Returning(s.workers[t].slow);
    assert At(s.place, r, Running(t));
    OthersStay(s, r, Finished);
    ListMoved(s.finished, s.finished + [r], s.place, Finished, r, Finished);
    WorkersMoved(s.workers, s.workers[t := w], s.place, r, Finished, t, w);
    UpdateCounts(s.workers, t, w);
  }

  lemma ReturnKeeps(s: Pool, t: nat)
    requires Inv(s) && t < |s.workers| && s.workers[t].Returning? && (s.workers[t].slow ==> s.slowRunning > 0)
    ensures Inv(Return(s, t))
  {
    hide ListAt, QueueAt, WorkersAt;
    WorkerIdles(s, t, AtLoop);
    UpdateCounts(s.workers, t, AtLoop);
  }

  lemma RemoveFrom(q: seq<Req>, place: Places, p: Place, r: Req, to: Place)
    requires ListAt(q, place, p) && to != p
    ensures ListAt(Without(q, r), place[r := to], p)
  {}

  lemma CancelKeeps(s: Pool, r: Req)
    requires Inv(s) && Cancellable(s, r)
    ensures Inv(CancelRemove(s, r))
  {
    hide ListAt, WorkersAt, Without;
    var to := Cancelling;
    OthersStay(s, r, to);
    RemoveFrom(s.slowPending, s.place, Pending, r, to);
    RemoveFrom(s.finished, s.place, Finished, r, to);
    RemoveFrom(s.draining, s.place, Draining, r, to);
    ListMoved(s.cancelling, s.cancelling + [r], s.place, Cancelling, r, to);
    QueueMoved(s.wq, Without(s.wq, Work(r)), s.place, r, to);
    StillPending(s.slowPending, r);
  }

  lemma StillPending(q: seq<Req>, r: Req)
    ensures Without(q, r) != [] ==> q != []
  {}

  lemma CancelPostKeeps(s: Pool, r: Req)
    requires Inv(s) && r in s.cancelling
    ensures Inv(CancelPost(s, r))
  {
    hide QueueAt, WorkersAt, Without;
    assert At(s.place, r, Cancelling);
    OthersStay(s, r, Finished);
    RemoveFrom(s.cancelling, s.place, Cancelling, r, Finished);
    ListMoved(s.finished, s.finished + [r], s.place, Finished, r, Finished);
  }

  lemma DrainKeeps(s: Pool)
    requires Inv(s) && s.draining == []
    ensures Inv(Drain(s))
  {
    var u := Drain(s);
    forall r: Req, p: Place ensures At(u.place, r, p) <==> if p.Draining? then At(s.place, r, Finished)
        || At(s.place, r, Draining)
                                                          else !p.Finished? && At(s.place, r, p)
    {
    }
    forall i | 0 <= i < |u.delivered| ensures DeliveryOk(u, u.delivered[i]) {
      assert DeliveryOk(s, s.delivered[i]);
    }
  }

  lemma DeliverKeeps(s: Pool)
    requires Inv(s) && s.draining != []
    ensures Inv(Deliver(s))
  {
    hide ListAt, QueueAt, WorkersAt;
    var r := s.draining[0];
    ListHead(s.draining, s.place, Draining);
    OthersStay(s, r, Delivered);
    ListMoved(s.draining, s.draining[1..], s.place, Draining, r, Delivered);
  }

  lemma StepKeepsInv(s: Pool, u: Pool, step: Step)
    requires Inv(s) && Next(s, u, step)
    ensures Inv(u) && s.place.Keys <= u.place.Keys && s.delivered <= u.delivered && s.ran <= u.ran
  {
    hide Inv;
    match step
    case DoSubmit(r, kind) => SubmitKeeps(s, r, kind);
    case DoExit => ExitKeeps(s);
    case DoWait(t) => WaitKeeps(s, t);
    case DoWake(t) => WaitKeeps(s, t);
    case DoTake(t) => TakeKeeps(s, t);
    case DoPublish(t) => PublishKeeps(s, t);
    case DoReturn(t) => ReturnKeeps(s, t);
    case DoCancel(r) => CancelKeeps(s, r);
    case DoCancelPost(r) => CancelPostKeeps(s, r);
    case DoDrain => DrainKeeps(s);
    case DoDeliver => DeliverKeeps(s);
  }

  lemma {:induction false} NoneSlow(workers: seq<Worker>)
    requires forall t :: 0 <= t < |workers| ==> workers[t] == AtLoop
    ensures SlowWorkers(workers) == 0 && IdleWorkers(workers) == 0
  {
    if workers == [] {
    } else {
      NoneSlow(workers[..|workers| - 1]);
    }
  }

  ghost predicate Run(states: seq<Pool>, steps: seq<Step>)
  {
    && |states| == |steps| + 1 && Init(states[0])
    && forall i :: 0 <= i < |steps| ==> Next(states[i], states[i + 1], steps[i])
  }

  lemma {:induction false} RunsKeepInv(states: seq<Pool>, steps: seq<Step>, n: nat)
    requires Run(states, steps) && n < |states|
    ensures Inv(states[n])
  {
    if n == 0 {
      NoneSlow(states[0].workers);
    } else {
      RunsKeepInv(states, steps, n - 1);
      StepKeepsInv(states[n - 1], states[n], steps[n - 1]);
    }
  }

  /** In every state of every run: slow work keeps to half the threads, pending slow work has its message queued
      once, and a delivery says ECANCELED exactly when the work never ran. */
  lemma PoolPromises(states: seq<Pool>, steps: seq<Step>, n: nat)
    requires Run(states, steps) && n < |states|
    ensures states[n].slowRunning <= (|states[n].workers| + 1) / 2
    ensures states[n].slowPending != [] ==> multiset(states[n].wq)[RunSlow] == 1
    ensures forall i :: 0 <= i < |states[n].delivered| ==>
              (states[n].delivered[i].1 <==> states[n].delivered[i].0 !in states[n].ran)
  {
    RunsKeepInv(states, steps, n);
    var s := states[n];
    if s.slowPending != [] { CountOne(s.wq, RunSlow); }
    forall i | 0 <= i < |s.delivered| ensures s.delivered[i].1 <==> s.delivered[i].0 !in s.ran {
      assert DeliveryOk(s, s.delivered[i]);
    }
  }

  // ---------- first come, first served ----------

  /** Both wait, in that order, among the requests of their kind. */
  ghost predicate Ahead(s: Pool, a: Req, b: Req, kind: Kind)
  {
    if kind.Cpu? then Precedes(s.wq, Work(a), Work(b)) else Precedes(s.slowPending, a, b)
  }

  /** The earlier request has left the queue, or the later one never runs, or they still wait in order. */
  ghost predicate Queueing(s: Pool, a: Req, b: Req, kind: Kind)
  {
    a in s.ran || a in s.cancelled || b in s.cancelled || Ahead(s, a, b, kind)
  }

  lemma TakeInOrder(s: Pool, t: nat, a: Req, b: Req, kind: Kind)
    requires t < |s.workers| && s.wq != [] && Ahead(s, a, b, kind)
    ensures Queueing(Take(s, t), a, b, kind)
  {
    if kind.Cpu? {
      PrecedesTail(s.wq, [RunSlow], Work(a), Work(b));
      PrecedesTail(s.wq, [], Work(a), Work(b));
      assert s.wq[1..] + [] == s.wq[1..];
    } else {
      PrecedesTail(s.slowPending, [], a, b);
      assert s.slowPending[1..] + [] == s.slowPending[1..];
    }
  }

  lemma StepInOrder(s: Pool, u: Pool, step: Step, a: Req, b: Req, kind: Kind)
    requires Next(s, u, step) && Queueing(s, a, b, kind)
    ensures Queueing(u, a, b, kind)
  {
    if Ahead(s, a, b, kind) {
      match step
      case DoTake(t) => TakeInOrder(s, t, a, b, kind);
      case DoCancel(r) =>
        if r != a && r != b && kind.Cpu? { PrecedesWithout(s.wq, Work(r), Work(a), Work(b)); }
        if r != a && r != b && kind.SlowIo? { PrecedesWithout(s.slowPending, r, a, b); }
      case DoSubmit(r, k) =>
        if kind.Cpu? {
          PrecedesMore(s.wq, [Work(r)], Work(a), Work(b));
          PrecedesMore(s.wq, [RunSlow], Work(a), Work(b));
        } else {
          PrecedesMore(s.slowPending, [r], a, b);
        }
      case DoExit => if kind.Cpu? { PrecedesMore(s.wq, [Exit], Work(a), Work(b)); }
      case _ =>
    }
  }

  /** A new request stands behind every one of its kind that waits, and one that was there before has not been
      passed over. */
  lemma SubmitLast(s: Pool, a: Req, b: Req, kind: Kind)
    requires Inv(s) && a in s.place && b !in s.place
    requires At(s.place, a, if kind.Cpu? then Queued else Pending)
    ensures Ahead(Submit(s, b, kind), a, b, kind)
  {
    hide Outcomes, WorkersAt;
    var u := Submit(s, b, kind);
    if kind.Cpu? {
      var i :| 0 <= i < |s.wq| && s.wq[i] == Work(a);
      assert u.wq[i] == Work(a) && u.wq[|s.wq|] == Work(b);
    } else {
      var i :| 0 <= i < |s.slowPending| && s.slowPending[i] == a;
      assert u.slowPending[i] == a && u.slowPending[|s.slowPending|] == b;
    }
  }

  /** The request still waits in the queue of its kind, unless it ran or was cancelled. */
  ghost predicate Waits(s: Pool, a: Req, kind: Kind)
  {
    a in s.ran || a in s.cancelled || At(s.place, a, if kind.Cpu? then Queued else Pending)
  }

  lemma StepWaits(s: Pool, u: Pool, step: Step, a: Req, kind: Kind)
    requires Inv(s) && Next(s, u, step) && Waits(s, a, kind)
    ensures Waits(u, a, kind)
  {
    hide Outcomes, IdleWorkers, SlowWorkers, Threshold;
    match step
    case DoPublish(t) => assert At(s.place, s.workers[t].req, Running(t));
    case DoCancelPost(q) => assert At(s.place, q, Cancelling);
    case DoTake(t) => if !s.wq[0].Work? && s.slowPending != [] { ListHead(s.slowPending, s.place, Pending); }
    case DoDeliver => ListHead(s.draining, s.place, Draining);
    case _ =>
  }

  lemma RunStep(states: seq<Pool>, steps: seq<Step>, n: nat)
    requires Run(states, steps) && 0 < n < |states|
    ensures |steps| == |states| - 1 && Inv(states[n - 1]) && Next(states[n - 1], states[n], steps[n - 1])
            && Inv(states[n])
  {
    hide Inv, Next;
    RunsKeepInv(states, steps, n - 1);
    RunsKeepInv(states, steps, n);
  }

  lemma SubmitWaits(s: Pool, u: Pool, a: Req, kind: Kind)
    requires Next(s, u, DoSubmit(a, kind))
    ensures Waits(u, a, kind) && a in u.place
  {}

  lemma {:induction false} WaitsUntil(states: seq<Pool>, steps: seq<Step>, i: nat, n: nat, a: Req, kind: Kind)
    requires Run(states, steps) && i < n < |states| && steps[i] == DoSubmit(a, kind)
    ensures Waits(states[n], a, kind) && a in states[n].place
  {
    hide Inv, Next, Waits, Run;
    RunStep(states, steps, n);
    if n == i + 1 {
      SubmitWaits(states[i], states[n], a, kind);
    } else {
      WaitsUntil(states, steps, i, n - 1, a, kind);
      StepWaits(states[n - 1], states[n], steps[n - 1], a, kind);
      StepKeepsInv(states[n - 1], states[n], steps[n - 1]);
    }
  }

  lemma {:induction false} QueueingUntil(states: seq<Pool>, steps: seq<Step>, i: nat, j: nat, n: nat, a: Req, b: Req,
                                         kind: Kind)
    requires Run(states, steps) && i < j < n < |states|
    requires steps[i] == DoSubmit(a, kind) && steps[j] == DoSubmit(b, kind)
    ensures Queueing(states[n], a, b, kind)
  {
    hide Inv, Next, Waits, Queueing, Run;
    RunStep(states, steps, n);
    if n == j + 1 {
      WaitsUntil(states, steps, i, j, a, kind);
      SubmitQueues(states[j], states[n], a, b, kind);
    } else {
      QueueingUntil(states, steps, i, j, n - 1, a, b, kind);
      StepInOrder(states[n - 1], states[n], steps[n - 1], a, b, kind);
    }
  }

  lemma SubmitQueues(s: Pool, u: Pool, a: Req, b: Req, kind: Kind)
    requires Inv(s) && a in s.place && Next(s, u, DoSubmit(b, kind)) && Waits(s, a, kind)
    ensures Queueing(u, a, b, kind)
  {
    hide Inv, Ahead;
    if a !in s.ran && a !in s.cancelled { SubmitLast(s, a, b, kind); }
  }

  /** First come, first served: of two requests of one kind the later is not started before the earlier, unless the
      earlier was cancelled. */
  lemma ServedInOrder(states: seq<Pool>, steps: seq<Step>, i: nat, j: nat, n: nat, a: Req, b: Req, kind: Kind)
    requires Run(states, steps) && i < j < n < |states|
    requires steps[i] == DoSubmit(a, kind) && steps[j] == DoSubmit(b, kind)
    ensures b in states[n].ran ==> a in states[n].ran || a in states[n].cancelled
  {
    hide Run, Next, WorkersAt;
    QueueingUntil(states, steps, i, j, n, a, b, kind);
    RunsKeepInv(states, steps, n);
    var s := states[n];
    if Ahead(s, a, b, kind) { assert At(s.place, b, if kind.Cpu? then Queued else Pending); }
  }

  /** A worker at the top of its loop waits exactly when there is nothing to take, and slow work is all there is and
      already keeps half of the threads busy. */
  lemma WaitsExactly(s: Pool, t: nat)
    requires t < |s.workers| && s.workers[t].AtLoop?
    ensures (exists u :: Next(s, u, DoWait(t))) <==>
            s.wq == [] || (s.wq == [RunSlow] && 2 * s.slowRunning >= |s.workers|)
    ensures (exists u :: Next(s, u, DoWait(t))) <==> !exists u :: Next(s, u, DoTake(t))
  {
    assert Next(s, Wait(s, t), DoWait(t)) <==> MustWait(s);
    if s.wq != [] { assert Next(s, Take(s, t), DoTake(t)) <==> !MustWait(s); }
  }

  /** What a worker takes: the head of the queue, or the first slow request when fewer than half of the threads run
      slow work. */
  lemma TakesTheFirst(s: Pool, u: Pool, t: nat)
    requires Next(s, u, DoTake(t))
    ensures s.wq[0].Work? ==> u.workers[t] == Busy(s.wq[0].req, false) && u.wq == s.wq[1..]
    ensures s.wq[0].RunSlow? && 2 * s.slowRunning < |s.workers| && s.slowPending != [] ==>
              u.workers[t] == Busy(s.slowPending[0], true) && u.slowPending == s.slowPending[1..]
              && u.wq == s.wq[1..] + if |s.slowPending| > 1 then [RunSlow] else []
    ensures s.wq[0].RunSlow? && 2 * s.slowRunning >= |s.workers| ==>
            u.workers == s.workers && u.wq == s.wq[1..] + [RunSlow]
    ensures s.wq[0].RunSlow? && 2 * s.slowRunning < |s.workers| && s.slowPending == [] ==>
              u.workers == s.workers && u.wq == s.wq[1..]
    ensures s.wq[0].Exit? ==> u.workers[t] == Gone && u.wq == s.wq
    ensures forall v :: 0 <= v < |s.workers| && v != t ==> u.workers[v] == s.workers[v]
  {}

  // ---------- results come back in the order in which the work ended ----------

  ghost predicate Has(d: seq<(Req, bool)>, r: Req)
  {
    exists i: nat :: i < |d| && d[i].0 == r
  }

  /** Every delivery of b follows one of a. */
  ghost predicate Follows(d: seq<(Req, bool)>, a: Req, b: Req)
  {
    Has(d, a) && forall j: nat :: j < |d| && d[j].0 == b ==> Has(d[..j], a)
  }

  ghost predicate NotAhead(q: seq<Req>, b: Req, a: Req)
  {
    a in q && (b in q ==> Precedes(q, a, b))
  }

  /** Wherever a is on its way out, b is not ahead of it. */
  ghost predicate ComesBack(s: Pool, a: Req, b: Req)
  {
    || Follows(s.delivered, a, b)
    || (!Has(s.delivered, b) && NotAhead(s.draining, b, a))
    || (!Has(s.delivered, b) && b !in s.draining && NotAhead(s.finished, b, a))
  }

  /** The work was called and is over. */
  ghost predicate Over(s: Pool, r: Req)
  {
    r in s.ran && r in s.place
    && (s.place[r].Finished? || s.place[r].Draining? || (s.place[r].Delivered? && Has(s.delivered, r)))
  }

  lemma HasMore(d: seq<(Req, bool)>, e: (Req, bool), r: Req)
    ensures Has(d + [e], r) <==> Has(d, r) || e.0 == r
  {
    assert (d + [e])[|d|] == e;
    if i: nat :| i < |d| && d[i].0 == r { assert (d + [e])[i].0 == r; }
  }

  lemma StepOver(s: Pool, u: Pool, step: Step, r: Req)
    requires Inv(s) && Next(s, u, step) && Over(s, r)
    ensures Over(u, r) && step != DoCancel(r)
  {
    hide IdleWorkers, SlowWorkers, Threshold, Has;
    match step
    case DoPublish(t) => assert At(s.place, s.workers[t].req, Running(t));
    case DoCancelPost(q) => assert At(s.place, q, Cancelling);
    case DoTake(t) =>
      if s.wq[0].Work? {
        assert Work(s.wq[0].req) in s.wq && At(s.place, s.wq[0].req, Queued);
      } else if s.slowPending != [] {
        ListHead(s.slowPending, s.place, Pending);
      }
    case DoDeliver =>
      ListHead(s.draining, s.place, Draining);
      HasMore(s.delivered, (s.draining[0], s.draining[0] in s.cancelled), r);
    case _ =>
  }

  lemma FollowsMore(d: seq<(Req, bool)>, e: (Req, bool), a: Req, b: Req)
    ensures Follows(d, a, b) ==> Follows(d + [e], a, b)
    ensures !Has(d, b) && e.0 == a && a != b ==> Follows(d + [e], a, b)
    ensures Has(d + [e], b) <==> Has(d, b) || e.0 == b
  {
    HasMore(d, e, b);
    var f := d + [e];
    assert f[|d|] == e && forall i :: 0 <= i < |d| ==> f[i] == d[i];
    if Follows(d, a, b) {
      forall j: nat | j < |f| && f[j].0 == b ensures Has(f[..j], a) {
        if j < |d| { assert f[..j] == d[..j]; } else { assert f[..j] == d; }
      }
    }
    if !Has(d, b) && e.0 == a && a != b { assert forall j: nat :: j < |f| ==> f[j].0 != b; }
  }

  lemma DeliverInOrder(s: Pool, a: Req, b: Req)
    requires s.draining != [] && NoDups(s.draining) && a != b && ComesBack(s, a, b)
    ensures ComesBack(Deliver(s), a, b)
  {
    var r := s.draining[0];
    Pop(s.draining);
    FollowsMore(s.delivered, (r, r in s.cancelled), a, b);
    hide Follows, Has;
    if b in s.draining && Precedes(s.draining, a, b) {
      PrecedesTail(s.draining, [], a, b);
      assert s.draining[1..] + [] == s.draining[1..];
    }
  }

  lemma NotAheadMore(q: seq<Req>, r: Req, a: Req, b: Req)
    requires a != b && NotAhead(q, b, a)
    ensures NotAhead(q + [r], b, a)
  {
    if b in q {
      PrecedesMore(q, [r], a, b);
    } else if r == b {
      var i: nat :| i < |q| && q[i] == a;
      assert (q + [r])[i] == a && (q + [r])[|q|] == b;
    }
  }

  lemma NotAheadWithout(q: seq<Req>, r: Req, a: Req, b: Req)
    requires r != a && r != b && NoDups(q) && NotAhead(q, b, a)
    ensures NotAhead(Without(q, r), b, a)
  {
    if b in q { PrecedesWithout(q, r, a, b); }
  }

  lemma StepBack(s: Pool, u: Pool, step: Step, a: Req, b: Req)
    requires Inv(s) && Next(s, u, step) && Over(s, a) && Over(s, b) && a != b && ComesBack(s, a, b)
    ensures ComesBack(u, a, b)
  {
    StepOver(s, u, step, a);
    StepOver(s, u, step, b);
    hide Outcomes, WorkersAt, Over, QueueAt, Follows, Has;
    match step
    case DoDeliver => DeliverInOrder(s, a, b);
    case DoPublish(t) => if NotAhead(s.finished, b, a) { NotAheadMore(s.finished, s.workers[t].req, a, b); }
        assert At(s.place, s.workers[t].req, Running(t));
    case DoCancelPost(r) => if NotAhead(s.finished, b, a) { NotAheadMore(s.finished, r, a, b); }
    case DoCancel(r) =>
      if NotAhead(s.finished, b, a) { NotAheadWithout(s.finished, r, a, b); }
      if NotAhead(s.draining, b, a) { NotAheadWithout(s.draining, r, a, b); }
    case _ =>
  }

  lemma PublishedBack(s: Pool, u: Pool, t: nat, a: Req)
    requires Inv(s) && Next(s, u, DoPublish(t)) && Over(s, a)
    ensures a != s.workers[t].req && ComesBack(u, a, s.workers[t].req)
  {
    var b := s.workers[t].req;
    assert At(s.place, b, Running(t));
    forall i: nat | i < |s.delivered| ensures s.delivered[i].0 != b { assert DeliveryOk(s, s.delivered[i]); }
    if a in s.finished {
      var i :| 0 <= i < |s.finished| && s.finished[i] == a;
      assert (s.finished + [b])[i] == a && (s.finished + [b])[|s.finished|] == b;
    }
  }

  lemma {:induction false} OverUntil(states: seq<Pool>, steps: seq<Step>, i: nat, n: nat, t: nat, a: Req)
    requires Run(states, steps) && i < n < |states| && steps[i] == DoPublish(t)
    requires t < |states[i].workers| && states[i].workers[t].Busy? && states[i].workers[t].req == a
    ensures Over(states[n], a)
  {
    hide Inv, Next, Over, Run;
    RunStep(states, steps, n);
    if n == i + 1 {
      PublishOver(states[i], states[n], t);
    } else {
      OverUntil(states, steps, i, n - 1, t, a);
      StepOver(states[n - 1], states[n], steps[n - 1], a);
    }
  }

  lemma PublishOver(s: Pool, u: Pool, t: nat)
    requires Inv(s) && Next(s, u, DoPublish(t))
    ensures Over(u, s.workers[t].req)
  {
    assert At(s.place, s.workers[t].req, Running(t));
  }

  lemma {:induction false} BackUntil(states: seq<Pool>, steps: seq<Step>, i: nat, j: nat, n: nat, t: nat, v: nat,
                                     a: Req, b: Req)
    requires Run(states, steps) && i < j < n < |states| && steps[i] == DoPublish(t) && steps[j] == DoPublish(v)
    requires t < |states[i].workers| && states[i].workers[t].Busy? && states[i].workers[t].req == a
    requires v < |states[j].workers| && states[j].workers[v].Busy? && states[j].workers[v].req == b
    ensures a != b && ComesBack(states[n], a, b)
  {
    hide Inv, Next, ComesBack, Over, Run;
    RunStep(states, steps, n);
    OverUntil(states, steps, i, n - 1, t, a);
    if n == j + 1 {
      PublishedBack(states[j], states[n], v, a);
    } else {
      OverUntil(states, steps, j, n - 1, v, b);
      BackUntil(states, steps, i, j, n - 1, t, v, a, b);
      StepBack(states[n - 1], states[n], steps[n - 1], a, b);
    }
  }

  /** Results come back in the order in which the work ended: where the work of a was over before that of b, every
      delivery of b follows one of a. */
  lemma DeliveredInOrder(states: seq<Pool>, steps: seq<Step>, i: nat, j: nat, n: nat, t: nat, v: nat, a: Req, b: Req)
    requires Run(states, steps) && i < j < n < |states| && steps[i] == DoPublish(t) && steps[j] == DoPublish(v)
    requires t < |states[i].workers| && states[i].workers[t].Busy? && states[i].workers[t].req == a
    requires v < |states[j].workers| && states[j].workers[v].Busy? && states[j].workers[v].req == b
    ensures forall k: nat :: k < |states[n].delivered| && states[n].delivered[k].0 == b ==>
              exists l: nat :: l < k && states[n].delivered[l].0 == a
  {
    hide Run;
    BackUntil(states, steps, i, j, n, t, v, a, b);
    var d := states[n].delivered;
    forall k: nat | k < |d| && d[k].0 == b ensures exists l: nat :: l < k && d[l].0 == a {
      assert Follows(d, a, b);
      var l: nat :| l < |d[..k]| && d[..k][l].0 == a;
      assert l < k && d[l].0 == a;
    }
  }

  // ---------- how often a request is delivered ----------

  function Deliveries(delivered: seq<(Req, bool)>, r: Req): nat
  {
    if delivered == [] then 0
    else Deliveries(delivered[..|delivered| - 1], r) + if delivered[|delivered| - 1].0 == r then 1 else 0
  }

  /** A successful cancel of a request that was already delivered: it goes back to the loop's queue. */
  ghost predicate Revives(s: Pool, step: Step, r: Req)
  {
    step == DoCancel(r) && At(s.place, r, Delivered)
  }

  ghost function Revivals(states: seq<Pool>, steps: seq<Step>, n: nat, r: Req): nat
    requires n <= |steps| < |states|
  {
    if n == 0 then 0
    else Revivals(states, steps, n - 1, r) + if Revives(states[n - 1], steps[n - 1], r) then 1 else 0
  }

  ghost function Here(s: Pool, r: Req): nat
  {
    if At(s.place, r, Delivered) then 1 else 0
  }

  lemma DeliverCounts(s: Pool, r: Req)
    requires Inv(s) && s.draining != []
    ensures var u := Deliver(s); Deliveries(u.delivered, r) + Here(s, r) == Deliveries(s.delivered, r) + Here(u, r)
  {
    hide IdleWorkers, SlowWorkers, Outcomes, Threshold, WorkersAt;
    assert Deliver(s).delivered[..|s.delivered|] == s.delivered;
    ListHead(s.draining, s.place, Draining);
  }

  lemma StepDeliveries(s: Pool, u: Pool, step: Step, r: Req)
    requires Inv(s) && Next(s, u, step)
    ensures Deliveries(u.delivered, r) + Here(s, r)
            == Deliveries(s.delivered, r) + Here(u, r) + if Revives(s, step, r) then 1 else 0
  {
    hide IdleWorkers, SlowWorkers, Outcomes, Threshold;
    match step
    case DoDeliver => DeliverCounts(s, r);
    case DoTake(t) => TakenFromQueues(s, t);
    case DoPublish(t) => assert At(s.place, s.workers[t].req, Running(t));
    case DoCancelPost(q) => assert At(s.place, q, Cancelling);
    case _ =>
  }

  lemma TakenFromQueues(s: Pool, t: nat)
    requires Inv(s) && t < |s.workers| && s.wq != []
    ensures forall r: Req :: Here(Take(s, t), r) == Here(s, r)
  {
    hide WorkersAt;
    if s.wq[0].Work? {
      assert Work(s.wq[0].req) in s.wq && At(s.place, s.wq[0].req, Queued);
    } else if s.slowPending != [] {
      ListHead(s.slowPending, s.place, Pending);
    }
  }

  /** Conservation: each request has been delivered once for every time it was cancelled after a delivery, and
      once more if it rests delivered. */
  lemma {:induction false} DeliveryCount(states: seq<Pool>, steps: seq<Step>, n: nat, r: Req)
    requires Run(states, steps) && n < |states|
    ensures Deliveries(states[n].delivered, r) == Revivals(states, steps, n, r) + Here(states[n], r)
  {
    if n > 0 {
      DeliveryCount(states, steps, n - 1, r);
      RunsKeepInv(states, steps, n - 1);
      hide Inv, Next;
      StepDeliveries(states[n - 1], states[n], steps[n - 1], r);
    }
  }

  lemma {:induction false} DeliveriesSome(d: seq<(Req, bool)>, r: Req)
    ensures Deliveries(d, r) > 0 <==> exists i :: 0 <= i < |d| && d[i].0 == r
  {
    if d != [] {
      var n := |d| - 1;
      DeliveriesSome(d[..n], r);
      if i :| 0 <= i < n && d[..n][i].0 == r { assert d[i].0 == r; }
      if i :| 0 <= i < |d| && d[i].0 == r { assert i < n ==> d[..n][i].0 == r; }
      if d[n].0 == r { assert 0 <= n < |d|; }
    }
  }

  lemma {:induction false} DeliveriesOnce(d: seq<(Req, bool)>, r: Req)
    ensures Deliveries(d, r) > 1 <==> exists i, j :: 0 <= i < j < |d| && d[i].0 == d[j].0 == r
  {
    if d != [] {
      var n := |d| - 1;
      DeliveriesOnce(d[..n], r);
      DeliveriesSome(d[..n], r);
      if i, j :| 0 <= i < j < n && d[..n][i].0 == d[..n][j].0 == r { assert d[i].0 == d[j].0 == r; }
      if i :| 0 <= i < n && d[..n][i].0 == r { assert d[i].0 == r; }
      if i, j :| 0 <= i < j < |d| && d[i].0 == d[j].0 == r {
        assert d[..n][i].0 == r;
        assert j < n ==> d[..n][j].0 == r;
      }
    }
  }

  lemma DeliveredByCount(s: Pool)
    ensures DeliveredAt(s.delivered, s.place) <==> forall r: Req :: Deliveries(s.delivered, r) == Here(s, r)
  {
    var d := s.delivered;
    forall r: Req ensures Deliveries(d, r) > 0 <==> exists i :: 0 <= i < |d| && d[i].0 == r { DeliveriesSome(d, r); }
    forall r: Req ensures Deliveries(d, r) > 1 <==> exists i, j :: 0 <= i < j < |d| && d[i].0 == d[j].0 == r {
      DeliveriesOnce(d, r);
    }
    if forall r: Req :: Deliveries(d, r) == Here(s, r) {
      forall i | 0 <= i < |d| ensures At(s.place, d[i].0, Delivered) { assert Deliveries(d, d[i].0) > 0; }
      forall r: Req | At(s.place, r, Delivered) ensures exists i :: 0 <= i < |d| && d[i].0 == r {
        assert Deliveries(d, r) == Here(s, r) == 1;
      }
      forall i, j | 0 <= i < j < |d| ensures d[i].0 != d[j].0 {
        var r := d[i].0;
        assert Deliveries(d, r) == Here(s, r);
      }
    }
  }

  lemma {:induction false} NoRevivals(states: seq<Pool>, steps: seq<Step>, n: nat, r: Req)
    requires n <= |steps| < |states|
    ensures Revivals(states, steps, n, r) == 0 <==> forall i :: 0 <= i < n ==> !Revives(states[i], steps[i], r)
  {
    if n > 0 { NoRevivals(states, steps, n - 1, r); }
  }

  /** No caller cancels a request that was already delivered. */
  ghost predicate NoneRevived(states: seq<Pool>, steps: seq<Step>, n: nat)
    requires n <= |steps| < |states|
  {
    forall i, r: Req :: 0 <= i < n ==> !Revives(states[i], steps[i], r)
  }

  /** Exactly when the delivered requests are those that rest delivered, each once. */
  lemma DeliveredOnceExactly(states: seq<Pool>, steps: seq<Step>, n: nat)
    requires Run(states, steps) && n < |states|
    ensures DeliveredAt(states[n].delivered, states[n].place) <==> NoneRevived(states, steps, n)
  {
    DeliveredByCount(states[n]);
    hide DeliveredAt, Run, Revives;
    forall r: Req ensures Deliveries(states[n].delivered, r) == Here(states[n], r) <==>
                            forall i :: 0 <= i < n ==> !Revives(states[i], steps[i], r)
    {
      DeliveryCount(states, steps, n, r);
      NoRevivals(states, steps, n, r);
    }
    if !NoneRevived(states, steps, n) {
      var i, r: Req :| 0 <= i < n && Revives(states[i], steps[i], r);
      assert Deliveries(states[n].delivered, r) != Here(states[n], r);
    }
  }

  const TWICE: seq<Step> := [
    DoSubmit(0, Cpu), DoCancel(0), DoCancelPost(0), DoDrain, DoDeliver, DoCancel(0), DoCancelPost(0),
        DoDrain, DoDeliver]

  function Times(n: nat): seq<(Req, bool)>
  {
    if n == 0 then [] else Times(n - 1) + [(0, true)]
  }

  function Alone(wq: seq<Item>, cancelling: seq<Req>, finished: seq<Req>, draining: seq<Req>,
                 delivered: nat, place: Places): Pool
  {
    Pool(wq, [], 0, 0, [AtLoop], cancelling, finished, draining, Times(delivered), {},
         if |wq| == 0 && place != map[] then {0} else {}, place)
  }

  const TWICE_STATES: seq<Pool> := [
    Alone([], [], [], [], 0, map[]),
    Alone([Work(0)], [], [], [], 0, map[0 := Queued]),
    Alone([], [0], [], [], 0, map[0 := Cancelling]),
    Alone([], [], [0], [], 0, map[0 := Finished]),
    Alone([], [], [], [0], 0, map[0 := Draining]),
    Alone([], [], [], [], 1, map[0 := Delivered]),
    Alone([], [0], [], [], 1, map[0 := Cancelling]),
    Alone([], [], [0], [], 1, map[0 := Finished]),
    Alone([], [], [], [0], 1, map[0 := Draining]),
    Alone([], [], [], [], 2, map[0 := Delivered])]

  /** A request is submitted, cancelled and delivered, and then cancelled in its own done callback and delivered
      again. */
  lemma DeliveredTwice()
    ensures Run(TWICE_STATES, TWICE)
    ensures TWICE_STATES[9].delivered == [(0, true), (0, true)]
    ensures Revives(TWICE_STATES[5], TWICE[5], 0)
  {
    hide Next;
    Submitted();
    CancelledQueued();
    Posted(0);
    Drained(0);
    GivenBack(0);
    CancelledAgain(1);
    Posted(1);
    Drained(1);
    GivenBack(1);
    assert Times(1) == [(0, true)] && Times(2) == [(0, true), (0, true)];
    hide Times, Alone;
  }

  lemma Submitted()
    ensures Next(Alone([], [], [], [], 0, map[]), Alone([Work(0)], [], [], [], 0, map[0 := Queued]), DoSubmit(0, Cpu))
  {}

  lemma CancelledQueued()
    ensures Next(Alone([Work(0)], [], [], [], 0, map[0 := Queued]), Alone([], [0], [], [], 0, map[0 := Cancelling]),
            DoCancel(0))
  {
    var q, place, moved: Places := [Work(0)], map[0 := Queued], map[0 := Cancelling];
    var s, u := Alone(q, [], [], [], 0, place), Alone([], [0], [], [], 0, moved);
    assert q[0] == Work(0) && q[1..] == [] && Without(q, Work(0)) == [] && Without<Req>([], 0) == [];
    hide Without;
    assert place[0 := Cancelling] == moved && 0 in moved && moved != map[];
    assert s.cancelled == {} && u.cancelled == s.cancelled + {0} && u.cancelling == s.cancelling + [0];
    assert u == CancelRemove(s, 0);
    assert 0 in place && place[0] == Queued;
  }

  lemma Posted(n: nat)
    ensures Next(Alone([], [0], [], [], n, map[0 := Cancelling]), Alone([], [], [0], [], n, map[0 := Finished]),
            DoCancelPost(0))
  {
    assert Without<Req>([0], 0) == [];
  }

  lemma Drained(n: nat)
    ensures Next(Alone([], [], [0], [], n, map[0 := Finished]), Alone([], [], [], [0], n, map[0 := Draining]), DoDrain)
  {}

  lemma GivenBack(n: nat)
    ensures Next(Alone([], [], [], [0], n, map[0 := Draining]), Alone([], [], [], [], n + 1, map[0 := Delivered]),
            DoDeliver)
  {
    var s := Alone([], [], [], [0], n, map[0 := Draining]);
    assert s.draining[1..] == [] && s.place[0 := Delivered] == map[0 := Delivered];
    assert 0 in s.place;
  }

  /** The test of uv__work_cancel still passes on the node of a delivered request. */
  lemma CancelledAgain(n: nat)
    ensures Next(Alone([], [], [], [], n, map[0 := Delivered]), Alone([], [0], [], [], n, map[0 := Cancelling]),
            DoCancel(0))
  {
    assert Without<Req>([], 0) == [] && Without<Item>([], Work(0)) == [];
  }
}
