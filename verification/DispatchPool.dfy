/**
  The dispatch pool of the ITCH session: the server worker queues what it receives, a pool of workers
  takes the messages from the queue, and Stop shuts everything down.  Every thread is a program
  counter over the queue, the shutdown flag and the dispatch mutex.
*/
module DispatchPool {
  import opened Wrappers

  datatype Message = Message(text: string)

  /** DispatcherWorker. */
  datatype Worker = Locking | Testing | Waiting | Taking | Unlocking(got: Option<Message>) | Handling(message: Message) | Exited

  /** ServerWorker, with DispatchServerMessage. */
  datatype Server = Checking | Receiving | ToQueue(message: Message) | Queueing(message: Message) | Queued | Done

  /** Stop, once it is called. */
  datatype Stop = NotCalled | JoiningServer | ToBroadcast | Broadcasting | Broadcast | JoiningWorker(k: nat) | Returned

  datatype Owner = Nobody | TheServer | TheStop | TheWorker(i: nat)

  datatype State = State(
    queue: seq<Message>,
    shutdown: bool,
    mutex: Owner,
    workers: seq<Worker>,
    server: Server,
    stop: Stop,
    /** Everything that was queued, and who took what, in order. */
    pushed: seq<Message>,
    taken: seq<(nat, Message)>,
    /** How much had been queued when the shutdown flag was set. */
    mark: nat,
    /** What the server worker received, heartbeats aside, and what the handlers were given, and by whom. */
    received: seq<Message>,
    handled: seq<(nat, Message)>)

  predicate Initial(s: State) {
    && |s.workers| > 0
    && s == State([], false, Nobody, s.workers, Checking, NotCalled, [], [], 0, [], [])
    && forall i :: 0 <= i < |s.workers| ==> s.workers[i] == Locking
  }

  // ------------------------------------------------------------------------------------------
  // Steps
  // ------------------------------------------------------------------------------------------

  predicate CanWork(s: State, i: nat) {
    i < |s.workers| && s.workers[i] !in {Waiting, Exited} && (s.workers[i] == Locking ==> s.mutex == Nobody)
  }

  function WorkerStep(s: State, i: nat): State
    requires CanWork(s, i)
  {
    match s.workers[i]
    case Locking => s.(mutex := TheWorker(i), workers := s.workers[i := Testing])
    case Testing =>
      if !s.shutdown && s.queue == [] then s.(mutex := Nobody, workers := s.workers[i := Waiting])
      else s.(workers := s.workers[i := Taking])
    case Taking =>
      if s.queue != [] then
        s.(workers := s.workers[i := Unlocking(Some(s.queue[0]))], queue := s.queue[1..], taken := s.taken + [(i, s.queue[0])])
      else s.(workers := s.workers[i := Unlocking(None)])
    case Unlocking(got) =>
      s.(mutex := Nobody, workers := s.workers[i := if got.Some? then Handling(got.value) else Exited])
    case Handling(m) => s.(workers := s.workers[i := Locking], handled := s.handled + [(i, m)])
    case _ => s
  }

  /** pthread_cond_broadcast. */
  function Woken(workers: seq<Worker>): (r: seq<Worker>)
    ensures |r| == |workers|
    ensures forall i :: 0 <= i < |r| ==> r[i] == if workers[i] == Waiting then Locking else workers[i]
  {
    seq(|workers|, i requires 0 <= i < |workers| => if workers[i] == Waiting then Locking else workers[i])
  }

  predicate CanServe(s: State) {
    s.server != Done && (s.server.ToQueue? ==> s.mutex == Nobody)
  }

  /** What comes from the socket, or nothing, or a heartbeat, which is dropped; and whether the socket is still connected. */
  function ServerStep(s: State, received: Option<Message>, connected: bool): State
    requires CanServe(s)
  {
    match s.server
    case Checking => s.(server := if s.shutdown then Done else Receiving)
    case Receiving =>
      if received.Some? then s.(server := ToQueue(received.value), received := s.received + [received.value])
      else s.(server := if s.shutdown || !connected then Done else Checking)
    case ToQueue(m) => s.(mutex := TheServer, server := Queueing(m))
    case Queueing(m) => s.(queue := s.queue + [m], pushed := s.pushed + [m], workers := Woken(s.workers), server := Queued)
    case Queued => s.(mutex := Nobody, server := Checking)
    case Done => s
  }

  predicate CanStop(s: State) {
    match s.stop
    case NotCalled => true
    case JoiningServer => s.server == Done
    case ToBroadcast => s.mutex == Nobody
    case JoiningWorker(k) => k < |s.workers| ==> s.workers[k] == Exited
    case Returned => false
    case _ => true
  }

  function StopStep(s: State): State
    requires CanStop(s)
  {
    match s.stop
    case NotCalled => s.(shutdown := true, mark := |s.pushed|, stop := JoiningServer)
    case JoiningServer => s.(stop := ToBroadcast)
    case ToBroadcast => s.(mutex := TheStop, stop := Broadcasting)
    case Broadcasting => s.(workers := Woken(s.workers), stop := Broadcast)
    case Broadcast => s.(mutex := Nobody, stop := JoiningWorker(0))
    case JoiningWorker(k) => s.(stop := if k < |s.workers| then JoiningWorker(k + 1) else Returned)
    case Returned => s
  }

  /** A worker may wake up without a broadcast. */
  predicate CanWake(s: State, i: nat) {
    i < |s.workers| && s.workers[i] == Waiting
  }

  /** Who steps. */
  datatype Move = Work(i: nat) | Serve(received: Option<Message>, connected: bool) | DoStop | Wake(i: nat)

  predicate Can(s: State, move: Move) {
    match move
    case Work(i) => CanWork(s, i)
    case Serve(_, _) => CanServe(s)
    case DoStop => CanStop(s)
    case Wake(i) => CanWake(s, i)
  }

  function Step(s: State, move: Move): State
    requires Can(s, move)
  {
    match move
    case Work(i) => WorkerStep(s, i)
    case Serve(received, connected) => ServerStep(s, received, connected)
    case DoStop => StopStep(s)
    case Wake(i) => s.(workers := s.workers[i := Locking])
  }

  /** The state after the moves, when each of them is possible when it comes: any interleaving. */
  function Run(s: State, moves: seq<Move>): Option<State> {
    if moves == [] then Some(s)
    else
      var t := Run(s, moves[..|moves| - 1]);
      var move := moves[|moves| - 1];
      if t.Some? && Can(t.value, move) then Some(Step(t.value, move)) else None
  }

  // ------------------------------------------------------------------------------------------
  // What every step keeps
  // ------------------------------------------------------------------------------------------

  function Messages(taken: seq<(nat, Message)>): seq<Message> {
    if taken == [] then [] else Messages(taken[..|taken| - 1]) + [taken[|taken| - 1].1]
  }

  predicate Inside(w: Worker) {
    w in {Testing, Taking} || w.Unlocking?
  }

  predicate Exclusive(s: State) {
    && (forall i :: 0 <= i < |s.workers| ==> (Inside(s.workers[i]) <==> s.mutex == TheWorker(i)))
    && (s.mutex == TheServer <==> s.server.Queueing? || s.server == Queued)
    && (s.mutex == TheStop <==> s.stop in {Broadcasting, Broadcast})
    && (s.mutex.TheWorker? ==> s.mutex.i < |s.workers|)
  }

  /** Each queued message is taken once, in queue order, or still in the queue. */
  predicate Fifo(s: State) {
    Messages(s.taken) + s.queue == s.pushed
  }

  /** The server can still queue one message. */
  function Budget(server: Server): nat {
    if server == Receiving || server.ToQueue? || server.Queueing? then 1 else 0
  }

  predicate Shutdown(s: State) {
    && (s.shutdown <==> s.stop != NotCalled)
    && (s.shutdown ==> s.mark <= |s.pushed| && |s.pushed| + Budget(s.server) <= s.mark + 1)
    && (s.stop !in {NotCalled, JoiningServer} ==> s.server == Done)
  }

  /** A worker that leaves has seen an empty queue after the flag was set. */
  predicate Leaves(s: State, w: Worker) {
    && (w == Exited || w == Unlocking(None) ==> s.shutdown && |s.taken| >= s.mark)
    && (w == Taking && !s.shutdown ==> s.queue != [])
    && (w == Waiting ==> s.stop in {NotCalled, JoiningServer, ToBroadcast, Broadcasting})
  }

  predicate Joined(s: State) {
    && (s.stop.JoiningWorker? ==> s.stop.k <= |s.workers| && forall i :: 0 <= i < s.stop.k ==> s.workers[i] == Exited)
    && (s.stop == Returned ==> forall i :: 0 <= i < |s.workers| ==> s.workers[i] == Exited)
  }

  predicate Inv(s: State) {
    && Exclusive(s) && Fifo(s) && Shutdown(s) && Joined(s)
    && |s.workers| > 0
    && (forall i :: 0 <= i < |s.workers| ==> Leaves(s, s.workers[i]))
  }

  lemma InitialInv(s: State)
    requires Initial(s)
    ensures Inv(s)
  {
  }

  lemma WorkerKeepsLock(s: State, i: nat)
    requires Exclusive(s) && CanWork(s, i)
    ensures Exclusive(WorkerStep(s, i))
  {
  }

  lemma TakenInOrder(taken: seq<(nat, Message)>, i: nat, queue: seq<Message>)
    requires queue != []
    ensures Messages(taken + [(i, queue[0])]) + queue[1..] == Messages(taken) + queue
  {
    var all := taken + [(i, queue[0])];
    assert all[..|all| - 1] == taken;
    assert Messages(all) == Messages(taken) + [queue[0]];
    hide Messages;
    assert queue == [queue[0]] + queue[1..];
  }

  lemma WorkerKeepsFifo(s: State, i: nat)
    requires Fifo(s) && CanWork(s, i)
    ensures Fifo(WorkerStep(s, i)) && |WorkerStep(s, i).taken| >= |s.taken|
  {
    hide Messages;
    if s.workers[i] == Taking && s.queue != [] {
      TakenInOrder(s.taken, i, s.queue);
    }
  }

  lemma {:induction false} MessagesLength(taken: seq<(nat, Message)>)
    ensures |Messages(taken)| == |taken|
  {
    if taken != [] {
      MessagesLength(taken[..|taken| - 1]);
    }
  }

  lemma WorkerKeepsLeaves(s: State, i: nat, j: nat)
    requires Inv(s) && CanWork(s, i) && j < |s.workers|
    ensures Leaves(WorkerStep(s, i), WorkerStep(s, i).workers[j])
  {
    MessagesLength(s.taken);
    assert Leaves(s, s.workers[j]);
  }

  lemma WorkerKeeps(s: State, i: nat)
    requires Inv(s) && CanWork(s, i)
    ensures Inv(WorkerStep(s, i))
  {
    var t := WorkerStep(s, i);
    WorkerKeepsLock(s, i);
    WorkerKeepsFifo(s, i);
    forall j | 0 <= j < |t.workers| ensures Leaves(t, t.workers[j]) {
      WorkerKeepsLeaves(s, i, j);
    }
    hide Exclusive, Fifo, Leaves;
  }

  lemma ServerKeeps(s: State, received: Option<Message>, connected: bool)
    requires Inv(s) && CanServe(s)
    ensures Inv(ServerStep(s, received, connected))
  {
    var t := ServerStep(s, received, connected);
    if s.server.Queueing? {
      assert Messages(s.taken) + (s.queue + [s.server.message]) == Messages(s.taken) + s.queue + [s.server.message];
    }
    forall j | 0 <= j < |t.workers| ensures Leaves(t, t.workers[j]) {
      assert Leaves(s, s.workers[j]);
    }
  }

  lemma StopKeeps(s: State)
    requires Inv(s) && CanStop(s)
    ensures Inv(StopStep(s))
  {
    var t := StopStep(s);
    forall j | 0 <= j < |t.workers| ensures Leaves(t, t.workers[j]) {
      assert Leaves(s, s.workers[j]);
    }
  }

  lemma WakeKeeps(s: State, i: nat)
    requires Inv(s) && CanWake(s, i)
    ensures Inv(Step(s, Wake(i)))
  {
    var t := Step(s, Wake(i));
    forall j | 0 <= j < |t.workers| ensures Leaves(t, t.workers[j]) {
      assert Leaves(s, s.workers[j]);
    }
  }

  // ------------------------------------------------------------------------------------------
  // Over whole runs
  // ------------------------------------------------------------------------------------------

  lemma StepKeeps(s: State, move: Move)
    requires Inv(s) && Can(s, move)
    ensures Inv(Step(s, move))
  {
    hide Inv;
    match move
    case Work(i) => WorkerKeeps(s, i);
    case Serve(received, connected) => ServerKeeps(s, received, connected);
    case DoStop => StopKeeps(s);
    case Wake(i) => WakeKeeps(s, i);
  }

  lemma {:induction false} RunKeeps(s: State, moves: seq<Move>)
    requires Initial(s) && Run(s, moves).Some?
    ensures Inv(Run(s, moves).value)
  {
    if moves == [] {
      InitialInv(s);
    } else {
      RunKeeps(s, moves[..|moves| - 1]);
      StepKeeps(Run(s, moves[..|moves| - 1]).value, moves[|moves| - 1]);
    }
  }

  /**
    In every interleaving the workers take the messages in the order in which they were queued, each
    one once; when a worker has left, everything queued before the shutdown flag was set is taken; and
    when Stop returns at most one message is left, one that was queued after that.
  */
  lemma EveryInterleaving(s: State, moves: seq<Move>)
    requires Initial(s) && Run(s, moves).Some?
    ensures var t := Run(s, moves).value;
      && Messages(t.taken) + t.queue == t.pushed
      && ((exists i :: 0 <= i < |t.workers| && t.workers[i] == Exited) ==>
            t.mark <= |t.pushed| && t.pushed[..t.mark] <= Messages(t.taken))
      && (t.stop == Returned ==> |t.queue| <= 1 && |t.taken| >= t.mark)
  {
    RunKeeps(s, moves);
    var t := Run(s, moves).value;
    MessagesLength(t.taken);
    if i :| 0 <= i < |t.workers| && t.workers[i] == Exited {
      assert Leaves(t, t.workers[i]);
      assert t.pushed[..t.mark] == Messages(t.taken)[..t.mark];
    }
    if t.stop == Returned {
      assert t.workers[0] == Exited && Leaves(t, t.workers[0]);
    }
  }

  // ------------------------------------------------------------------------------------------
  // From the socket to the handlers
  // ------------------------------------------------------------------------------------------

  /** The messages of one worker, in order. */
  function By(log: seq<(nat, Message)>, i: nat): seq<Message> {
    if log == [] then []
    else By(log[..|log| - 1], i) + if log[|log| - 1].0 == i then [log[|log| - 1].1] else []
  }

  function InHand(w: Worker): seq<Message> {
    if w.Handling? then [w.message] else if w.Unlocking? && w.got.Some? then [w.got.value] else []
  }

  function AtServer(server: Server): seq<Message> {
    if server.ToQueue? || server.Queueing? then [server.message] else []
  }

  /** The entries are of those workers. */
  predicate OfWorkers(log: seq<(nat, Message)>, n: nat) {
    forall k :: 0 <= k < |log| ==> log[k].0 < n
  }

  predicate Handled(s: State) {
    forall i :: 0 <= i < |s.workers| ==> By(s.taken, i) == By(s.handled, i) + InHand(s.workers[i])
  }

  /** What each worker took it has handled, but for the message in its hands; and nobody sleeps on a message. */
  predicate Account(s: State) {
    && Handled(s)
    && OfWorkers(s.taken, |s.workers|) && OfWorkers(s.handled, |s.workers|)
    && s.received == s.pushed + AtServer(s.server)
    && (s.queue != [] ==> NoneAsleep(s))
  }

  predicate NoneAsleep(s: State) {
    forall i :: 0 <= i < |s.workers| ==> s.workers[i] != Waiting
  }

  lemma ByNext(log: seq<(nat, Message)>, i: nat, m: Message, j: nat)
    ensures By(log + [(i, m)], j) == By(log, j) + if i == j then [m] else []
  {
    assert (log + [(i, m)])[..|log|] == log;
  }

  lemma WorkerHandles(s: State, i: nat, j: nat)
    requires CanWork(s, i) && j < |s.workers| && By(s.taken, j) == By(s.handled, j) + InHand(s.workers[j])
    ensures var t := WorkerStep(s, i); By(t.taken, j) == By(t.handled, j) + InHand(t.workers[j])
  {
    hide By;
    var w := s.workers[i];
    if w == Taking && s.queue != [] {
      ByNext(s.taken, i, s.queue[0], j);
    } else if w.Handling? {
      ByNext(s.handled, i, w.message, j);
    }
  }

  lemma WorkerSleeps(s: State, i: nat)
    requires CanWork(s, i) && (s.queue != [] ==> NoneAsleep(s))
    ensures WorkerStep(s, i).queue != [] ==> NoneAsleep(WorkerStep(s, i))
    ensures |WorkerStep(s, i).workers| == |s.workers|
  {
  }

  lemma WorkerLogs(s: State, i: nat)
    requires CanWork(s, i) && OfWorkers(s.taken, |s.workers|) && OfWorkers(s.handled, |s.workers|)
    ensures var t := WorkerStep(s, i); OfWorkers(t.taken, |s.workers|) && OfWorkers(t.handled, |s.workers|)
    ensures var t := WorkerStep(s, i); t.received == s.received && t.pushed == s.pushed && t.server == s.server
  {
  }

  lemma WorkersHandle(s: State, i: nat)
    requires CanWork(s, i) && Handled(s)
    ensures Handled(WorkerStep(s, i))
  {
    var t := WorkerStep(s, i);
    forall j | 0 <= j < |t.workers| ensures By(t.taken, j) == By(t.handled, j) + InHand(t.workers[j]) {
      WorkerHandles(s, i, j);
    }
  }

  lemma WorkerAccounts(s: State, i: nat)
    requires Account(s) && CanWork(s, i)
    ensures Account(WorkerStep(s, i))
  {
    hide WorkerStep, CanWork, Handled, OfWorkers, NoneAsleep;
    WorkersHandle(s, i);
    WorkerSleeps(s, i);
    WorkerLogs(s, i);
  }

  lemma StillHandled(s: State, t: State)
    requires Handled(s) && t.taken == s.taken && t.handled == s.handled && |t.workers| == |s.workers|
    requires forall j :: 0 <= j < |s.workers| ==> InHand(t.workers[j]) == InHand(s.workers[j])
    ensures Handled(t)
  {
    hide By, InHand;
  }

  lemma ServerAccounts(s: State, received: Option<Message>, connected: bool)
    requires Account(s) && CanServe(s)
    ensures Account(ServerStep(s, received, connected))
  {
    hide By, Handled, OfWorkers;
    StillHandled(s, ServerStep(s, received, connected));
  }

  lemma OthersAccount(s: State, move: Move)
    requires Account(s) && Can(s, move) && (move.DoStop? || move.Wake?)
    ensures Account(Step(s, move))
  {
    hide By, Handled, OfWorkers;
    StillHandled(s, Step(s, move));
  }

  lemma {:induction false} RunAccounts(s: State, moves: seq<Move>)
    requires Initial(s) && Run(s, moves).Some?
    ensures Account(Run(s, moves).value)
  {
    if moves != [] {
      var n := |moves| - 1;
      RunAccounts(s, moves[..n]);
      var t := Run(s, moves[..n]).value;
      hide Account;
      match moves[n]
      case Work(i) => WorkerAccounts(t, i);
      case Serve(received, connected) => ServerAccounts(t, received, connected);
      case _ => OthersAccount(t, moves[n]);
    }
  }

  /** What the first workers took or handled, all together. */
  function AllBy(log: seq<(nat, Message)>, n: nat): multiset<Message> {
    if n == 0 then multiset{} else AllBy(log, n - 1) + multiset(By(log, n - 1))
  }

  lemma {:induction false} AllByNext(log: seq<(nat, Message)>, i: nat, m: Message, n: nat)
    ensures AllBy(log + [(i, m)], n) == AllBy(log, n) + if i < n then multiset{m} else multiset{}
  {
    hide By;
    if n > 0 {
      AllByNext(log, i, m, n - 1);
      ByNext(log, i, m, n - 1);
    }
  }

  lemma {:induction false} NothingBy(n: nat)
    ensures AllBy([], n) == multiset{}
  {
    if n > 0 {
      NothingBy(n - 1);
    }
  }

  lemma {:induction false} MessagesByWorker(log: seq<(nat, Message)>, n: nat)
    requires OfWorkers(log, n)
    ensures multiset(Messages(log)) == AllBy(log, n)
    decreases |log|
  {
    if log == [] {
      NothingBy(n);
    } else {
      var last, x := |log| - 1, log[|log| - 1];
      hide AllBy;
      AllByNext(log[..last], x.0, x.1, n);
      assert log == log[..last] + [(x.0, x.1)];
      hide OfWorkers, Messages;
      LogOf(log, n);
      MessagesByWorker(log[..last], n);
    }
  }

  lemma LogOf(log: seq<(nat, Message)>, n: nat)
    requires log != [] && OfWorkers(log, n)
    ensures var last := |log| - 1;
      OfWorkers(log[..last], n) && log[last].0 < n && Messages(log) == Messages(log[..last]) + [log[last].1]
  {
  }

  lemma {:induction false} SameByWorkers(a: seq<(nat, Message)>, b: seq<(nat, Message)>, n: nat)
    requires forall i :: 0 <= i < n ==> By(a, i) == By(b, i)
    ensures AllBy(a, n) == AllBy(b, n)
  {
    if n > 0 {
      SameByWorkers(a, b, n - 1);
    }
  }

  /**
    In every interleaving the queue gets what was received, in order, but for the message that the
    server worker still holds, and each worker hands what it takes to a handler, in order, before it
    takes anything else or leaves.  When Stop has returned, each queued message was handled once or is
    the one that is left.
  */
  lemma EachIsHandled(s: State, moves: seq<Move>)
    requires Initial(s) && Run(s, moves).Some?
    ensures var t := Run(s, moves).value;
      && t.received == t.pushed + (if t.server.ToQueue? || t.server.Queueing? then [t.server.message] else [])
      && (forall i :: 0 <= i < |t.workers| ==>
            By(t.taken, i) == By(t.handled, i) + InHand(t.workers[i])
            && (t.workers[i] == Exited ==> By(t.taken, i) == By(t.handled, i)))
      && (t.stop == Returned ==> multiset(t.pushed) == multiset(Messages(t.handled)) + multiset(t.queue))
  {
    RunAccounts(s, moves);
    RunKeeps(s, moves);
    EveryInterleaving(s, moves);
    var t := Run(s, moves).value;
    assert Handled(t) && OfWorkers(t.taken, |t.workers|) && OfWorkers(t.handled, |t.workers|);
    assert t.stop == Returned ==> forall i :: 0 <= i < |t.workers| ==> t.workers[i] == Exited;
    if t.stop == Returned {
      hide By, Messages, AllBy, Inv, Account;
      SameByWorkers(t.taken, t.handled, |t.workers|);
      MessagesByWorker(t.taken, |t.workers|);
      MessagesByWorker(t.handled, |t.workers|);
      assert multiset(t.pushed) == multiset(Messages(t.taken) + t.queue);
    }
  }

  /** While a message waits and Stop is not called, somebody can step: a worker, or the server worker that holds the mutex. */
  lemma QueueIsServed(s: State)
    requires Inv(s) && Account(s) && s.stop == NotCalled && s.queue != []
    ensures (exists i :: CanWork(s, i)) || (s.mutex == TheServer && CanServe(s))
  {
    hide By;
    var i := if s.mutex.TheWorker? then s.mutex.i else 0;
    assert Leaves(s, s.workers[i]) && s.workers[i] != Waiting;
    assert s.mutex != TheServer ==> CanWork(s, i);
  }

  /** Once Stop is called somebody can step until it returns, without anybody waking up by himself. */
  lemma NoDeadlock(s: State)
    requires Inv(s) && s.shutdown && s.stop != Returned
    ensures CanServe(s) || CanStop(s) || exists i :: CanWork(s, i)
  {
    if !CanServe(s) && !CanStop(s) {
      var i := if s.stop.JoiningWorker? then s.stop.k else if s.mutex.TheWorker? then s.mutex.i else 0;
      assert i < |s.workers| ==> Leaves(s, s.workers[i]);
      assert s.mutex.TheWorker? ==> CanWork(s, s.mutex.i);
      assert s.mutex == Nobody && s.stop.JoiningWorker? ==> CanWork(s, i);
    }
  }

  // A bound on the steps once the flag is set: a message in the queue costs its worker another round,
  // and the one message that the server may still queue costs that and its own queueing.

  function WorkerWork(w: Worker): nat {
    match w
    case Handling(_) => 8
    case Waiting => 6
    case Locking => 5
    case Testing => 4
    case Taking => 3
    case Unlocking(got) => if got.Some? then 9 else 1
    case Exited => 0
  }

  function PoolWork(workers: seq<Worker>): nat {
    if workers == [] then 0 else PoolWork(workers[..|workers| - 1]) + WorkerWork(workers[|workers| - 1])
  }

  function ServerWork(server: Server): nat {
    match server
    case Receiving => 20
    case ToQueue(_) => 19
    case Queueing(_) => 18
    case Queued => 7
    case Checking => 1
    case Done => 0
  }

  function StopWork(stop: Stop, n: nat): int {
    match stop
    case NotCalled => n + 6
    case JoiningServer => n + 5
    case ToBroadcast => n + 4
    case Broadcasting => n + 3
    case Broadcast => n + 2
    case JoiningWorker(k) => n + 1 - k
    case Returned => 0
  }

  function Remaining(s: State): int {
    10 * |s.queue| + PoolWork(s.workers) + ServerWork(s.server) + StopWork(s.stop, |s.workers|)
  }

  lemma {:induction false} PoolChanged(workers: seq<Worker>, i: nat, w: Worker)
    requires i < |workers|
    ensures PoolWork(workers[i := w]) == PoolWork(workers) - WorkerWork(workers[i]) + WorkerWork(w)
  {
    var n := |workers| - 1;
    if i < n {
      PoolChanged(workers[..n], i, w);
      assert workers[i := w][..n] == workers[..n][i := w];
    } else {
      assert workers[i := w][..n] == workers[..n];
    }
  }

  lemma {:induction false} PoolWoken(workers: seq<Worker>)
    ensures PoolWork(Woken(workers)) <= PoolWork(workers)
  {
    if workers != [] {
      var n := |workers| - 1;
      PoolWoken(workers[..n]);
      assert Woken(workers)[..n] == Woken(workers[..n]);
    }
  }

  lemma WorkerWorks(s: State, i: nat)
    requires s.shutdown && CanWork(s, i)
    ensures Remaining(WorkerStep(s, i)) < Remaining(s)
  {
    PoolChanged(s.workers, i, WorkerStep(s, i).workers[i]);
    hide PoolWork;
  }

  lemma ServerWorks(s: State, received: Option<Message>, connected: bool)
    requires s.shutdown && CanServe(s)
    ensures Remaining(ServerStep(s, received, connected)) < Remaining(s)
  {
    PoolWoken(s.workers);
    hide PoolWork;
  }

  lemma StopWorks(s: State)
    requires Inv(s) && s.shutdown && CanStop(s)
    ensures Remaining(StopStep(s)) < Remaining(s)
  {
    PoolWoken(s.workers);
    JoinedBound(s);
    hide PoolWork, Inv;
  }

  lemma StepWorks(s: State, move: Move)
    requires Inv(s) && s.shutdown && Can(s, move)
    ensures Remaining(Step(s, move)) < Remaining(s)
  {
    hide Inv;
    match move
    case Work(i) => WorkerWorks(s, i);
    case Serve(received, connected) => ServerWorks(s, received, connected);
    case DoStop => StopWorks(s);
    case Wake(i) => PoolChanged(s.workers, i, Locking);
  }

  lemma JoinedBound(s: State)
    requires Inv(s)
    ensures s.stop.JoiningWorker? ==> s.stop.k <= |s.workers|
    ensures Remaining(s) >= 0
  {
  }

  /** From the moment Stop is called no interleaving goes on for longer than that bound. */
  lemma {:induction false} StopReturns(s: State, moves: seq<Move>)
    requires Inv(s) && s.shutdown && Run(s, moves).Some?
    ensures Inv(Run(s, moves).value) && Run(s, moves).value.shutdown
    ensures Remaining(Run(s, moves).value) <= Remaining(s) - |moves|
    ensures |moves| <= Remaining(s)
  {
    if moves != [] {
      var n := |moves| - 1;
      StopReturns(s, moves[..n]);
      var t := Run(s, moves[..n]).value;
      StepKeeps(t, moves[n]);
      StepWorks(t, moves[n]);
    }
    hide Remaining, Inv, Step, Can;
    JoinedBound(Run(s, moves).value);
  }

  // ------------------------------------------------------------------------------------------
  // When the server worker ends
  // ------------------------------------------------------------------------------------------

  /** A receive that brings nothing because the connection is lost. */
  predicate LosesConnection(move: Move) {
    move.Serve? && move.received.None? && !move.connected
  }

  /** The server worker ends only when Stop was called or the connection was lost. */
  lemma {:induction false} ServerStays(s: State, moves: seq<Move>)
    requires Initial(s) && Run(s, moves).Some?
    requires forall k :: 0 <= k < |moves| ==> !LosesConnection(moves[k])
    ensures var t := Run(s, moves).value; (t.shutdown <==> t.stop != NotCalled) && (t.server == Done ==> t.shutdown)
  {
    hide Initial, CanWork, CanServe, CanStop;
    if moves != [] {
      ServerStays(s, moves[..|moves| - 1]);
    } else {
      AtWork(s);
    }
  }

  lemma AtWork(s: State)
    requires Initial(s)
    ensures s.server == Checking && s.stop == NotCalled && !s.shutdown
  {
  }

  /** And then it does: its next receive that brings nothing is the last, and a message in its hands is queued before. */
  lemma ServerEnds(s: State, connected: bool)
    requires s.server == Receiving && (s.shutdown || !connected)
    ensures Run(s, [Serve(None, connected)]) == Some(s.(server := Done))
    ensures s.shutdown ==> Run(s.(server := Checking), [Serve(None, connected)]) == Some(s.(server := Done))
  {
    assert [Serve(None, connected)][..0] == [];
  }

  // ------------------------------------------------------------------------------------------
  // When a message is left
  // ------------------------------------------------------------------------------------------

  /** Nobody wakes up by himself. */
  ghost predicate Plain(moves: seq<Move>) {
    forall k :: 0 <= k < |moves| ==> !moves[k].Wake?
  }

  /** Some interleaving comes from the one state to the other; one with spurious wake-ups only if `wakes`. */
  ghost predicate Reaches(wakes: bool, s: State, t: State) {
    exists moves :: Run(s, moves) == Some(t) && (wakes || Plain(moves))
  }

  lemma ReachesItself(wakes: bool, s: State)
    ensures Reaches(wakes, s, s)
  {
    assert Run(s, []) == Some(s);
  }

  lemma Go(wakes: bool, s: State, t: State, move: Move) returns (u: State)
    requires Reaches(wakes, s, t) && Can(t, move) && (wakes || !move.Wake?)
    ensures u == Step(t, move) && Reaches(wakes, s, u)
  {
    u := Step(t, move);
    hide Step, Can;
    var moves :| Run(s, moves) == Some(t) && (wakes || Plain(moves));
    var all := moves + [move];
    assert all[..|all| - 1] == moves;
    assert Run(s, all) == Some(u);
  }

  /** The server may still queue a message that it has not begun to queue. */
  predicate Late(server: Server) {
    server == Receiving || server.ToQueue?
  }

  predicate Leaving(w: Worker) {
    w == Exited || w == Unlocking(None)
  }

  predicate NoneWaiting(s: State) {
    forall i :: 0 <= i < |s.workers| ==> s.workers[i] != Waiting
  }

  predicate AllExited(s: State) {
    forall i :: 0 <= i < |s.workers| ==> s.workers[i] == Exited
  }

  /** No worker leaves before the last message is queued and taken. */
  predicate Orderly(s: State) {
    && s.shutdown && !Late(s.server)
    && forall i :: 0 <= i < |s.workers| && Leaving(s.workers[i]) ==> s.queue == [] && !s.server.Queueing?
  }

  lemma OrderlyKept(s: State, move: Move)
    requires Inv(s) && Orderly(s) && Can(s, move)
    ensures Orderly(Step(s, move))
  {
    hide Fifo, Shutdown, Leaves, Joined;
    var t := Step(s, move);
    forall i | 0 <= i < |t.workers| && Leaving(t.workers[i]) ensures t.queue == [] && !t.server.Queueing? {
      assert Leaving(s.workers[i]) || move == Work(i);
    }
  }

  /** This worker does not leave before the last message is queued and taken. */
  predicate Patient(s: State, j: nat) {
    && s.shutdown && j < |s.workers|
    && (s.workers[j] == Waiting || (!Late(s.server) && !s.server.Queueing? && (Leaving(s.workers[j]) ==> s.queue == [])))
  }

  lemma PatientKept(s: State, move: Move, j: nat)
    requires Inv(s) && Patient(s, j) && Can(s, move) && !move.Wake?
    ensures Patient(Step(s, move), j)
  {
    hide Fifo, Leaves, Joined;
  }

  /** With the server out of the way when the flag is set, or a worker asleep that nothing but a broadcast wakes. */
  lemma {:induction false} NothingLeft(wakes: bool, s: State, moves: seq<Move>, j: nat)
    requires Inv(s) && Run(s, moves).Some? && (wakes || Plain(moves))
    requires Orderly(s) || (!wakes && Patient(s, j))
    ensures var t := Run(s, moves).value;
      Inv(t) && (Orderly(t) || (!wakes && Patient(t, j))) && (t.stop == Returned ==> t.queue == [])
  {
    hide Orderly, Patient, Exclusive, Fifo, Leaves, Shutdown;
    if moves != [] {
      var n := |moves| - 1;
      NothingLeft(wakes, s, moves[..n], j);
      var t := Run(s, moves[..n]).value;
      StepKeeps(t, moves[n]);
      if Orderly(t) {
        OrderlyKept(t, moves[n]);
      } else {
        assert !moves[n].Wake?;
        PatientKept(t, moves[n], j);
      }
    }
    if Run(s, moves).value.stop == Returned {
      EmptyAtTheEnd(Run(s, moves).value, j);
    }
  }

  lemma EmptyAtTheEnd(s: State, j: nat)
    requires Inv(s) && (Orderly(s) || Patient(s, j)) && s.stop == Returned
    ensures s.queue == []
  {
    assert s.workers[0] == Exited;
  }

  /** While the server is late all workers can leave: one worker after the other goes on until it has left. */
  lemma {:induction false} AllCanLeave(wakes: bool, s0: State, s: State) returns (t: State)
    requires Reaches(wakes, s0, s) && Inv(s) && s.stop == JoiningServer && Late(s.server)
    requires wakes || NoneWaiting(s)
    ensures Reaches(wakes, s0, t) && Inv(t) && t.stop == JoiningServer && t.server == s.server
    ensures AllExited(t) && t.mutex == Nobody && t.queue == []
    decreases Remaining(s)
  {
    hide Reaches, Fifo, Leaves, Joined;
    if AllExited(s) {
      t := s;
      NothingQueued(s);
    } else {
      var j :| 0 <= j < |s.workers| && s.workers[j] != Exited;
      var move := if s.mutex.TheWorker? then Work(s.mutex.i) else if s.workers[j] == Waiting then Wake(j) else Work(j);
      var u := Go(wakes, s0, s, move);
      StepKeeps(s, move);
      StepWorks(s, move);
      JoinedBound(u);
      t := AllCanLeave(wakes, s0, u);
    }
  }

  lemma NothingQueued(s: State)
    requires Inv(s) && Late(s.server) && s.shutdown && AllExited(s)
    ensures s.queue == []
  {
    assert Leaves(s, s.workers[0]);
    MessagesLength(s.taken);
  }

  /** Then the server queues its message, and nobody is there to take it. */
  lemma QueuesAlone(wakes: bool, s0: State, s: State, m: Message) returns (t: State)
    requires Reaches(wakes, s0, s) && s.stop == JoiningServer && s.server in {Receiving, ToQueue(m)}
    requires s.shutdown && AllExited(s) && s.mutex == Nobody && s.queue == []
    ensures Reaches(wakes, s0, t) && t.stop == JoiningServer && t.server == Done
    ensures AllExited(t) && t.mutex == Nobody && t.queue == [m]
  {
    hide Reaches;
    t := s;
    if t.server == Receiving {
      t := Go(wakes, s0, t, Serve(Some(m), true));
    }
    t := Go(wakes, s0, t, Serve(None, true));
    t := Go(wakes, s0, t, Serve(None, true));
    t := Go(wakes, s0, t, Serve(None, true));
    t := Go(wakes, s0, t, Serve(None, true));
  }

  lemma {:induction false} JoinsAll(wakes: bool, s0: State, s: State, k: nat) returns (t: State)
    requires Reaches(wakes, s0, s) && s.stop == JoiningWorker(k) && k <= |s.workers| && AllExited(s)
    ensures Reaches(wakes, s0, t) && t.stop == Returned && t.queue == s.queue
    decreases |s.workers| - k
  {
    hide Reaches;
    t := Go(wakes, s0, s, DoStop);
    if k < |s.workers| {
      t := JoinsAll(wakes, s0, t, k + 1);
    }
  }

  lemma CanBeLeft(wakes: bool, s0: State, s: State, m: Message) returns (t: State)
    requires Reaches(wakes, s0, s) && Inv(s) && s.stop == JoiningServer && s.server in {Receiving, ToQueue(m)}
    requires wakes || NoneWaiting(s)
    ensures Reaches(wakes, s0, t) && t.stop == Returned && t.queue == [m]
  {
    hide Reaches, Inv;
    ShutdownOf(s);
    t := AllCanLeave(wakes, s0, s);
    ShutdownOf(t);
    t := QueuesAlone(wakes, s0, t, m);
    t := Go(wakes, s0, t, DoStop);
    t := Go(wakes, s0, t, DoStop);
    t := Go(wakes, s0, t, DoStop);
    t := Go(wakes, s0, t, DoStop);
    t := JoinsAll(wakes, s0, t, 0);
  }

  lemma ShutdownOf(s: State)
    requires Inv(s)
    ensures s.shutdown <==> s.stop != NotCalled
  {
  }

  /** After the flag is set in this state, Stop can return with a message in the queue. */
  ghost predicate MayLeave(wakes: bool, s: State) {
    exists t :: Reaches(wakes, s, t) && t.stop == Returned && t.queue != []
  }

  /**
    When Stop can leave a message: exactly when the flag is set while the server worker waits for a
    message or for the mutex with a message in its hands, and, when nobody wakes up by himself, no
    worker sleeps at that moment.
  */
  lemma LeftIff(wakes: bool, s: State)
    requires Inv(s) && s.stop == NotCalled
    ensures MayLeave(wakes, StopStep(s)) <==> Late(s.server) && (wakes || NoneWaiting(s))
  {
    var u := StopStep(s);
    StopKeeps(s);
    hide Inv, Reaches, Run;
    if Late(s.server) && (wakes || NoneWaiting(s)) {
      var m := if s.server.ToQueue? then s.server.message else Message("");
      ReachesItself(wakes, u);
      var t := CanBeLeft(wakes, u, u, m);
      assert t.queue != [];
    } else {
      NoneLeavingYet(s);
      var j := if NoneWaiting(s) then 0 else SomeWaiting(s);
      assert Orderly(u) || (!wakes && Patient(u, j));
      forall t | Reaches(wakes, u, t) && t.stop == Returned ensures t.queue == [] {
        ReachedIsEmpty(wakes, u, t, j);
      }
    }
  }

  lemma ReachedIsEmpty(wakes: bool, s: State, t: State, j: nat)
    requires Inv(s) && Reaches(wakes, s, t) && t.stop == Returned
    requires Orderly(s) || (!wakes && Patient(s, j))
    ensures t.queue == []
  {
    hide Inv, Run;
    var moves :| Run(s, moves) == Some(t) && (wakes || Plain(moves));
    NothingLeft(wakes, s, moves, j);
  }

  ghost function SomeWaiting(s: State): (j: nat)
    requires !NoneWaiting(s)
    ensures j < |s.workers| && s.workers[j] == Waiting
  {
    var j :| 0 <= j < |s.workers| && s.workers[j] == Waiting;
    j
  }

  lemma NoneLeavingYet(s: State)
    requires Inv(s) && s.stop == NotCalled
    ensures forall i :: 0 <= i < |s.workers| ==> !Leaving(s.workers[i])
  {
    forall i | 0 <= i < |s.workers| ensures !Leaving(s.workers[i]) {
      assert Leaves(s, s.workers[i]);
    }
  }

  /** The bound is met from the very beginning: some run leaves any given message. */
  lemma OneCanBeLeft(m: Message)
    ensures exists s, t :: Initial(s) && Reaches(false, s, t) && t.stop == Returned && t.queue == [m]
  {
    var s := State([], false, Nobody, [Locking], Checking, NotCalled, [], [], 0, [], []);
    InitialInv(s);
    ReachesItself(false, s);
    var t := Go(false, s, s, Serve(None, true));
    StepKeeps(s, Serve(None, true));
    var u := Go(false, s, t, DoStop);
    StepKeeps(t, DoStop);
    hide Reaches, Inv;
    var v := CanBeLeft(false, s, u, m);
    assert Initial(s) && v.queue == [m];
  }
}
