/**
  The one-slot handoff between the message pump, which reads the lines of a file, and the dispatcher,
  which takes them and dispatches them in pairs.  Each thread is a program counter over the shared
  fields of MP; an interleaving is any order of their steps.
*/
module Handoff {

  datatype Code = NOT_READY | OK | EOF

  datatype Owner = Nobody | ThePump | TheTaker

  /** MP::run and MP::read. */
  datatype Pump = Outside | Wanting | Testing | Waiting | Reading | Publishing | Leaving | Finished

  /** MsgDispatcher::run and MP::getMsg. */
  datatype Taker = Local | TWanting | TTesting | TWaiting | Taking | Releasing | TLeaving | TFinished

  datatype State = State(
    lines: seq<string>,
    next: nat,
    mutex: Owner,
    read: bool,
    consumed: bool,
    strMsg: string,
    msgCode: Code,
    pump: Pump,
    taker: Taker,
    /** What getMsg returned last. */
    ret: Code,
    /** The lines that the dispatcher took, those of them that it holds, and those that it dispatched. */
    taken: seq<string>,
    held: seq<string>,
    dispatched: seq<string>)

  predicate Initial(s: State) {
    s == State(s.lines, 0, Nobody, false, true, "", NOT_READY, Outside, Local, NOT_READY, [], [], [])
  }

  // ------------------------------------------------------------------------------------------
  // The steps of the pump
  // ------------------------------------------------------------------------------------------

  predicate CanPump(s: State) {
    s.pump !in {Waiting, Finished} && (s.pump == Wanting ==> s.mutex == Nobody)
  }

  function PumpStep(s: State): State
    requires CanPump(s)
  {
    match s.pump
    case Outside => s.(pump := if s.msgCode != EOF then Wanting else Finished)
    case Wanting => s.(mutex := ThePump, pump := Testing)
    case Testing => if !s.consumed then s.(mutex := Nobody, pump := Waiting) else s.(pump := Reading)
    case Reading =>
      // getline, and _read
      if s.next < |s.lines| then s.(strMsg := s.lines[s.next], next := s.next + 1, msgCode := OK, read := true, pump := Publishing)
      else s.(msgCode := EOF, read := true, pump := Publishing)
    case Publishing =>
      // _consumed, and _msgRead.notify_one
      s.(consumed := false, taker := if s.taker == TWaiting then TWanting else s.taker, pump := Leaving)
    case Leaving => s.(mutex := Nobody, pump := Outside)
    case _ => s
  }

  // ------------------------------------------------------------------------------------------
  // The steps of the dispatcher
  // ------------------------------------------------------------------------------------------

  predicate CanTake(s: State) {
    s.taker !in {TWaiting, TFinished} && (s.taker == TWanting ==> s.mutex == Nobody)
  }

  function TakerStep(s: State): State
    requires CanTake(s)
  {
    match s.taker
    case Local =>
      if |s.held| == 2 then s.(dispatched := s.dispatched + [s.held[0]] + [s.held[1]], held := []) else s.(taker := TWanting)
    case TWanting => s.(mutex := TheTaker, taker := TTesting)
    case TTesting => if !s.read then s.(mutex := Nobody, taker := TWaiting) else s.(taker := Taking)
    case Taking =>
      // raw and *ret, and _consumed
      s.(ret := s.msgCode, consumed := true, taker := Releasing,
         taken := if s.msgCode == OK then s.taken + [s.strMsg] else s.taken,
         held := if s.msgCode == OK then s.held + [s.strMsg] else s.held)
    case Releasing =>
      // _read, and _msgConsumed.notify_one
      s.(read := false, pump := if s.pump == Waiting then Wanting else s.pump, taker := TLeaving)
    case TLeaving => s.(mutex := Nobody, taker := if s.ret == OK then Local else TFinished)
    case _ => s
  }

  /** A condition variable may let its waiter go without being notified. */
  predicate Spurious(s: State, t: State) {
    || (s.pump == Waiting && t == s.(pump := Wanting))
    || (s.taker == TWaiting && t == s.(taker := TWanting))
  }

  predicate Step(s: State, t: State) {
    (CanPump(s) && t == PumpStep(s)) || (CanTake(s) && t == TakerStep(s))
  }

  /** An interleaving of the two threads. */
  ghost predicate Run(run: seq<State>) {
    run != [] && Initial(run[0]) && forall i :: 0 <= i < |run| - 1 ==> Step(run[i], run[i + 1]) || Spurious(run[i], run[i + 1])
  }

  // ------------------------------------------------------------------------------------------
  // What every step keeps
  // ------------------------------------------------------------------------------------------

  predicate PumpInside(s: State) {
    s.pump in {Testing, Reading, Publishing, Leaving}
  }

  predicate TakerInside(s: State) {
    s.taker in {TTesting, Taking, Releasing, TLeaving}
  }

  /** The slot holds a line or the end that is not taken yet. */
  predicate Full(s: State) {
    s.read && s.taker != Releasing
  }

  predicate Exclusive(s: State) {
    && (s.mutex == ThePump <==> PumpInside(s))
    && (s.mutex == TheTaker <==> TakerInside(s))
  }

  /** The two flags are opposite, but in the middle of an update under the lock; nobody sleeps on a set flag. */
  predicate Flags(s: State) {
    && (s.read == s.consumed <==> s.pump == Publishing || s.taker == Releasing)
    && (s.pump == Reading ==> s.consumed)
    && (s.pump == Publishing ==> s.read)
    && (s.taker == Taking || s.taker == Releasing ==> s.read)
    && (s.pump == Waiting ==> !s.consumed || s.taker == Releasing)
    && (s.taker == TWaiting ==> !s.read || s.pump == Publishing)
  }

  /** What was taken and what is in the slot are the lines read so far. */
  predicate InOrder(s: State) {
    && s.next <= |s.lines|
    && s.taken + (if Full(s) && s.msgCode == OK then [s.strMsg] else []) == s.lines[..s.next]
    && (s.msgCode == NOT_READY ==> !s.read)
    && (s.msgCode == EOF ==> s.next == |s.lines| && s.pump in {Publishing, Leaving, Outside, Finished})
    && (s.pump == Finished ==> s.msgCode == EOF)
  }

  /** The end code is the last one taken. */
  predicate Ending(s: State) {
    && (s.ret == EOF <==> s.msgCode == EOF && !Full(s))
    && (s.ret == EOF ==> s.taker in {Releasing, TLeaving, TFinished})
    && (s.taker == TFinished ==> s.ret == EOF)
    && (s.taker in {Releasing, TLeaving} ==> s.ret != NOT_READY)
  }

  /** What was dispatched, and then what is held, are the lines taken, in pairs. */
  predicate Paired(s: State) {
    && s.dispatched + s.held == s.taken
    && |s.dispatched| % 2 == 0
    && |s.held| <= 2
    && (|s.held| == 2 ==> s.taker in {Releasing, TLeaving, Local} && s.ret == OK)
  }

  predicate Inv(s: State) {
    Exclusive(s) && Flags(s) && InOrder(s) && Ending(s) && Paired(s)
  }

  lemma InitialInv(s: State)
    requires Initial(s)
    ensures Inv(s)
  {
  }

  lemma PumpKeeps(s: State)
    requires Inv(s) && CanPump(s)
    ensures Inv(PumpStep(s))
  {
    if s.pump == Reading && s.next < |s.lines| {
      assert s.lines[..s.next + 1] == s.lines[..s.next] + [s.lines[s.next]];
    }
  }

  lemma TakerKeepsFlags(s: State)
    requires Exclusive(s) && Flags(s) && Ending(s) && InOrder(s) && CanTake(s)
    ensures var t := TakerStep(s); Exclusive(t) && Flags(t) && Ending(t)
  {
  }

  lemma TakerKeepsOrder(s: State)
    requires Exclusive(s) && Flags(s) && InOrder(s) && CanTake(s)
    ensures InOrder(TakerStep(s))
  {
  }

  lemma TakerKeepsPairs(s: State)
    requires Paired(s) && CanTake(s) && (s.taker == Taking ==> s.msgCode != NOT_READY)
    ensures Paired(TakerStep(s))
  {
  }

  lemma TakerKeeps(s: State)
    requires Inv(s) && CanTake(s)
    ensures Inv(TakerStep(s))
  {
    TakerKeepsFlags(s);
    TakerKeepsOrder(s);
    assert s.taker == Taking ==> s.msgCode != NOT_READY;
    TakerKeepsPairs(s);
    hide *;
  }

  lemma SpuriousKeeps(s: State, t: State)
    requires Inv(s) && Spurious(s, t)
    ensures Inv(t)
  {
  }

  // ------------------------------------------------------------------------------------------
  // Over whole runs
  // ------------------------------------------------------------------------------------------

  lemma StepKeeps(s: State, t: State)
    requires Inv(s) && (Step(s, t) || Spurious(s, t))
    ensures Inv(t) && t.lines == s.lines
  {
    hide Inv, CanPump, CanTake;
    if CanPump(s) && t == PumpStep(s) {
      PumpKeeps(s);
    } else if CanTake(s) && t == TakerStep(s) {
      TakerKeeps(s);
    } else {
      SpuriousKeeps(s, t);
    }
  }

  lemma {:induction false} RunKeeps(run: seq<State>, i: nat)
    requires Run(run) && i < |run|
    ensures Inv(run[i]) && run[i].lines == run[0].lines
  {
    if i == 0 {
      InitialInv(run[0]);
    } else {
      RunKeeps(run, i - 1);
      StepKeeps(run[i - 1], run[i - 1 + 1]);
    }
  }

  /** The longest part of even length at the head. */
  function EvenPart(lines: seq<string>): seq<string> {
    lines[..|lines| - |lines| % 2]
  }

  /**
    In every interleaving what was taken is the head of the file, and what was dispatched the head of
    that in whole pairs; the end code comes only after all lines, and then all whole pairs were
    dispatched.  Outside the lock the two flags are opposite.
  */
  lemma EveryInterleaving(run: seq<State>, i: nat)
    requires Run(run) && i < |run|
    ensures var s, lines := run[i], run[0].lines;
      && s.taken <= lines
      && s.dispatched <= EvenPart(s.taken)
      && (s.mutex == Nobody ==> s.read != s.consumed)
      && (s.ret == EOF ==> s.taken == lines)
      && (s.taker == TFinished ==> s.dispatched == EvenPart(lines))
  {
    RunKeeps(run, i);
    var s := run[i];
    assert s.lines[..s.next] <= s.lines;
    assert s.taken <= s.lines[..s.next];
    assert s.dispatched == s.taken[..|s.dispatched|];
    assert s.next == |s.lines| ==> s.lines[..s.next] == s.lines;
  }

  /** Until the dispatcher has taken the end code some thread can step, without spurious wake-ups. */
  lemma NoDeadlock(s: State)
    requires Inv(s) && s.taker != TFinished
    ensures CanPump(s) || CanTake(s)
  {
  }

  // A bound on the steps to come: each line costs a round of both threads, and a notification costs
  // the one who is notified two steps more, for which the notifier pays.

  function PumpWork(p: Pump): nat {
    match p
    case Publishing => 20
    case Leaving => 10
    case Outside => 7
    case Wanting => 6
    case Testing => 5
    case Reading => 4
    case Waiting => 4
    case Finished => 0
  }

  function TakerWork(t: Taker): nat {
    match t
    case Releasing => 20
    case TLeaving => 10
    case Local => 7
    case TWanting => 6
    case TTesting => 5
    case Taking => 4
    case TWaiting => 4
    case TFinished => 0
  }

  function Work(s: State): int {
    var unread := |s.lines| - s.next + if s.msgCode == EOF then 0 else 1;
    var untaken := |s.lines| - |s.taken| + if s.ret == EOF then 0 else 1;
    40 * unread + 40 * untaken + PumpWork(s.pump) + TakerWork(s.taker) + if |s.held| == 2 then 1 else 0
  }

  lemma WorkBounds(s: State)
    requires Inv(s)
    ensures Work(s) >= 0
  {
  }

  lemma StepWorks(s: State, t: State)
    requires Inv(s) && Step(s, t)
    ensures Work(t) < Work(s)
  {
    if CanPump(s) && t == PumpStep(s) {
      PumpWorks(s);
    } else {
      TakerWorks(s);
    }
  }

  lemma PumpWorks(s: State)
    requires Inv(s) && CanPump(s)
    ensures Work(PumpStep(s)) < Work(s)
  {
  }

  lemma TakerWorks(s: State)
    requires Inv(s) && CanTake(s)
    ensures Work(TakerStep(s)) < Work(s)
  {
  }

  /** A run in which nobody wakes up without being notified. */
  ghost predicate PlainRun(run: seq<State>) {
    Run(run) && forall i :: 0 <= i < |run| - 1 ==> Step(run[i], run[i + 1])
  }

  lemma {:induction false} PlainRunWorks(run: seq<State>, i: nat)
    requires PlainRun(run) && i < |run|
    ensures Work(run[i]) <= Work(run[0]) - i
  {
    if i > 0 {
      PlainRunWorks(run, i - 1);
      RunKeeps(run, i - 1);
      hide Work, Inv, Step;
      StepWorks(run[i - 1], run[i - 1 + 1]);
    }
  }

  /**
    Without spurious wake-ups a run is never longer than a fixed number of steps for each line; and a
    run that cannot go on has taken every line and dispatched every pair.
  */
  lemma EveryRunEnds(run: seq<State>)
    requires PlainRun(run)
    ensures |run| <= 80 * |run[0].lines| + 95
    ensures var last := run[|run| - 1];
      !CanPump(last) && !CanTake(last) ==> last.taken == run[0].lines && last.dispatched == EvenPart(run[0].lines)
  {
    var last := run[|run| - 1];
    PlainRunWorks(run, |run| - 1);
    RunKeeps(run, |run| - 1);
    WorkBounds(last);
    assert Work(run[0]) <= 80 * |run[0].lines| + 94;
    if !CanPump(last) && !CanTake(last) {
      if last.taker != TFinished {
        NoDeadlock(last);
      }
      EveryInterleaving(run, |run| - 1);
    }
  }

  lemma Goes(run: seq<State>, t: State)
    requires PlainRun(run) && Step(run[|run| - 1], t)
    ensures PlainRun(run + [t]) && (run + [t])[0] == run[0]
  {
    hide Step;
    var all := run + [t];
    forall i | 0 <= i < |all| - 1 ensures Step(all[i], all[i + 1]) {
      if i < |run| - 1 {
        assert all[i] == run[i] && all[i + 1] == run[i + 1];
      }
    }
  }

  /** And there is such a run for every file: as long as somebody can step it goes on, to its end. */
  lemma CompleteRun(lines: seq<string>) returns (run: seq<State>)
    ensures PlainRun(run) && run[0].lines == lines
    ensures var last := run[|run| - 1]; last.taken == lines && last.dispatched == EvenPart(lines)
  {
    run := [State(lines, 0, Nobody, false, true, "", NOT_READY, Outside, Local, NOT_READY, [], [], [])];
    hide CanPump, CanTake, PumpStep, TakerStep;
    while CanPump(run[|run| - 1]) || CanTake(run[|run| - 1])
      invariant PlainRun(run) && run[0].lines == lines
      decreases 80 * |lines| + 95 - |run|
    {
      var last := run[|run| - 1];
      var t := if CanPump(last) then PumpStep(last) else TakerStep(last);
      Goes(run, t);
      run := run + [t];
      EveryRunEnds(run);
    }
    EveryRunEnds(run);
  }
}
