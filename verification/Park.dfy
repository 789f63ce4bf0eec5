/**
 * The park handshake between the event loop and the decode task
 * (os9/casquinha.c, lines 1678-1726, 1754-1805 and 1997-2001): two words, one writer each.
 */
module Park {

  datatype Cmd = PARK | RUN | QUIT

  /** Where the task is in `DecodeTaskProc`. */
  datatype TaskAt =
    | Fetch              // about to read the command (after the nap)
    | Has(cmd: Cmd)      // command read
    | InPump             // inside `cq_decring_pump`
    | Acking(cmd: Cmd)   // about to write the ack
    | Exited

  /** `waiting`: in the loop of `ParkDecTask`; `parked`: it returned, and no RUN since. */
  datatype Sys = Sys(cmd: Cmd, ack: Cmd, task: TaskAt, waiting: bool, parked: bool)

  datatype Step = StartRun | StartPark | PollAck | StartQuit | Task

  const BOOT: Sys := Sys(PARK, PARK, Fetch, false, false)

  function TaskStep(s: Sys): Sys {
    match s.task
    case Fetch => s.(task := Has(s.cmd))
    case Has(PARK) => s.(task := Acking(PARK))
    case Has(RUN) => s.(task := InPump)
    case Has(QUIT) => s.(task := Exited, ack := QUIT)
    case InPump => s.(task := Acking(RUN))
    case Acking(c) => s.(task := Fetch, ack := c)
    case Exited => s
  }

  /** Main issues RUN and QUIT only once parked; a step not enabled changes nothing. */
  function Next(s: Sys, a: Step): Sys {
    match a
    case Task => TaskStep(s)
    case StartRun => if s.waiting || !s.parked then s else s.(cmd := RUN, parked := false)
    case StartQuit => if s.waiting || !s.parked then s else s.(cmd := QUIT, parked := false)
    case StartPark => if s.waiting || s.cmd == QUIT then s else s.(cmd := PARK, waiting := true, parked := false)
    case PollAck => if s.waiting && s.ack == PARK then s.(waiting := false, parked := true) else s
  }

  function Run(s: Sys, steps: seq<Step>): Sys
    decreases |steps|
  {
    if steps == [] then s else Run(Next(s, steps[0]), steps[1..])
  }

  /** PARK is written only when the last RUN has been acknowledged. */
  predicate Acknowledged(s: Sys, a: Step) {
    a.StartPark? && !s.waiting ==> s.cmd == RUN ==> s.ack == RUN
  }

  predicate Disciplined(s: Sys, steps: seq<Step>)
    decreases |steps|
  {
    steps == [] || (Acknowledged(s, steps[0]) && Disciplined(Next(s, steps[0]), steps[1..]))
  }

  predicate HoldsRun(t: TaskAt) {
    t == Has(RUN) || t == InPump || t == Acking(RUN)
  }

  predicate HoldsPark(t: TaskAt) {
    t == Has(PARK) || t == Acking(PARK)
  }

  /** What disciplined runs keep: an ack of PARK, or of RUN, is never a stale one. */
  predicate AcksFresh(s: Sys) {
    && (s.cmd == PARK && s.ack == PARK ==> !HoldsRun(s.task))
    && (s.cmd == RUN && s.ack == RUN ==> !HoldsPark(s.task))
    && (s.parked ==> s.cmd == PARK && s.ack == PARK && !s.waiting)
    && (s.waiting ==> s.cmd == PARK)
    && (s.cmd == QUIT ==> !HoldsRun(s.task))
    && (s.ack == QUIT || s.task == Has(QUIT) || s.task == Exited ==> s.cmd == QUIT)
    && s.task != Acking(QUIT)
  }

  lemma {:induction false} StepKeepsFresh(s: Sys, a: Step)
    requires AcksFresh(s) && Acknowledged(s, a)
    ensures AcksFresh(Next(s, a))
  {
  }

  /**
   * In every disciplined run, once `ParkDecTask` has returned the task is outside the
   * pump, and stays outside until the next RUN: a reset never overlaps a pass.
   */
  lemma {:induction false} ParkedMeansOutside(s: Sys, steps: seq<Step>)
    requires AcksFresh(s) && Disciplined(s, steps)
    ensures AcksFresh(Run(s, steps))
    ensures Run(s, steps).parked ==> Run(s, steps).task != InPump
    decreases |steps|
  {
    if steps != [] {
      StepKeepsFresh(s, steps[0]);
      ParkedMeansOutside(Next(s, steps[0]), steps[1..]);
    }
  }

  /** From boot, every disciplined run is safe. */
  lemma ParkIsSafe(steps: seq<Step>)
    requires Disciplined(BOOT, steps)
    ensures Run(BOOT, steps).parked ==> Run(BOOT, steps).task != InPump
  {
    ParkedMeansOutside(BOOT, steps);
  }

  /** Without the hypothesis: RUN, the task enters the pump, PARK, and the old ack satisfies the wait. */
  lemma StaleAckRun()
    ensures var s := Run(BOOT, [StartPark, PollAck, StartRun, Task, Task, StartPark, PollAck]);
            s.parked && s.task == InPump
  {
    assert Run(BOOT, [StartPark, PollAck, StartRun, Task, Task, StartPark, PollAck])
        == Run(Next(Next(Next(BOOT, StartPark), PollAck), StartRun), [Task, Task, StartPark, PollAck]);
  }

  /** Continuations that stay with the park: the task runs, main polls. */
  predicate Waits(steps: seq<Step>) {
    forall i | 0 <= i < |steps| :: steps[i] == Task || steps[i] == PollAck
  }

  lemma {:induction false} WaitingIsSafe(s: Sys, steps: seq<Step>)
    requires s.cmd == PARK && s.ack != QUIT && s.task !in {Has(QUIT), Acking(QUIT), Exited} && Waits(steps)
    requires s.parked || s.waiting
    requires s.ack == PARK || s.parked ==> s.task != Has(RUN) && s.task != InPump
    ensures Run(s, steps).parked ==> Run(s, steps).task != InPump
    decreases |steps|
  {
    if steps != [] {
      assert steps[0] == Task || steps[0] == PollAck;
      assert Waits(steps[1..]);
      WaitingIsSafe(Next(s, steps[0]), steps[1..]);
    }
  }

  /**
   * Exactly when parking from `s` is safe: whatever the task and the polls do next, a
   * return finds the task outside the pump if and only if the wait cannot be satisfied
   * by an old PARK while the task is still acting on a RUN.
   */
  lemma ParkExact(s: Sys)
    requires !s.waiting && s.cmd == RUN && s.ack in {PARK, RUN} && s.task !in {Has(QUIT), Acking(QUIT), Exited}
    ensures (forall steps | Waits(steps) ::
               var t := Run(Next(s, StartPark), steps); t.parked ==> t.task != InPump)
            <==> !(s.ack == PARK && (s.task == Has(RUN) || s.task == InPump))
  {
    var p := Next(s, StartPark);
    if s.ack == PARK && (s.task == Has(RUN) || s.task == InPump) {
      var steps := if s.task == InPump then [PollAck] else [PollAck, Task];
      assert Waits(steps);
      assert Run(p, [PollAck]) == Run(Next(p, PollAck), []);
      assert Run(p, [PollAck, Task]) == Run(Next(p, PollAck), [Task]) == Run(Next(Next(p, PollAck), Task), []);
      assert Run(p, steps).parked && Run(p, steps).task == InPump;
    } else {
      forall steps | Waits(steps)
        ensures var t := Run(p, steps); t.parked ==> t.task != InPump
      {
        WaitingIsSafe(p, steps);
      }
    }
  }

  /** Whatever follows, a return of the wait finds the task outside the pump. */
  ghost predicate SafeToPark(s: Sys) {
    forall steps | Waits(steps) :: var t := Run(Next(s, StartPark), steps); t.parked ==> t.task != InPump
  }

  ghost predicate Reachable(s: Sys) {
    exists steps :: Run(BOOT, steps) == s
  }

  /** Quitting is final, and a park is under way or over only under PARK. */
  predicate QuitKept(s: Sys) {
    && (s.task in {Has(QUIT), Acking(QUIT), Exited} || s.ack == QUIT ==> s.cmd == QUIT)
    && (s.parked || s.waiting ==> s.cmd == PARK)
  }

  lemma {:induction false} QuitIsFinal(s: Sys, steps: seq<Step>)
    requires QuitKept(s)
    ensures QuitKept(Run(s, steps))
    decreases |steps|
  {
    if steps != [] { QuitIsFinal(Next(s, steps[0]), steps[1..]); }
  }

  /**
   * What the event loop can check: with a RUN outstanding, parking is safe wherever the task
   * may be if and only if its last acknowledgement is of a RUN.
   */
  lemma ParkByTheWords(ack: Cmd)
    requires ack in {PARK, RUN}
    ensures (forall task :: Reachable(Sys(RUN, ack, task, false, false)) ==>
                              SafeToPark(Sys(RUN, ack, task, false, false)))
            <==> ack == RUN
  {
    if ack == RUN {
      forall task | Reachable(Sys(RUN, ack, task, false, false)) ensures SafeToPark(Sys(RUN, ack, task, false, false)) {
        var s := Sys(RUN, ack, task, false, false);
        var steps :| Run(BOOT, steps) == s;
        QuitIsFinal(BOOT, steps);
        ParkExact(s);
      }
    } else {
      var s := Sys(RUN, PARK, InPump, false, false);
      var steps := [StartPark, PollAck, StartRun, Task, Task];
      assert Run(BOOT, steps) == Run(Next(Next(Next(BOOT, StartPark), PollAck), StartRun), [Task, Task]) == s;
      assert Reachable(s);
      ParkExact(s);
    }
  }

  function TaskRuns(s: Sys, n: nat): Sys
    decreases n
  {
    if n == 0 then s else TaskRuns(TaskStep(s), n - 1)
  }

  /** Task steps until the ack of PARK is written. */
  function Distance(t: TaskAt): nat {
    match t
    case Acking(c) => if c == PARK then 1 else 4
    case Has(c) => if c == PARK then 2 else 6
    case Fetch => 3
    case _ => 5
  }

  /** The wait ends: a live task writes the ack of PARK within six of its steps. */
  lemma {:induction false} ParkIsAcked(s: Sys)
    requires s.cmd == PARK && s.task !in {Has(QUIT), Acking(QUIT), Exited}
    ensures Distance(s.task) <= 6 && TaskRuns(s, Distance(s.task)).ack == PARK
    decreases Distance(s.task)
  {
    if s.task == Acking(PARK) {
      assert TaskRuns(TaskStep(s), 0) == TaskStep(s);
    } else {
      ParkIsAcked(TaskStep(s));
    }
  }
}
