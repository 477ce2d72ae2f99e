/**
 The standalone round-robin scheduler: a run queue driven by commands, in which `Execute`
 may arrive while a loop is already running and then nests. The channel and the clock are
 inputs: `inbox` holds what each poll of the channel will find, `clock` the readings still
 to come. A run is observed until its readings are used up.
 */
module StandaloneScheduler {
  import opened Options
  import opened SchedulerLog

  datatype Runnable = Runnable(cycles: int, lastRun: nat)

  /** A task's counter is the sum of its charges in the log, its stamp the end of its last run. */
  ghost predicate Fits(r: Runnable, log: seq<Event>, task: nat) {
    r.cycles == Charged(log, task) && (LastEnd(log, task).Some? ==> r.lastRun == LastEnd(log, task).value)
  }

  ghost predicate Accounted(runQ: seq<Runnable>, log: seq<Event>) {
    forall i :: 0 <= i < |runQ| ==> Fits(runQ[i], log, i)
  }

  /** Tasks beyond the queue have been charged nothing. */
  lemma {:induction false} NoCharge(m: Monitor, log: seq<Event>, task: nat)
    requires Watch(m, log).ok && task >= Watch(m, log).tasks
    ensures Charged(log, task) == 0 && LastEnd(log, task) == None
    decreases |log|
  {
    if log != [] {
      var shorter, e := log[..|log| - 1], log[|log| - 1];
      var before := Watch(m, shorter);
      TasksStep(before, e);
      NoCharge(m, shorter, task);
    }
  }

  lemma ChargedMore(log: seq<Event>, e: Event, task: nat)
    ensures Charged(log + [e], task) == Charged(log, task) + if e.Ran? && e.task == task then Charge(e) else 0
    ensures LastEnd(log + [e], task) == if e.Ran? && e.task == task then Some(e.end) else LastEnd(log, task)
  {
  }

  /** An event that is no run keeps the accounts. */
  lemma AccountedQuiet(runQ: seq<Runnable>, log: seq<Event>, e: Event)
    requires Accounted(runQ, log) && !e.Ran?
    ensures Accounted(runQ, log + [e])
  {
  }

  lemma AccountedRun(runQ: seq<Runnable>, log: seq<Event>, t: nat, begin: nat, end: nat)
    requires Accounted(runQ, log) && t < |runQ|
    ensures Accounted(runQ[t := Runnable(runQ[t].cycles + (end - begin), end)], log + [Ran(t, begin, end)])
  {
  }

  lemma AccountedAdd(runQ: seq<Runnable>, log: seq<Event>, stamp: nat)
    requires Accounted(runQ, log) && Watch(IDLE, log).ok && Watch(IDLE, log).tasks == |runQ|
    ensures Accounted(runQ + [Runnable(0, stamp)], log + [Added])
  {
    NoCharge(IDLE, log, |runQ|);
    AccountedQuiet(runQ, log, Added);
    ChargedMore(log, Added, |runQ|);
  }

  lemma StepQuiet(m: Monitor, e: Event)
    requires !e.Ran? && !e.Added?
    ensures var w := Next(m, e); w.tasks == m.tasks && w.next == m.next && (w.looping ==> m.looping || m.tasks > 0)
  {
    match e {
      case Received(cmd) => TookQuiet(m, cmd);
      case Polled(reply) => if reply.Some? { TookQuiet(m, reply.value); }
      case _ =>
    }
  }

  lemma TookQuiet(m: Monitor, cmd: Command)
    ensures var w := Took(m, cmd); w.tasks == m.tasks && w.next == m.next && (w.looping ==> m.looping)
  {
  }

  /** Queue, turn and accounts are what the monitor says, and nothing forbidden has happened. */
  ghost predicate Agrees(runQ: seq<Runnable>, nextTask: nat, log: seq<Event>) {
    var m := Watch(IDLE, log);
    && m.ok && m.tasks == |runQ| && m.next == nextTask
    && (nextTask > 0 ==> nextTask < |runQ|)
    && (m.looping ==> |runQ| > 0)
    && Accounted(runQ, log)
  }

  lemma AgreesQuiet(runQ: seq<Runnable>, nextTask: nat, log: seq<Event>, e: Event)
    requires Agrees(runQ, nextTask, log) && Step(Watch(IDLE, log), e).ok && !e.Ran? && !e.Added?
    ensures Agrees(runQ, nextTask, log + [e]) && Watch(IDLE, log + [e]) == Step(Watch(IDLE, log), e)
  {
    WatchMore(IDLE, log, e);
    AccountedQuiet(runQ, log, e);
    StepQuiet(Watch(IDLE, log), e);
  }

  lemma AgreesAdd(runQ: seq<Runnable>, nextTask: nat, log: seq<Event>, stamp: nat)
    requires Agrees(runQ, nextTask, log) && MayAdd(Watch(IDLE, log))
    ensures Agrees(runQ + [Runnable(0, stamp)], nextTask, log + [Added])
    ensures Watch(IDLE, log + [Added]) == Step(Watch(IDLE, log), Added)
  {
    WatchMore(IDLE, log, Added);
    AccountedAdd(runQ, log, stamp);
  }

  lemma AgreesRun(runQ: seq<Runnable>, t: nat, log: seq<Event>, begin: nat, end: nat, e: Event)
    requires Agrees(runQ, t, log) && e == Ran(t, begin, end) && t < |runQ| && Step(Watch(IDLE, log), e).ok
    ensures Agrees(runQ[t := Runnable(runQ[t].cycles + (end - begin), end)],
                   if t + 1 == |runQ| then 0 else t + 1, log + [e])
    ensures Watch(IDLE, log + [e]) == Step(Watch(IDLE, log), e)
    ensures Step(Watch(IDLE, log), e).due <==> t + 1 == |runQ|
  {
    WatchMore(IDLE, log, e);
    AccountedRun(runQ, log, t, begin, end);
  }

  function Fresh(stamps: seq<nat>): seq<Runnable> {
    seq(|stamps|, i requires 0 <= i < |stamps| => Runnable(0, stamps[i]))
  }

  function Additions(n: nat): seq<Event> {
    seq(n, _ => Added)
  }

  /** From queue `q0`, log `l0` and monitor `m0`, the first `i` tasks of a closure have been added. */
  ghost predicate Partly(q0: seq<Runnable>, l0: seq<Event>, m0: Monitor, q: seq<Runnable>, l: seq<Event>, m: Monitor,
                         stamps: seq<nat>, i: nat)
  {
    && i <= |stamps| && q == q0 + Fresh(stamps[..i]) && l == l0 + Additions(i)
    && m == m0.(tasks := |q|, todo := AddsLeft(|stamps| - i))
  }

  lemma OneMore(q0: seq<Runnable>, l0: seq<Event>, m0: Monitor, q: seq<Runnable>, l: seq<Event>, m: Monitor,
                stamps: seq<nat>, i: nat)
    requires Partly(q0, l0, m0, q, l, m, stamps, i) && i < |stamps| && AtCommand(m0) && m0.ok
    ensures MayAdd(m)
    ensures Partly(q0, l0, m0, q + [Runnable(0, stamps[i])], l + [Added], Step(m, Added), stamps, i + 1)
  {
    assert Fresh(stamps[..i + 1]) == Fresh(stamps[..i]) + [Runnable(0, stamps[i])];
    assert Additions(i + 1) == Additions(i) + [Added];
  }

  /** The commands and readings of a log, followed by what is still to come, are all there ever were. */
  ghost predicate Recorded(log: seq<Event>, clock: seq<nat>, inbox: seq<Option<Command>>,
                           readings: seq<nat>, commands: seq<Command>)
  {
    Readings(log) + clock == readings && Commands(log) + Waiting(inbox) == commands
  }

  lemma RecordQuiet(log: seq<Event>, e: Event, clock: seq<nat>, inbox: seq<Option<Command>>,
                    readings: seq<nat>, commands: seq<Command>)
    requires Recorded(log, clock, inbox, readings, commands) && Reading(e) == [] && Takes(e) == None
    ensures Recorded(log + [e], clock, inbox, readings, commands)
  {
    RecordsMore(log, e);
  }

  lemma RecordReading(log: seq<Event>, e: Event, clock: seq<nat>, inbox: seq<Option<Command>>,
                      readings: seq<nat>, commands: seq<Command>)
    requires Recorded(log, clock, inbox, readings, commands) && clock != [] && Reading(e) == [clock[0]]
    requires Takes(e) == None
    ensures Recorded(log + [e], clock[1..], inbox, readings, commands)
  {
    RecordsMore(log, e);
    assert Readings(log) + clock == (Readings(log) + [clock[0]]) + clock[1..];
  }

  lemma RecordCommand(log: seq<Event>, e: Event, clock: seq<nat>, inbox: seq<Option<Command>>,
                      readings: seq<nat>, commands: seq<Command>)
    requires Recorded(log, clock, inbox, readings, commands) && inbox != [] && Takes(e) == inbox[0] && Reading(e) == []
    ensures Recorded(log + [e], clock, inbox[1..], readings, commands)
  {
    RecordsMore(log, e);
    Regroup(Commands(log), Present(inbox[0]), Waiting(inbox[1..]));
  }

  lemma RecordNothing(log: seq<Event>, clock: seq<nat>, inbox: seq<Option<Command>>,
                      readings: seq<nat>, commands: seq<Command>)
    requires Recorded(log, clock, inbox, readings, commands) && inbox != [] && inbox[0] == None
    ensures Recorded(log, clock, inbox[1..], readings, commands)
  {
    Regroup(Commands(log), [], Waiting(inbox[1..]));
  }

  lemma Regroup(a: seq<Command>, b: seq<Command>, c: seq<Command>)
    ensures a + (b + c) == (a + b) + c && a + [] == a
  {
  }

  class Scheduler {
    var runQ: seq<Runnable>
    var nextTask: nat
    var executing: bool
    var shutdown: bool
    var clock: seq<nat>
    var inbox: seq<Option<Command>>
    ghost var log: seq<Event>
    ghost const readings: seq<nat>
    ghost const commands: seq<Command>

    ghost function Now(): (m: Monitor)
      reads this`log
    {
      Watch(IDLE, log)
    }

    /** The fields agree with the log, and no reading and no command was lost, made up, or taken out of turn. */
    ghost predicate Valid()
      reads this
    {
      Agrees(runQ, nextTask, log) && Recorded(log, clock, inbox, readings, commands)
    }

    /** Taking Shutdown clears the loop flag and sets the exit flag. */
    ghost predicate FlagsAgree()
      reads this
    {
      (Now().stopped ==> shutdown && !executing) && (Now().looping ==> executing)
    }

    constructor (clock: seq<nat>, inbox: seq<Option<Command>>)
      ensures Valid() && log == [] && runQ == [] && shutdown && !executing
      ensures this.clock == clock == readings && this.inbox == inbox && commands == Waiting(inbox)
    {
      runQ, nextTask, executing, shutdown := [], 0, false, true;
      this.clock, this.inbox := clock, inbox;
      log, readings, commands := [], clock, Waiting(inbox);
      new;
      assert [] + clock == clock && [] + Waiting(inbox) == Waiting(inbox);
    }

    /** Writes an event to the log; what it takes from the clock and the channel is up to the caller. */
    ghost method Note(e: Event)
      requires Agrees(runQ, nextTask, log) && Step(Now(), e).ok && !e.Ran? && !e.Added?
      modifies this`log
      ensures log == old(log) + [e] && Now() == Step(old(Now()), e) && Agrees(runQ, nextTask, log)
    {
      AgreesQuiet(runQ, nextTask, log, e);
      log := log + [e];
    }

    /** Queues one task; answers its handle. */
    method AddTask(stamp: nat) returns (handle: nat)
      requires Valid() && MayAdd(Now())
      modifies this`runQ, this`log
      ensures Valid() && handle == |runQ| && runQ == old(runQ) + [Runnable(0, stamp)]
      ensures log == old(log) + [Added] && Now() == Step(old(Now()), Added)
    {
      AgreesAdd(runQ, nextTask, log, stamp);
      RecordQuiet(log, Added, clock, inbox, readings, commands);
      runQ := runQ + [Runnable(0, stamp)];
      log := log + [Added];
      handle := |runQ|;
    }

    /** A closure sent to the scheduler, which adds one task per stamp. */
    method RunClosure(stamps: seq<nat>)
      requires Valid() && AtCommand(Now()) && Now().todo == Owed(Run(stamps))
      modifies this`runQ, this`log
      ensures Valid() && runQ == old(runQ) + Fresh(stamps) && log == old(log) + Additions(|stamps|)
      ensures Now() == old(Now()).(tasks := |runQ|, todo := Nothing)
    {
      ghost var q0, l0, m0 := runQ, log, Now();
      for i := 0 to |stamps|
        invariant Valid() && Partly(q0, l0, m0, runQ, log, Now(), stamps, i)
      {
        OneMore(q0, l0, m0, runQ, log, Now(), stamps, i);
        var _ := AddTask(stamps[i]);
      }
      assert stamps[..|stamps|] == stamps;
    }

    /** What carrying out a command means for the queue and the log. */
    twostate predicate CarriedOut(request: Command)
      reads this
    {
      match request
      case Add(stamp) => runQ == old(runQ) + [Runnable(0, stamp)] && log == old(log) + [Added]
      case Run(stamps) => runQ == old(runQ) + Fresh(stamps) && log == old(log) + Additions(|stamps|)
      case Execute => old(clock) != [] ==> old(log) + [Entered(old(clock)[0])] <= log
      case Shutdown => runQ == old(runQ) && log == old(log) && shutdown && !executing
      case Handshake => runQ == old(runQ) && log == old(log) + [Greeted]
    }

    /**
     Acts on a command just taken, inside a loop or outside any. Unless the readings ran out,
     a loop that was active still is, exactly when Shutdown was not taken meanwhile.
     */
    method HandleRequest(request: Command)
      requires Valid() && Now().next == 0 && !Now().due && FlagsAgreeBut(request) && Now().todo == Owed(request)
      requires Now().stopped == (request == Shutdown) && (request == Shutdown ==> !Now().looping)
      modifies this
      ensures Valid() && CarriedOut(request)
      ensures old(log) <= log && |clock| <= |old(clock)| && |inbox| <= |old(inbox)|
      ensures clock != [] ==> nextTask == 0 && !Now().due && FlagsAgree() && Now().todo == Nothing
      ensures clock != [] ==> Now().open == old(Now()).open
      ensures clock != [] ==> (Now().looping <==> old(Now()).looping && !Now().stopped)
      ensures clock != [] ==> (Now().looping ==> Now().begin == old(Now()).begin)
      ensures clock != [] ==> (shutdown <==> old(shutdown) || Now().stopped)
      decreases |clock|, 1
    {
      match request
      case Add(stamp) =>
        var _ := AddTask(stamp);
      case Run(stamps) =>
        RunClosure(stamps);
      case Execute =>
        ExecuteLoop();
      case Shutdown =>
        executing := false;
        shutdown := true;
      case Handshake =>
        Greet();
    }

    /** Tells the sender that the scheduler has got this far. */
    method Greet()
      requires Valid() && AtCommand(Now()) && Now().todo == SchedulerLog.Greet
      modifies this`log
      ensures Valid() && log == old(log) + [Greeted] && Now() == Step(old(Now()), Greeted)
    {
      RecordQuiet(log, Greeted, clock, inbox, readings, commands);
      Note(Greeted);
    }

    /** Before Shutdown is acted upon its flags are still to be set. */
    ghost predicate FlagsAgreeBut(request: Command)
      reads this
    {
      request != Shutdown ==> FlagsAgree()
    }

    /** Runs and charges whichever task is next, and passes the turn on. */
    method RunNext(begin: nat) returns (end: nat, wrapped: bool)
      requires Valid() && Now().looping && !Now().due && Now().todo == Nothing && begin == Now().begin && clock != []
      modifies this`runQ, this`nextTask, this`clock, this`log
      ensures Valid() && end == old(clock[0]) && clock == old(clock[1..])
      ensures log == old(log) + [Ran(old(nextTask), begin, end)]
      ensures Now() == Step(old(Now()), Ran(old(nextTask), begin, end))
      ensures wrapped == Now().due
    {
      ghost var e := Ran(nextTask, begin, clock[0]);
      AgreesRun(runQ, nextTask, log, begin, clock[0], e);
      RecordReading(log, e, clock, inbox, readings, commands);
      end := clock[0];
      clock := clock[1..];
      runQ := runQ[nextTask := Runnable(runQ[nextTask].cycles + (end - begin), end)];
      log := log + [e];
      var next := nextTask + 1;
      wrapped := next == |runQ|;
      nextTask := if wrapped then 0 else next;
    }

    /** Looks at the channel without waiting. */
    method Poll() returns (reply: Option<Command>)
      requires Valid() && Now().due && Now().looping && Now().todo == Nothing
      modifies this`inbox, this`log
      ensures Valid() && log == old(log) + [Polled(reply)] && Now() == Step(old(Now()), Polled(reply))
      ensures |inbox| <= |old(inbox)|
    {
      reply := if inbox == [] then None else inbox[0];
      if inbox == [] {
        RecordQuiet(log, Polled(reply), clock, inbox, readings, commands);
      } else {
        RecordCommand(log, Polled(reply), clock, inbox, readings, commands);
      }
      inbox := if inbox == [] then inbox else inbox[1..];
      Note(Polled(reply));
    }

    /**
     Runs whichever task is next; after the last one of a round, polls the channel and
     acts on what it finds.
     */
    method ExecuteInternal(begin: nat) returns (time: nat)
      requires Valid() && FlagsAgree() && clock != [] && Now().todo == Nothing
      requires Now().looping && !Now().stopped && !Now().due && begin == Now().begin
      modifies this
      ensures Valid() && old(log) + [Ran(old(nextTask), begin, old(clock)[0])] <= log
      ensures |clock| < |old(clock)| && |inbox| <= |old(inbox)|
      ensures clock != [] ==> !Now().due && FlagsAgree() && (Now().looping <==> !Now().stopped)
      ensures clock != [] ==> Now().todo == Nothing && Now().open == old(Now()).open
      ensures clock != [] ==> (Now().stopped ==> nextTask == 0)
      ensures clock != [] ==> (Now().looping ==> time == Now().begin)
      ensures clock != [] ==> (shutdown <==> old(shutdown) || Now().stopped)
      decreases |clock|, 3
    {
      var wrapped;
      time, wrapped := RunNext(begin);
      if wrapped {
        EndRound();
      }
    }

    /** Polls the channel and acts on what it finds. */
    method EndRound()
      requires Valid() && FlagsAgree() && Now().looping && !Now().stopped && Now().due && nextTask == 0
      requires Now().todo == Nothing
      modifies this
      ensures Valid() && old(log) <= log && |clock| <= |old(clock)| && |inbox| <= |old(inbox)|
      ensures clock != [] ==> !Now().due && FlagsAgree() && (Now().looping <==> !Now().stopped)
      ensures clock != [] ==> Now().todo == Nothing && Now().open == old(Now()).open && nextTask == 0
      ensures clock != [] ==> (Now().looping ==> Now().begin == old(Now()).begin)
      ensures clock != [] ==> (shutdown <==> old(shutdown) || Now().stopped)
      decreases |clock|, 2
    {
      var reply := Poll();
      if reply.Some? {
        HandleRequest(reply.value);
      }
    }

    /** The reading a loop starts with. */
    method Enter() returns (beginTime: nat)
      requires Valid() && MayEnter(Now()) && clock != []
      modifies this`clock, this`log
      ensures Valid() && beginTime == old(clock)[0] && clock == old(clock)[1..]
      ensures log == old(log) + [Entered(beginTime)] && Now() == Step(old(Now()), Entered(beginTime))
    {
      RecordReading(log, Entered(clock[0]), clock, inbox, readings, commands);
      beginTime := clock[0];
      clock := clock[1..];
      Note(Entered(beginTime));
    }

    /** Runs tasks until Shutdown is taken; on an empty queue only raises the flag. */
    method ExecuteLoop()
      requires Valid() && MayEnter(Now()) && FlagsAgree()
      modifies this
      ensures Valid() && old(log) <= log && |clock| <= |old(clock)| && |inbox| <= |old(inbox)|
      ensures old(clock) != [] ==> old(log) + [Entered(old(clock)[0])] <= log
      ensures clock != [] ==> !Now().due && nextTask == 0 && FlagsAgree() && !Now().looping
      ensures clock != [] ==> Now().todo == Nothing && Now().open == old(Now()).open
      ensures clock != [] ==> (Now().stopped <==> old(runQ) != [])
      ensures clock != [] ==> (shutdown <==> old(shutdown) || Now().stopped)
      ensures old(runQ) == [] ==> executing && runQ == []
      decreases |clock|, 0
    {
      executing := true;
      if clock == [] {
        return;
      }
      var beginTime := Enter();
      ghost var entered := log;
      if runQ != [] {
        while executing && clock != []
          invariant Valid() && entered <= log && |clock| < |old(clock)| && |inbox| <= |old(inbox)|
          invariant clock != [] ==> !Now().due && FlagsAgree() && (Now().looping <==> !Now().stopped)
          invariant clock != [] ==> Now().todo == Nothing && Now().open == old(Now()).open
          invariant clock != [] ==> (executing ==> Now().looping) && (Now().stopped ==> nextTask == 0)
          invariant clock != [] ==> (Now().looping ==> beginTime == Now().begin)
          invariant clock != [] ==> (shutdown <==> old(shutdown) || Now().stopped)
          decreases |clock|
        {
          beginTime := ExecuteInternal(beginTime);
        }
      }
    }

    /** Takes the next command off the channel. */
    method Receive() returns (cmd: Option<Command>)
      requires Valid() && AtCommand(Now()) && !Now().looping && !Now().open && Now().todo == Nothing && inbox != []
      modifies this`inbox, this`log
      ensures Valid() && cmd == old(inbox)[0] && inbox == old(inbox)[1..]
      ensures cmd.Some? ==> log == old(log) + [Received(cmd.value)] && Now() == Step(old(Now()), Received(cmd.value))
      ensures cmd.None? ==> log == old(log)
    {
      cmd := inbox[0];
      if cmd.Some? {
        RecordCommand(log, Received(cmd.value), clock, inbox, readings, commands);
        Note(Received(cmd.value));
      } else {
        RecordNothing(log, clock, inbox, readings, commands);
      }
      inbox := inbox[1..];
    }

    /** Receives one command and acts on it. */
    method HandleNext()
      requires Valid() && AtCommand(Now()) && !Now().looping && !Now().open && Now().todo == Nothing
      requires inbox != [] && !shutdown && FlagsAgree()
      modifies this
      ensures Valid() && old(log) <= log && |inbox| < |old(inbox)|
      ensures clock != [] ==> !Now().due && nextTask == 0 && !Now().looping && FlagsAgree()
      ensures clock != [] ==> (shutdown <==> Now().stopped) && Now().todo == Nothing && !Now().open
    {
      var cmd := Receive();
      if cmd.Some? {
        HandleRequest(cmd.value);
      }
    }

    ghost method Begin()
      requires Valid() && nextTask == 0 && !Now().due && !Now().looping && Now().todo == Nothing
      modifies this`log
      ensures Valid() && log == old(log) + [Started] && Now() == Step(old(Now()), Started)
    {
      RecordQuiet(log, Started, clock, inbox, readings, commands);
      Note(Started);
    }

    ghost method HangUp()
      requires Valid() && AtCommand(Now()) && !Now().looping && Now().todo == Nothing && inbox == []
      modifies this`log
      ensures Valid() && log == old(log) + [HungUp] && Now() == Step(old(Now()), HungUp) && Commands(log) == commands
    {
      RecordQuiet(log, HungUp, clock, inbox, readings, commands);
      Note(HungUp);
      assert Commands(log) + [] == Commands(log);
    }

    /** Takes commands until Shutdown or until every sender has hung up. */
    method HandleRequests()
      requires Valid() && nextTask == 0 && !Now().due && !Now().looping && Now().todo == Nothing
      modifies this
      ensures Valid() && old(log) + [Started] <= log
      ensures clock != [] ==> !Now().looping && (Now().stopped || inbox == []) && FlagsAgree()
      ensures clock != [] ==> Now().todo == Nothing && (!Now().stopped ==> Now().open && Commands(log) == commands)
      ensures clock != [] && Now().stopped ==> shutdown && !executing && nextTask == 0
    {
      shutdown := false;
      Begin();
      while !shutdown && inbox != [] && clock != []
        invariant Valid() && old(log) + [Started] <= log
        invariant clock != [] ==> !Now().due && nextTask == 0 && !Now().looping && FlagsAgree()
        invariant clock != [] ==> (shutdown <==> Now().stopped) && Now().todo == Nothing && !Now().open
        decreases |inbox|
      {
        HandleNext();
      }
      if clock != [] && !shutdown {
        HangUp();
      }
    }
  }
}
