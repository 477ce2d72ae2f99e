/**
 What a round-robin scheduler does, as a log of events, and a monitor that says which logs
 are allowed. The properties of a run are lemmas about every allowed log.
 */
module SchedulerLog {
  import opened Options

  /**
   A command on the scheduler's channel. Adding tasks reads the clock once per task;
   those readings are part of the command.
   */
  datatype Command = Add(stamp: nat) | Run(stamps: seq<nat>) | Execute | Shutdown | Handshake

  datatype Event =
    | Started
    | HungUp
    | Received(cmd: Command)
    | Polled(reply: Option<Command>)
    | Added
    | Greeted
    | Entered(at: nat)
    | Ran(task: nat, begin: nat, end: nat)

  /** What a command just taken still has to bring about. */
  datatype Todo = Nothing | Adds(n: nat) | Enter | Greet

  /**
   `tasks` are queued, `next` runs next, `begin` is the reading the next charge starts from,
   `due` says a poll must come before anything else, `looping` that a loop is active,
   `stopped` that Shutdown was taken, `open` that nobody is taking commands, so that the
   owner may add tasks and start loops, `todo` what the last command still asks for, `ok` that
   nothing forbidden happened.
   */
  datatype Monitor = Monitor(
    tasks: nat, next: nat, begin: nat, due: bool, looping: bool, stopped: bool, open: bool, todo: Todo, ok: bool)

  const IDLE: Monitor := Monitor(0, 0, 0, false, false, false, true, Nothing, true)

  predicate AtCommand(m: Monitor) {
    m.next == 0 && !m.due && !m.stopped
  }

  function AddsLeft(n: nat): Todo {
    if n == 0 then Nothing else Adds(n)
  }

  function Owed(cmd: Command): Todo {
    match cmd
    case Add(_) => Adds(1)
    case Run(stamps) => AddsLeft(|stamps|)
    case Execute => Enter
    case Shutdown => Nothing
    case Handshake => Greet
  }

  /** The owner of a scheduler nobody sends commands to may act itself. */
  predicate OwnerMay(m: Monitor) {
    m.open && !m.looping && m.todo == Nothing
  }

  predicate MayAdd(m: Monitor) {
    AtCommand(m) && ((m.todo.Adds? && m.todo.n > 0) || OwnerMay(m))
  }

  predicate MayEnter(m: Monitor) {
    AtCommand(m) && (m.todo == Enter || OwnerMay(m))
  }

  function Took(m: Monitor, cmd: Command): (r: Monitor) {
    if cmd == Shutdown then m.(looping := false, stopped := true) else m.(todo := Owed(cmd))
  }

  predicate Allowed(m: Monitor, e: Event) {
    match e
    case Started => m.next == 0 && !m.due && !m.looping && m.todo == Nothing
    case HungUp => AtCommand(m) && !m.looping && m.todo == Nothing
    case Received(_) => AtCommand(m) && !m.looping && !m.open && m.todo == Nothing
    case Polled(_) => m.due && m.looping && m.todo == Nothing
    case Added => MayAdd(m)
    case Greeted => AtCommand(m) && m.todo == Greet
    case Entered(_) => MayEnter(m)
    case Ran(task, begin, _) =>
      m.looping && !m.due && m.todo == Nothing && task == m.next < m.tasks && begin == m.begin
  }

  function Next(m: Monitor, e: Event): (r: Monitor) {
    match e
    case Started => m.(stopped := false, open := false)
    case HungUp => m.(open := true)
    case Received(cmd) => Took(m, cmd)
    case Polled(reply) => (if reply.Some? then Took(m, reply.value) else m).(due := false)
    case Added => m.(tasks := m.tasks + 1, todo := OneLess(m.todo))
    case Greeted => m.(todo := Nothing)
    case Entered(at) => m.(begin := at, looping := m.tasks > 0, todo := Nothing)
    case Ran(_, _, end) =>
      var wraps := m.next + 1 == m.tasks;
      m.(next := if wraps then 0 else m.next + 1, due := wraps, begin := end)
  }

  function OneLess(t: Todo): Todo {
    if t.Adds? && t.n > 0 then AddsLeft(t.n - 1) else t
  }

  function Step(m: Monitor, e: Event): (r: Monitor) {
    Next(m, e).(ok := m.ok && Allowed(m, e))
  }

  /** The monitor's state after a log. */
  function Watch(m: Monitor, log: seq<Event>): (r: Monitor) {
    if log == [] then m else Step(Watch(m, log[..|log| - 1]), log[|log| - 1])
  }

  lemma WatchMore(m: Monitor, log: seq<Event>, e: Event)
    ensures Watch(m, log + [e]) == Step(Watch(m, log), e)
  {
  }

  lemma LastApart(a: seq<Event>, b: seq<Event>)
    requires b != []
    ensures a + b == (a + b[..|b| - 1]) + [b[|b| - 1]] && b == b[..|b| - 1] + [b[|b| - 1]]
  {
  }

  /** Watching a log is watching its parts one after the other. */
  lemma {:induction false} WatchSplit(m: Monitor, a: seq<Event>, b: seq<Event>)
    ensures Watch(m, a + b) == Watch(Watch(m, a), b)
    decreases |b|
  {
    if b == [] {
      assert a + b == a;
    } else {
      var shorter, e := b[..|b| - 1], b[|b| - 1];
      var longer := a + shorter;
      LastApart(a, b);
      WatchSplit(m, a, shorter);
      WatchMore(m, longer, e);
      WatchMore(Watch(m, a), shorter, e);
    }
  }

  /** A stretch of an allowed log, watched from the state it starts in. */
  lemma WatchStretch(m: Monitor, log: seq<Event>, i: nat, j: nat)
    requires i <= j <= |log| && Watch(m, log).ok
    ensures Watch(Watch(m, log[..i]), log[i..j]) == Watch(m, log[..j]) && Watch(m, log[..j]).ok
  {
    assert log[..i] + log[i..j] == log[..j];
    WatchSplit(m, log[..i], log[i..j]);
    OkBefore(m, log, j);
  }

  /** Once something forbidden happened the log stays refused. */
  lemma {:induction false} OkBefore(m: Monitor, log: seq<Event>, i: nat)
    requires i <= |log| && Watch(m, log).ok
    ensures Watch(m, log[..i]).ok
    decreases |log|
  {
    if i < |log| {
      var shorter := log[..|log| - 1];
      OkBefore(m, shorter, i);
      assert shorter[..i] == log[..i];
    } else {
      assert log[..i] == log;
    }
  }

  /** The state from which an allowed log takes its event `i`. */
  lemma StepAt(m: Monitor, log: seq<Event>, i: nat)
    requires i < |log| && Watch(m, log).ok
    ensures Watch(m, log[..i + 1]) == Step(Watch(m, log[..i]), log[i])
    ensures Watch(m, log[..i + 1]).ok && Watch(m, log[..i]).ok
  {
    assert log[..i + 1][..i] == log[..i];
    OkBefore(m, log, i + 1);
    OkBefore(m, log, i);
  }

  // ---------------------------------------------------------------- shutdown

  predicate TakesShutdown(e: Event) {
    e == Received(Shutdown) || e == Polled(Some(Shutdown))
  }

  /** After Shutdown is taken, at whatever depth of nesting, nothing happens until the scheduler is started again. */
  lemma NothingAfterShutdown(m: Monitor, log: seq<Event>, i: nat)
    requires Watch(m, log).ok && i + 1 < |log| && TakesShutdown(log[i])
    ensures log[i + 1] == Started
  {
  }

  // ---------------------------------------------------------------- commands

  /** The command an event takes off the channel. */
  function Takes(e: Event): Option<Command> {
    if e.Received? then Some(e.cmd) else if e.Polled? then e.reply else None
  }

  /**
   Whatever follows a command carries it out: Execute enters a loop, Add queues exactly one
   task, a closure exactly its tasks, a handshake is answered, and a poll that found nothing is
   followed by the next run.
   */
  lemma CommandsCarriedOut(log: seq<Event>, i: nat, cmd: Command)
    requires Watch(IDLE, log).ok && i + 1 < |log| && Takes(log[i]) == Some(cmd)
    ensures cmd == Execute ==> log[i + 1].Entered?
    ensures cmd == Handshake ==> log[i + 1] == Greeted
    ensures cmd == Shutdown ==> log[i + 1] == Started
    ensures cmd.Add? ==> log[i + 1] == Added && (i + 2 < |log| ==> log[i + 2] != Added)
  {
    var next := i + 1;
    StepAt(IDLE, log, i);
    StepAt(IDLE, log, next);
    var after := Watch(IDLE, log[..next]);
    TakenStep(Watch(IDLE, log[..i]), log[i], cmd);
    Follows(after, log[next], cmd);
    if cmd.Add? && i + 2 < |log| {
      StepAt(IDLE, log, i + 2);
      NoMoreAdds(Step(after, Added), log[i + 2]);
    }
  }

  /** A command is taken while the owner may not act, and then owed, unless it is Shutdown. */
  lemma TakenStep(m: Monitor, e: Event, cmd: Command)
    requires Step(m, e).ok && Takes(e) == Some(cmd)
    ensures var w := Step(m, e);
      && (cmd == Shutdown ==> w.stopped && !w.looping) && w.todo == Owed(cmd)
      && (cmd != Shutdown && w.open ==> w.looping)
  {
  }

  lemma Follows(m: Monitor, e: Event, cmd: Command)
    requires Step(m, e).ok && m.todo == Owed(cmd) && (cmd == Shutdown ==> m.stopped && !m.looping)
    ensures cmd == Execute ==> e.Entered?
    ensures cmd == Handshake ==> e == Greeted
    ensures cmd == Shutdown ==> e == Started
    ensures cmd.Add? ==> e == Added && Step(m, e) == m.(tasks := m.tasks + 1, todo := Nothing)
  {
  }

  lemma NoMoreAdds(m: Monitor, e: Event)
    requires Step(m, e).ok && m.todo == Nothing && (m.open ==> m.looping)
    ensures e != Added
  {
  }

  lemma NothingFound(log: seq<Event>, i: nat)
    requires Watch(IDLE, log).ok && i + 1 < |log| && log[i] == Polled(None)
    ensures log[i + 1].Ran?
  {
    var next := i + 1;
    StepAt(IDLE, log, i);
    StepAt(IDLE, log, next);
  }

  /** The state after a closure was taken at `i`, as many of its tasks queued as there were events up to `to`. */
  lemma {:induction false} ClosureSoFar(log: seq<Event>, i: nat, stamps: seq<nat>, to: nat, left: nat)
    requires Watch(IDLE, log).ok && i < to <= |log| && Takes(log[i]) == Some(Run(stamps))
    requires left + (to - i - 1) == |stamps|
    ensures forall j :: i < j < to ==> log[j] == Added
    ensures Queueing(Watch(IDLE, log[..to]), left)
  {
    var last := to - 1;
    if last == i {
      ClosureTaken(log, i, to, stamps);
    } else {
      var more := left + 1;
      ClosureSoFar(log, i, stamps, last, more);
      ClosureNext(log, last, to, more, left);
    }
  }

  lemma ClosureTaken(log: seq<Event>, i: nat, to: nat, stamps: seq<nat>)
    requires Watch(IDLE, log).ok && i < |log| && to == i + 1 && Takes(log[i]) == Some(Run(stamps))
    ensures Queueing(Watch(IDLE, log[..to]), |stamps|)
  {
    StepAt(IDLE, log, i);
    TakenStep(Watch(IDLE, log[..i]), log[i], Run(stamps));
  }

  lemma ClosureNext(log: seq<Event>, i: nat, to: nat, left: nat, less: nat)
    requires Watch(IDLE, log).ok && i < |log| && to == i + 1 && Queueing(Watch(IDLE, log[..i]), left)
    ensures log[i] == Added <==> left > 0
    ensures left == less + 1 ==> Queueing(Watch(IDLE, log[..to]), less)
  {
    StepAt(IDLE, log, i);
    ClosureStep(Watch(IDLE, log[..i]), log[i], left);
  }

  /** `left` tasks of a closure are still to be queued. */
  predicate Queueing(m: Monitor, left: nat) {
    m.todo == AddsLeft(left) && (m.open ==> m.looping)
  }

  lemma ClosureStep(m: Monitor, e: Event, left: nat)
    requires Step(m, e).ok && Queueing(m, left)
    ensures e == Added <==> left > 0
    ensures left > 0 ==> Queueing(Step(m, e), left - 1)
  {
  }

  /** The closure's tasks are queued right after it is taken, and no other. */
  lemma ClosureCarriedOut(log: seq<Event>, i: nat, stamps: seq<nat>, next: nat)
    requires Watch(IDLE, log).ok && i < next < |log| && Takes(log[i]) == Some(Run(stamps)) && next - i <= |stamps| + 1
    ensures forall j :: i < j < next ==> log[j] == Added
    ensures log[next] == Added <==> next - i <= |stamps|
  {
    var left := |stamps| - (next - i - 1);
    ClosureSoFar(log, i, stamps, next, left);
    ClosureNext(log, next, next + 1, left, left);
  }

  /** Tasks that commands of a log ask for. */
  function Commanded(log: seq<Event>): nat {
    if log == [] then 0
    else Commanded(log[..|log| - 1]) + Asked(log[|log| - 1])
  }

  function Asked(e: Event): nat {
    match Takes(e)
    case Some(Add(_)) => 1
    case Some(Run(stamps)) => |stamps|
    case _ => 0
  }

  function Left(t: Todo): nat {
    if t.Adds? then t.n else 0
  }

  lemma GrowthStep(m: Monitor, e: Event)
    requires Step(m, e).ok && !m.open && e != HungUp
    ensures var w := Step(m, e); !w.open && w.tasks + Left(w.todo) == m.tasks + Left(m.todo) + Asked(e)
  {
  }

  lemma {:induction false} GrowthFrom(m: Monitor, log: seq<Event>)
    requires Watch(m, log).ok && !m.open && HungUp !in log
    ensures var w := Watch(m, log); !w.open && w.tasks + Left(w.todo) == m.tasks + Left(m.todo) + Commanded(log)
    decreases |log|
  {
    if log != [] {
      var shorter, e := log[..|log| - 1], log[|log| - 1];
      assert e in log;
      GrowthFrom(m, shorter);
      GrowthStep(Watch(m, shorter), e);
    }
  }

  /** While commands are taken, the queue grows by what they ask for: one task each time, none lost or doubled. */
  lemma QueueGrowth(log: seq<Event>, i: nat, j: nat)
    requires Watch(IDLE, log).ok && i <= j <= |log| && !Watch(IDLE, log[..i]).open && HungUp !in log[i..j]
    ensures var from, to := Watch(IDLE, log[..i]), Watch(IDLE, log[..j]);
      to.tasks + Left(to.todo) == from.tasks + Left(from.todo) + Commanded(log[i..j])
  {
    WatchStretch(IDLE, log, i, j);
    GrowthFrom(Watch(IDLE, log[..i]), log[i..j]);
  }

  // ---------------------------------------------------------------- readings and messages

  /** The clock readings a log accounts for, in order. */
  function Readings(log: seq<Event>): seq<nat> {
    if log == [] then [] else Readings(log[..|log| - 1]) + Reading(log[|log| - 1])
  }

  function Reading(e: Event): seq<nat> {
    if e.Entered? then [e.at] else if e.Ran? then [e.end] else []
  }

  /** The commands a log took, in order. */
  function Commands(log: seq<Event>): seq<Command> {
    if log == [] then [] else Commands(log[..|log| - 1]) + Present(Takes(log[|log| - 1]))
  }

  function Present(o: Option<Command>): seq<Command> {
    if o.Some? then [o.value] else []
  }

  lemma RecordsMore(log: seq<Event>, e: Event)
    ensures Readings(log + [e]) == Readings(log) + Reading(e)
    ensures Commands(log + [e]) == Commands(log) + Present(Takes(e))
  {
    assert (log + [e])[..|log|] == log;
  }

  /** The commands still waiting. */
  function Waiting(inbox: seq<Option<Command>>): seq<Command> {
    if inbox == [] then [] else Present(inbox[0]) + Waiting(inbox[1..])
  }

  // ---------------------------------------------------------------- rounds

  /** 0, 1, …, n - 1. */
  function Upto(n: nat): (r: seq<nat>)
    ensures |r| == n && forall k :: 0 <= k < n ==> r[k] == k
  {
    seq(n, i => i)
  }

  /** Tasks run since the last poll, in order. */
  function RunsSincePoll(log: seq<Event>): (r: seq<nat>) {
    if log == [] then []
    else
      var before, e := RunsSincePoll(log[..|log| - 1]), log[|log| - 1];
      if e.Polled? then [] else if e.Ran? then before + [e.task] else before
  }

  /** The tasks whose turn in the current round is over are the first ones. */
  ghost predicate InRound(m: Monitor, runs: seq<nat>) {
    runs == Upto(if m.due then m.tasks else m.next) && (m.due ==> m.next == 0) && (m.next > 0 ==> m.next < m.tasks)
  }

  lemma RoundStep(m: Monitor, runs: seq<nat>, e: Event)
    requires Step(m, e).ok && InRound(m, runs)
    ensures InRound(Step(m, e), if e.Polled? then [] else if e.Ran? then runs + [e.task] else runs)
  {
    assert Upto(m.next + 1) == Upto(m.next) + [m.next];
  }

  lemma {:induction false} RoundSoFar(m: Monitor, log: seq<Event>)
    requires m.next == 0 && !m.due && Watch(m, log).ok
    ensures InRound(Watch(m, log), RunsSincePoll(log))
    decreases |log|
  {
    if log != [] {
      var shorter, e := log[..|log| - 1], log[|log| - 1];
      RoundSoFar(m, shorter);
      RoundStep(Watch(m, shorter), RunsSincePoll(shorter), e);
    }
  }

  /** At every poll each queued task has run exactly once, in order, since the poll before. */
  lemma RoundIsComplete(m: Monitor, log: seq<Event>, i: nat)
    requires m.next == 0 && !m.due && Watch(m, log).ok && i < |log| && log[i].Polled?
    ensures RunsSincePoll(log[..i]) == Upto(Watch(m, log[..i]).tasks)
  {
    StepAt(m, log, i);
    RoundSoFar(m, log[..i]);
  }

  function Runs(log: seq<Event>, task: nat): (n: nat) {
    if log == [] then 0
    else Runs(log[..|log| - 1], task) + if log[|log| - 1].Ran? && log[|log| - 1].task == task then 1 else 0
  }

  function Polls(log: seq<Event>): (n: nat) {
    if log == [] then 0
    else Polls(log[..|log| - 1]) + if log[|log| - 1].Polled? then 1 else 0
  }

  /** Whether a task's turn in the current round is over. */
  function Served(m: Monitor, task: nat): (n: nat) {
    if m.due || task < m.next then 1 else 0
  }

  lemma ServedStep(m: Monitor, e: Event, task: nat)
    requires Step(m, e).ok && task < m.tasks && (m.due ==> m.next == 0)
    ensures Served(Step(m, e), task)
            == Served(m, task) + (if e.Ran? && e.task == task then 1 else 0) - (if e.Polled? then 1 else 0)
    ensures task < Step(m, e).tasks
  {
  }

  lemma {:induction false} RunCountFrom(m: Monitor, log: seq<Event>, task: nat)
    requires m.next == 0 && !m.due && Watch(m, log).ok && task < m.tasks
    ensures Runs(log, task) == Polls(log) + Served(Watch(m, log), task) && task < Watch(m, log).tasks
    decreases |log|
  {
    if log != [] {
      var shorter, e := log[..|log| - 1], log[|log| - 1];
      RunCountFrom(m, shorter, task);
      RoundSoFar(m, shorter);
      ServedStep(Watch(m, shorter), e, task);
    }
  }

  /** Between rounds: at the start, or after anything but a run. */
  predicate BetweenRounds(log: seq<Event>, i: nat)
    requires i <= |log|
  {
    i == 0 || !log[i - 1].Ran?
  }

  lemma RoundStarts(log: seq<Event>, i: nat)
    requires Watch(IDLE, log).ok && i <= |log| && BetweenRounds(log, i)
    ensures Watch(IDLE, log[..i]).next == 0 && !Watch(IDLE, log[..i]).due
  {
    if i > 0 {
      var j := i - 1;
      StepAt(IDLE, log, j);
      RoundSoFar(IDLE, log[..j]);
      QuietStep(Watch(IDLE, log[..j]), log[j]);
    }
  }

  lemma QuietStep(m: Monitor, e: Event)
    requires Step(m, e).ok && !e.Ran? && (m.due ==> m.next == 0)
    ensures Step(m, e).next == 0 && !Step(m, e).due
  {
  }

  /**
   In any stretch of an allowed log that starts between rounds, a task queued before it has
   run once per poll, and once more if its turn in the current round is over.
   */
  lemma RunCount(log: seq<Event>, i: nat, j: nat, task: nat)
    requires Watch(IDLE, log).ok && i <= j <= |log| && BetweenRounds(log, i) && task < Watch(IDLE, log[..i]).tasks
    ensures Runs(log[i..j], task) == Polls(log[i..j]) + Served(Watch(IDLE, log[..j]), task)
  {
    RoundStarts(log, i);
    WatchStretch(IDLE, log, i, j);
    RunCountFrom(Watch(IDLE, log[..i]), log[i..j], task);
  }

  /** In such a stretch no task queued before it gets more than one turn ahead of another. */
  lemma Fair(log: seq<Event>, i: nat, j: nat, a: nat, b: nat)
    requires Watch(IDLE, log).ok && i <= j <= |log| && BetweenRounds(log, i) && a <= b < Watch(IDLE, log[..i]).tasks
    ensures Runs(log[i..j], b) <= Runs(log[i..j], a) <= Runs(log[i..j], b) + 1
  {
    RunCount(log, i, j, a);
    RunCount(log, i, j, b);
  }

  // ---------------------------------------------------------------- cycles

  function Charge(e: Event): (c: int) {
    if e.Ran? then e.end - e.begin else 0
  }

  /** Cycles a log charges in all. */
  function Charges(log: seq<Event>): (c: int) {
    if log == [] then 0 else Charges(log[..|log| - 1]) + Charge(log[|log| - 1])
  }

  /** Cycles a log charges to one task. */
  function Charged(log: seq<Event>, task: nat): (c: int) {
    if log == [] then 0
    else
      var e := log[|log| - 1];
      Charged(log[..|log| - 1], task) + if e.Ran? && e.task == task then Charge(e) else 0
  }

  /** When a log last ran a task. */
  function LastEnd(log: seq<Event>, task: nat): (r: Option<nat>) {
    if log == [] then None
    else if log[|log| - 1].Ran? && log[|log| - 1].task == task then Some(log[|log| - 1].end)
    else LastEnd(log[..|log| - 1], task)
  }

  predicate Enters(e: Event) {
    e.Entered?
  }

  lemma ChargeStep(m: Monitor, e: Event)
    requires Step(m, e).ok && !Enters(e)
    ensures Charge(e) == Step(m, e).begin - m.begin
  {
  }

  lemma {:induction false} TelescopesFrom(m: Monitor, log: seq<Event>)
    requires Watch(m, log).ok && forall k :: 0 <= k < |log| ==> !Enters(log[k])
    ensures Charges(log) == Watch(m, log).begin - m.begin
    decreases |log|
  {
    if log != [] {
      var shorter, e := log[..|log| - 1], log[|log| - 1];
      assert !Enters(e) && forall k :: 0 <= k < |shorter| ==> !Enters(shorter[k]);
      TelescopesFrom(m, shorter);
      ChargeStep(Watch(m, shorter), e);
    }
  }

  /**
   From the reading a loop starts with to any point before another one starts, the charges add
   up to the time that passed until the next charge starts.
   */
  lemma Telescopes(log: seq<Event>, i: nat, j: nat)
    requires Watch(IDLE, log).ok && i < j <= |log| && log[i].Entered?
    requires forall k :: i < k < j ==> !Enters(log[k])
    ensures Charges(log[i + 1..j]) == Watch(IDLE, log[..j]).begin - log[i].at
  {
    var first := i + 1;
    BeginAfter(log, i, first);
    TelescopesBetween(log, first, j);
  }

  /** Up to any run in between they add up to the time that passed until that run ended. */
  lemma TelescopesToRun(log: seq<Event>, i: nat, j: nat, run: nat)
    requires Watch(IDLE, log).ok && i < run && j == run + 1 <= |log| && log[i].Entered? && log[run].Ran?
    requires forall k :: i < k < j ==> !Enters(log[k])
    ensures Charges(log[i + 1..j]) == log[run].end - log[i].at
  {
    Telescopes(log, i, j);
    BeginAfterRun(log, run, j);
  }

  lemma TelescopesBetween(log: seq<Event>, i: nat, j: nat)
    requires Watch(IDLE, log).ok && i <= j <= |log| && forall k :: i <= k < j ==> !Enters(log[k])
    ensures Charges(log[i..j]) == Watch(IDLE, log[..j]).begin - Watch(IDLE, log[..i]).begin
  {
    var from, loop := Watch(IDLE, log[..i]), log[i..j];
    WatchStretch(IDLE, log, i, j);
    TelescopesFrom(from, loop);
  }

  /** The reading the next charge starts from, after a loop was entered. */
  lemma BeginAfter(log: seq<Event>, i: nat, j: nat)
    requires Watch(IDLE, log).ok && i < |log| && j == i + 1 && log[i].Entered?
    ensures Watch(IDLE, log[..j]).begin == log[i].at
  {
    StepAt(IDLE, log, i);
  }

  /** And after a task ran. */
  lemma BeginAfterRun(log: seq<Event>, i: nat, j: nat)
    requires Watch(IDLE, log).ok && i < |log| && j == i + 1 && log[i].Ran?
    ensures Watch(IDLE, log[..j]).begin == log[i].end
  {
    StepAt(IDLE, log, i);
  }

  /** The sum of what the first `n` tasks were charged. */
  function ChargedUpto(log: seq<Event>, n: nat): (c: int) {
    if n == 0 then 0 else ChargedUpto(log, n - 1) + Charged(log, n - 1)
  }

  lemma {:induction false} ChargedUptoStep(log: seq<Event>, n: nat)
    requires log != []
    ensures var e := log[|log| - 1];
            ChargedUpto(log, n) == ChargedUpto(log[..|log| - 1], n) + if e.Ran? && e.task < n then Charge(e) else 0
    decreases n
  {
    if n > 0 {
      ChargedUptoStep(log, n - 1);
    }
  }

  lemma {:induction false} ChargedUptoEmpty(n: nat)
    ensures ChargedUpto([], n) == 0
  {
    if n > 0 {
      ChargedUptoEmpty(n - 1);
    }
  }

  lemma TasksStep(m: Monitor, e: Event)
    requires Step(m, e).ok
    ensures Step(m, e).tasks >= m.tasks && (e.Ran? ==> e.task < m.tasks)
  {
  }

  /** Every charge goes to exactly one queued task: nothing is lost, nothing counted twice. */
  lemma {:induction false} ChargesConserved(m: Monitor, log: seq<Event>, n: nat)
    requires Watch(m, log).ok && n >= Watch(m, log).tasks
    ensures ChargedUpto(log, n) == Charges(log)
    decreases |log|
  {
    if log == [] {
      ChargedUptoEmpty(n);
    } else {
      var shorter, e := log[..|log| - 1], log[|log| - 1];
      var before := Watch(m, shorter);
      TasksStep(before, e);
      ChargesConserved(m, shorter, n);
      ChargedUptoStep(log, n);
    }
  }
}
