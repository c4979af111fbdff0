/** The recursive lock of src/usbif_host.c with the depth it can be suspended by:
    the host task and any number of API tasks, every take, give and change of the
    counter one step. */
module HostLock {

  /** Where a task is between two of its steps. `left` counts the levels a suspend
      still has to give back, or a resume to take again; `goal` is how many a resume
      must come to. */
  datatype Pc =
    | Free
    | Took                      // lock: the mutex taken, the depth not yet counted
    | Uncounted                 // unlock: the depth counted down, the mutex not yet given
    | Suspending(left: nat)
    | SuspendGive(left: nat)    // a level counted down, the mutex not yet given
    | Resuming(left: nat, goal: nat)
    | ResumeCount(left: nat, goal: nat)     // a level taken, the depth not yet counted

  /** A task's place, how often it holds the mutex, the stack of what its suspends
      returned, and how deep each of them found it. */
  datatype Task = Task(pc: Pc, levels: nat, held: seq<nat>, found: seq<nat>)

  /** The mutex, the counter, and the tasks; task 0 is the host task. */
  datatype Lock = Lock(owner: int, count: nat, depth: int, tasks: seq<Task>)

  const NOBODY: int := -1
  const HOST: nat := 0

  datatype Step = Take | Count | Uncount | Give | Suspend | DropOne | GiveOne | Suspended
                | Resume | TakeOne | CountOne | Resumed

  function Start(n: nat): Lock {
    Lock(NOBODY, 0, 0, seq(n, i => Task(Free, 0, [], [])))
  }

  // ---- the mutex

  predicate MayTake(s: Lock, t: nat) {
    s.owner == NOBODY || s.owner == t
  }

  function Taken(s: Lock, t: nat, pc: Pc): Lock
    requires t < |s.tasks|
  {
    var me := s.tasks[t];
    s.(owner := t, count := s.count + 1, tasks := s.tasks[t := me.(pc := pc, levels := me.levels + 1)])
  }

  function Given(s: Lock, t: nat, pc: Pc): Lock
    requires t < |s.tasks| && s.count > 0 && s.tasks[t].levels > 0
  {
    var me := s.tasks[t];
    s.(owner := if s.count == 1 then NOBODY else s.owner, count := s.count - 1,
       tasks := s.tasks[t := me.(pc := pc, levels := me.levels - 1)])
  }

  function At(s: Lock, t: nat, pc: Pc): Lock
    requires t < |s.tasks|
  {
    s.(tasks := s.tasks[t := s.tasks[t].(pc := pc)])
  }

  // ---- the steps

  /** What a step needs of the task and the mutex. FreeRTOS has a task give only what
      it took. A suspend is called by a task that holds the lock, or while no API
      task does: see SuspendNeedsTheLock. */
  predicate Enabled(s: Lock, t: nat, a: Step)
    requires t < |s.tasks|
  {
    var me := s.tasks[t];
    match a
    case Take => me.pc.Free? && MayTake(s, t)
    case Count => me.pc.Took?
    case Uncount => me.pc.Free? && s.owner == t && s.count > 0 && me.levels > 0
    case Give => me.pc.Uncounted? && s.owner == t && s.count > 0 && me.levels > 0
    case Suspend => t != HOST && me.pc.Free? && (s.owner == t || s.depth == 0)
    case DropOne => me.pc.Suspending? && me.pc.left > 0
    case GiveOne => me.pc.SuspendGive? && s.owner == t && s.count > 0 && me.levels > 0
    case Suspended => me.pc == Suspending(0)
    case Resume => t != HOST && me.pc.Free? && me.held != []
    case TakeOne => me.pc.Resuming? && me.pc.left > 0 && MayTake(s, t)
    case CountOne => me.pc.ResumeCount?
    case Resumed => me.pc.Resuming? && me.pc.left == 0
  }

  function Apply(s: Lock, t: nat, a: Step): Lock
    requires t < |s.tasks| && Enabled(s, t, a)
  {
    var me := s.tasks[t];
    match a
    case Take => Taken(s, t, if t == HOST then Free else Took)
    case Count => At(s, t, Free).(depth := s.depth + 1)
    case Uncount => if t == HOST then Given(s, t, Free) else At(s, t, Uncounted).(depth := s.depth - 1)
    case Give => Given(s, t, Free)
    case Suspend => Suspending0(s, t)
    case DropOne => At(s, t, SuspendGive(me.pc.left)).(depth := s.depth - 1)
    case GiveOne => Given(s, t, Suspending(if me.pc.left > 0 then me.pc.left - 1 else 0))
    case Suspended => At(s, t, Free)
    case Resume =>
      var held := me.held[|me.held| - 1];
      s.(tasks := s.tasks[t := me.(pc := Resuming(held, me.levels + held), held := me.held[..|me.held| - 1])])
    case TakeOne => Taken(s, t, ResumeCount(me.pc.left, me.pc.goal))
    case CountOne => At(s, t, Resuming(if me.pc.left > 0 then me.pc.left - 1 else 0, me.pc.goal)).(depth := s.depth + 1)
    case Resumed =>
      var found := if me.found == [] then [] else me.found[..|me.found| - 1];
      s.(tasks := s.tasks[t := me.(pc := Free, found := found)])
  }

  /** lock_suspend reads the counter, and gives back that many levels. */
  function Suspending0(s: Lock, t: nat): Lock
    requires t < |s.tasks|
  {
    var me := s.tasks[t];
    var held := if s.depth > 0 then s.depth else 0;
    s.(tasks := s.tasks[t := me.(pc := Suspending(held), held := me.held + [held], found := me.found + [me.levels])])
  }

  // ---- the invariant

  /** One level is taken and not counted, or counted down and not given. */
  predicate Lagging(pc: Pc) {
    pc.Took? || pc.Uncounted? || pc.SuspendGive? || pc.ResumeCount?
  }

  ghost predicate TaskOk(s: Lock, t: nat)
    requires t < |s.tasks|
  {
    var me := s.tasks[t];
    && me.levels == (if s.owner == t then s.count else 0)
    && (Lagging(me.pc) ==> s.owner == t)
    && (me.pc.Suspending? ==> me.pc.left == me.levels)
    && (me.pc.SuspendGive? ==> me.pc.left == me.levels)
    && (me.pc.Resuming? ==> me.levels + me.pc.left == me.pc.goal)
    && (me.pc.ResumeCount? ==> me.pc.left > 0 && me.levels + me.pc.left == me.pc.goal + 1)
    && (t == HOST ==> me.pc.Free?)
    && (if me.pc.Resuming? || me.pc.ResumeCount? then |me.found| == |me.held| + 1 && me.held == me.found[..|me.held|]
        else me.held == me.found)
  }

  /** The counter is what the owner holds, up to the step it may be behind. */
  ghost predicate DepthRight(s: Lock)
    requires s.owner < |s.tasks|
  {
    s.depth == if s.owner <= HOST then 0 else s.count - (if Lagging(s.tasks[s.owner].pc) then 1 else 0)
  }

  ghost predicate Inv(s: Lock) {
    && -1 <= s.owner < |s.tasks| && (s.owner == NOBODY <==> s.count == 0)
    && (forall t: nat | t < |s.tasks| :: TaskOk(s, t))
    && DepthRight(s)
  }

  lemma StartInv(n: nat)
    ensures Inv(Start(n))
  {
  }

  lemma StepInv(s: Lock, t: nat, a: Step)
    requires Inv(s) && t < |s.tasks| && Enabled(s, t, a)
    ensures Inv(Apply(s, t, a))
  {
    assert TaskOk(s, t);
    if s.owner >= 0 {
      assert TaskOk(s, s.owner);
    }
    var s' := Apply(s, t, a);
    SelfOk(s, t, a);
    forall u: nat | u < |s'.tasks| ensures TaskOk(s', u) {
      assert TaskOk(s, u);
      if u != t {
        OtherOk(s, t, a, u);
      }
    }
    hide TaskOk;
  }

  lemma SelfOk(s: Lock, t: nat, a: Step)
    requires t < |s.tasks| && Enabled(s, t, a) && TaskOk(s, t) && -1 <= s.owner < |s.tasks|
    requires (s.owner == NOBODY <==> s.count == 0) && (s.owner >= 0 ==> TaskOk(s, s.owner))
    requires DepthRight(s)
    ensures var s' := Apply(s, t, a);
            && TaskOk(s', t) && -1 <= s'.owner < |s'.tasks| && (s'.owner == NOBODY <==> s'.count == 0) && DepthRight(s')
  {
  }

  /** A step of one task is nothing to another. */
  lemma OtherOk(s: Lock, t: nat, a: Step, u: nat)
    requires t < |s.tasks| && u < |s.tasks| && u != t && Enabled(s, t, a) && TaskOk(s, u) && TaskOk(s, t)
    requires s.owner == NOBODY <==> s.count == 0
    ensures TaskOk(Apply(s, t, a), u)
  {
  }

  // ---- runs

  datatype Event = Event(task: nat, step: Step)

  ghost predicate Runs(s: Lock, es: seq<Event>)
    decreases |es|
  {
    es == [] ||
    (es[0].task < |s.tasks| && Enabled(s, es[0].task, es[0].step) && Runs(Apply(s, es[0].task, es[0].step), es[1..]))
  }

  ghost function End(s: Lock, es: seq<Event>): Lock
    requires Runs(s, es)
    decreases |es|
  {
    if es == [] then s else End(Apply(s, es[0].task, es[0].step), es[1..])
  }

  lemma {:induction false} RunInv(s: Lock, es: seq<Event>)
    requires Inv(s) && Runs(s, es)
    ensures Inv(End(s, es))
    decreases |es|
  {
    if es != [] {
      StepInv(s, es[0].task, es[0].step);
      RunInv(Apply(s, es[0].task, es[0].step), es[1..]);
    }
  }

  /** After any run of any number of tasks: between its calls the counter is the
      owner's recursion if an API task owns the lock, and otherwise it is 0. */
  lemma DepthIsOwners(n: nat, es: seq<Event>)
    requires Runs(Start(n), es)
    ensures var s := End(Start(n), es);
            && (s.owner <= HOST ==> s.depth == 0)
            && (HOST < s.owner < |s.tasks| && !Lagging(s.tasks[s.owner].pc)
                ==> s.depth == s.tasks[s.owner].levels == s.count)
  {
    StartInv(n);
    RunInv(Start(n), es);
    var s := End(Start(n), es);
    if s.owner >= 0 {
      assert TaskOk(s, s.owner);
    }
  }

  /** A suspend that has run through has left its task without the mutex. */
  lemma SuspendReleases(n: nat, es: seq<Event>, t: nat)
    requires Runs(Start(n), es) && t < |End(Start(n), es).tasks|
    ensures var s := End(Start(n), es);
            Enabled(s, t, Suspended) ==> s.owner != t && s.tasks[t].levels == 0
  {
    StartInv(n);
    RunInv(Start(n), es);
    assert TaskOk(End(Start(n), es), t);
  }

  // ---- no task is stuck

  /** The one step a task has to take next, in the middle of a call. */
  function Own(pc: Pc): Step
    requires !pc.Free?
  {
    match pc
    case Took => Count
    case Uncounted => Give
    case Suspending(left) => if left > 0 then DropOne else Suspended
    case SuspendGive(left) => GiveOne
    case Resuming(left, goal) => if left > 0 then TakeOne else Resumed
    case ResumeCount(left, goal) => CountOne
  }

  /** In the middle of a call a task waits for nothing but the mutex, and only a resume
      waits; between calls it may take the lock when nobody else has it, give it when it
      has it, and suspend it when it has it or no API task does. */
  lemma NeverStuck(s: Lock, t: nat, a: Step)
    requires Inv(s) && t < |s.tasks|
    ensures var me := s.tasks[t];
            Enabled(s, t, a)
            <==> if !me.pc.Free? then
                   a == Own(me.pc) && (me.pc.Resuming? && me.pc.left > 0 ==> s.owner == -1 || s.owner == t)
                 else if a == Take then s.owner == -1 || s.owner == t
                 else if a == Uncount then s.owner == t
                 else if a == Suspend then t > 0 && (s.owner == t || s.depth == 0)
                 else a == Resume && t > 0 && me.held != []
  {
    assert TaskOk(s, t);
    match a
    case Take | Uncount | Suspend | Resume =>
    case Count | Give | Suspended | Resumed =>
    case DropOne | GiveOne =>
    case TakeOne | CountOne =>
  }

  function SuspendSteps(t: nat, left: nat): seq<Event> {
    if left == 0 then [Event(t, Suspended)] else [Event(t, DropOne), Event(t, GiveOne)] + SuspendSteps(t, left - 1)
  }

  function ResumeSteps(t: nat, left: nat): seq<Event> {
    if left == 0 then [Event(t, Resumed)] else [Event(t, TakeOne), Event(t, CountOne)] + ResumeSteps(t, left - 1)
  }

  lemma TwoMore(s: Lock, t: nat, a: Step, b: Step, es: seq<Event>)
    requires t < |s.tasks| && Enabled(s, t, a) && Enabled(Apply(s, t, a), t, b)
    requires Runs(Apply(Apply(s, t, a), t, b), es)
    ensures Runs(s, [Event(t, a), Event(t, b)] + es)
    ensures End(s, [Event(t, a), Event(t, b)] + es) == End(Apply(Apply(s, t, a), t, b), es)
  {
    assert |Apply(s, t, a).tasks| == |s.tasks|;
    hide Enabled, Apply;
    var all := [Event(t, a), Event(t, b)] + es;
    assert all[1..][0] == Event(t, b) && all[1..][1..] == es;
  }

  /** The rest of a suspend gives back every level. */
  lemma {:induction false} SuspendRuns(s: Lock, t: nat)
    requires Inv(s) && t < |s.tasks| && s.tasks[t].pc.Suspending?
    ensures var es := SuspendSteps(t, s.tasks[t].levels);
            Runs(s, es)
            && var me := s.tasks[t].(pc := Free, levels := 0);
               End(s, es) == if s.owner == t then Lock(-1, 0, 0, s.tasks[t := me])
                             else s.(tasks := s.tasks[t := me])
    decreases s.tasks[t].levels
  {
    assert TaskOk(s, t);
    var left := s.tasks[t].levels;
    if left > 0 {
      var s1 := Apply(s, t, DropOne);
      StepInv(s, t, DropOne);
      assert TaskOk(s1, t);
      var s2 := Apply(s1, t, GiveOne);
      StepInv(s1, t, GiveOne);
      SuspendRuns(s2, t);
      hide Inv;
      TwoMore(s, t, DropOne, GiveOne, SuspendSteps(t, left - 1));
    }
  }

  /** A suspend by the lock's owner: it gives the mutex up at once, counts to 0, and
      keeps how many levels it had. */
  lemma WholeSuspend(s: Lock, t: nat)
    requires Inv(s) && 0 < t < |s.tasks| && s.tasks[t].pc.Free? && s.owner == t
    ensures var me, es := s.tasks[t], [Event(t, Suspend)] + SuspendSteps(t, s.tasks[t].levels);
            && Runs(s, es)
            && End(s, es) == Lock(-1, 0, 0, s.tasks[t := Task(Free, 0, me.held + [me.levels], me.found + [me.levels])])
  {
    assert TaskOk(s, t);
    StepInv(s, t, Suspend);
    SuspendRuns(Apply(s, t, Suspend), t);
    var es := [Event(t, Suspend)] + SuspendSteps(t, s.tasks[t].levels);
    assert es[1..] == SuspendSteps(t, s.tasks[t].levels);
  }

  lemma {:induction false} ResumeRuns(s: Lock, t: nat)
    requires Inv(s) && 0 < t < |s.tasks| && s.tasks[t].pc.Resuming? && (s.owner == -1 || s.owner == t)
    ensures var me, es := s.tasks[t], ResumeSteps(t, s.tasks[t].pc.left);
            var levels := me.levels + me.pc.left;
            && me.found != [] && Runs(s, es)
            && End(s, es) == Lock(if levels > 0 then t else -1, levels, levels,
                                  s.tasks[t := Task(Free, levels, me.held, me.found[..|me.found| - 1])])
    decreases s.tasks[t].pc.left
  {
    assert TaskOk(s, t);
    var left := s.tasks[t].pc.left;
    if left > 0 {
      var s1 := Apply(s, t, TakeOne);
      StepInv(s, t, TakeOne);
      assert TaskOk(s1, t);
      var s2 := Apply(s1, t, CountOne);
      StepInv(s1, t, CountOne);
      ResumeRuns(s2, t);
      hide Inv;
      TwoMore(s, t, TakeOne, CountOne, ResumeSteps(t, left - 1));
    }
  }

  /** A resume that finds the mutex free takes it as often as its suspend gave it back,
      and counts as far. */
  lemma WholeResume(s: Lock, t: nat)
    requires Inv(s) && 0 < t < |s.tasks| && s.tasks[t].pc.Free? && s.tasks[t].held != [] && s.owner == -1
    ensures var me := s.tasks[t];
            var k := |me.held| - 1;
            var es := [Event(t, Resume)] + ResumeSteps(t, me.held[k]);
            && Runs(s, es)
            && End(s, es) == Lock(if me.held[k] > 0 then t else -1, me.held[k], me.held[k],
                                  s.tasks[t := Task(Free, me.held[k], me.held[..k], me.held[..k])])
  {
    assert TaskOk(s, t);
    StepInv(s, t, Resume);
    var s1, steps := Apply(s, t, Resume), ResumeSteps(t, s.tasks[t].held[|s.tasks[t].held| - 1]);
    ResumeRuns(s1, t);
    hide Inv, TaskOk;
    assert ([Event(t, Resume)] + steps)[1..] == steps;
  }

  // ---- a wait, from suspend to resume

  /** Over the run, the waits of `t` never unwind below `k` deep. */
  ghost predicate StaysAbove(s: Lock, es: seq<Event>, t: nat, k: nat)
    requires Runs(s, es) && t < |s.tasks|
    decreases |es|
  {
    k <= |s.tasks[t].found| && (es == [] || StaysAbove(Apply(s, es[0].task, es[0].step), es[1..], t, k))
  }

  lemma {:induction false} FoundStays(s: Lock, es: seq<Event>, t: nat, k: nat)
    requires Runs(s, es) && t < |s.tasks| && StaysAbove(s, es, t, k)
    ensures var e := End(s, es);
            |e.tasks| == |s.tasks| && k <= |e.tasks[t].found| && e.tasks[t].found[..k] == s.tasks[t].found[..k]
    decreases |es|
  {
    if es != [] {
      FoundStays(Apply(s, es[0].task, es[0].step), es[1..], t, k);
    }
  }

  /** `t` is taking back what a suspend gave up, and does not finish in this run. */
  ghost predicate KeepsResuming(s: Lock, es: seq<Event>, t: nat)
    requires Runs(s, es) && t < |s.tasks|
    decreases |es|
  {
    (s.tasks[t].pc.Resuming? || s.tasks[t].pc.ResumeCount?)
    && (es == [] || KeepsResuming(Apply(s, es[0].task, es[0].step), es[1..], t))
  }

  lemma {:induction false} GoalStays(s: Lock, es: seq<Event>, t: nat)
    requires Runs(s, es) && t < |s.tasks| && KeepsResuming(s, es, t)
    ensures var e := End(s, es).tasks;
            |e| == |s.tasks| && (e[t].pc.Resuming? || e[t].pc.ResumeCount?) && e[t].pc.goal == s.tasks[t].pc.goal
    decreases |es|
  {
    if es != [] {
      GoalStays(Apply(s, es[0].task, es[0].step), es[1..], t);
    }
  }

  /** A wait, whatever happens in it: `t` suspends, any run follows, with waits of its
      own nested as deep as they like, and `t` resumes the wait it suspended for,
      holding nothing then. When that resume is through, `t` holds exactly as many
      levels as the suspend found. */
  lemma WaitRestores(s: Lock, t: nat, during: seq<Event>, taking: seq<Event>)
    requires Inv(s) && t < |s.tasks| && Enabled(s, t, Suspend)
    requires var s1 := Apply(s, t, Suspend);
             && Runs(s1, during) && StaysAbove(s1, during, t, |s.tasks[t].found| + 1)
             && var s2 := End(s1, during);
                && |s2.tasks| == |s.tasks| && |s2.tasks[t].found| == |s.tasks[t].found| + 1
                && Enabled(s2, t, Resume) && s2.tasks[t].levels == 0
                && var s3 := Apply(s2, t, Resume);
                   Runs(s3, taking) && KeepsResuming(s3, taking, t) && |End(s3, taking).tasks| == |s.tasks|
                   && Enabled(End(s3, taking), t, Resumed)
    ensures var s2 := End(Apply(s, t, Suspend), during);
            var s4 := End(Apply(s2, t, Resume), taking);
            s4.tasks[t].levels == s.tasks[t].levels
  {
    var s1 := Apply(s, t, Suspend);
    StepInv(s, t, Suspend);
    RunInv(s1, during);
    var s2 := End(s1, during);
    FoundStays(s1, during, t, |s.tasks[t].found| + 1);
    assert TaskOk(s2, t) && TaskOk(s, t);
    var s3 := Apply(s2, t, Resume);
    StepInv(s2, t, Resume);
    RunInv(s3, taking);
    GoalStays(s3, taking, t);
    assert TaskOk(End(s3, taking), t);
    assert s2.tasks[t].found[|s.tasks[t].found|] == s.tasks[t].levels;
  }

  /** Why the caller must hold the lock: with an API task holding it, the first level
      a suspend counts down is right if and only if that task is the caller. */
  lemma SuspendNeedsTheLock(s: Lock, t: nat)
    requires Inv(s) && HOST < t < |s.tasks| && s.tasks[t].pc.Free?
    requires s.owner > HOST && !Lagging(s.tasks[s.owner].pc)
    ensures var begun := Suspending0(s, t);
            && Enabled(begun, t, DropOne)
            && (DepthRight(Apply(begun, t, DropOne)) <==> s.owner == t)
  {
    assert TaskOk(s, s.owner) && TaskOk(s, t);
  }
}
