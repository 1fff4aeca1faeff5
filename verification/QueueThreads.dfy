/** Many sending threads and the ARC lock. Each thread has its own place in a send; the lock is
    taken before the push and released after the pop. The system of all threads behaves like the
    single sender of QueueModel, namely whoever holds the lock. */
module QueueThreads {
  import opened QueueModel
  import opened QueueSafety
  import opened Wrappers

  type Thread = nat

  /** `shared` is everything outside the threads (its own host place is Idle). */
  datatype System = System(shared: State, threads: map<Thread, Host>, holder: Option<Thread>)

  function HostOf(y: System, t: Thread): Host {
    if t in y.threads then y.threads[t] else Idle
  }

  predicate SystemSized(c: Config, y: System) {
    && Sized(c, y.shared) && y.shared.host.Idle?
    && forall t :: t in y.threads && !y.threads[t].Idle? ==> |y.threads[t].request| == c.layout.n
  }

  /** Thread `t` performs an action. Only taking the lock can block. */
  function ThreadAction(c: Config, y: System, t: Thread, a: Action): (y': System)
    requires SystemSized(c, y)
    ensures SystemSized(c, y')
  {
    if a.FirmwareStep? || a.Answer? then y.(shared := Apply(c, y.shared, a))
    else if a.Acquire? && y.holder.Some? then y
    else
      var before := y.shared.(host := HostOf(y, t));
      var after := Apply(c, before, a);
      var holder :=
        if a.Acquire? && !after.host.Idle? then Some(t)
        else if a.Release? && before.host.Done? then None
        else y.holder;
      System(after.(host := Idle), y.threads[t := after.host], holder)
  }

  function RunThreads(c: Config, y: System, actions: seq<(Thread, Action)>): (y': System)
    requires SystemSized(c, y)
    ensures SystemSized(c, y')
    decreases |actions|
  {
    if actions == [] then y else RunThreads(c, ThreadAction(c, y, actions[0].0, actions[0].1), actions[1..])
  }

  /** At most one thread is inside a send: the one that holds the lock. */
  ghost predicate Mutex(y: System) {
    forall t: Thread {:trigger HostOf(y, t)} :: !HostOf(y, t).Idle? <==> y.holder == Some(t)
  }

  /** The system as a single sender. */
  function View(y: System): State {
    y.shared.(host := if y.holder.Some? then HostOf(y, y.holder.value) else Idle)
  }

  lemma ViewSized(c: Config, y: System)
    requires SystemSized(c, y)
    ensures Sized(c, View(y))
  {
  }

  /** Host actions do not look at where the firmware is, firmware actions not at the host. */
  lemma FirmwareIgnoresHost(c: Config, s: State, h: Host, a: Action)
    requires Sized(c, s) && Sized(c, s.(host := h)) && (a.FirmwareStep? || a.Answer?)
    ensures Apply(c, s.(host := h), a) == Apply(c, s, a).(host := h)
  {
  }

  lemma HostLeavesIdle(c: Config, s: State, a: Action)
    requires Sized(c, s)
    requires !a.FirmwareStep? && !a.Answer?
    ensures a.Acquire? && s.host.Idle? ==> Apply(c, s, a) == s.(host := Apply(c, s, a).host)
    ensures !a.Acquire? && s.host.Idle? ==> Apply(c, s, a) == s
    ensures a.Acquire? && !s.host.Idle? ==> Apply(c, s, a) == s
    ensures !s.host.Idle? ==> (Apply(c, s, a).host.Idle? <==> a.Release? && s.host.Done?)
  {
  }

  /** Each step of the threads is a step of the single sender, or invisible to it. */
  lemma ThreadStepRefines(c: Config, y: System, t: Thread, a: Action)
    requires SystemSized(c, y) && Mutex(y)
    ensures Mutex(ThreadAction(c, y, t, a))
    ensures Sized(c, View(y))
    ensures View(ThreadAction(c, y, t, a)) == View(y)
            || View(ThreadAction(c, y, t, a)) == Apply(c, View(y), a)
  {
    hide HostNext, FirmwareNext, Apply;
    ViewSized(c, y);
    var y' := ThreadAction(c, y, t, a);
    if a.FirmwareStep? || a.Answer? {
      assert forall u: Thread :: HostOf(y', u) == HostOf(y, u);
      FirmwareIgnoresHost(c, y.shared, View(y).host, a);
      FirmwareIgnoresHost(c, y.shared, Idle, a);
    } else if !(a.Acquire? && y.holder.Some?) {
      var before := y.shared.(host := HostOf(y, t));
      HostLeavesIdle(c, before, a);
      assert forall u: Thread :: HostOf(y', u) == if u == t then Apply(c, before, a).host else HostOf(y, u);
      assert !HostOf(y, t).Idle? <==> y.holder == Some(t);
      if y.holder.Some? {
        assert !HostOf(y, y.holder.value).Idle?;
      }
    }
  }

  /** Over any run of any number of threads there is mutual exclusion, and the queue keeps its
      invariant; so every fact about the single sender holds of whoever holds the lock. */
  lemma {:induction false} ThreadsSafe(c: Config, y: System, actions: seq<(Thread, Action)>)
    requires SystemSized(c, y) && Mutex(y) && Inv(c, View(y))
    ensures Mutex(RunThreads(c, y, actions)) && Inv(c, View(RunThreads(c, y, actions)))
    decreases |actions|
  {
    hide Inv, Apply, ThreadAction, Mutex, View;
    if actions != [] {
      ThreadStepRefines(c, y, actions[0].0, actions[0].1);
      ActionSafe(c, View(y), actions[0].1);
      ThreadsSafe(c, ThreadAction(c, y, actions[0].0, actions[0].1), actions[1..]);
    }
  }

  /** In particular: a thread whose send succeeded, in a system where no send gave up after
      publishing, holds the reply to its own request. */
  lemma ThreadGetsOwnReply(c: Config, y: System, actions: seq<(Thread, Action)>, t: Thread)
    requires SystemSized(c, y) && Mutex(y) && Init(c, View(y))
    ensures var y' := RunThreads(c, y, actions);
            var h, s := HostOf(y', t), y'.shared;
            h.Done? && h.outcome.Sent? ==>
              && y'.holder == Some(t)
              && 0 < s.popped <= |s.responses| <= |s.served|
              && h.outcome.response == s.responses[s.popped - 1]
              && (s.lost == 0 ==> s.served[s.popped - 1] == h.request)
  {
    hide Init, RunThreads, Slots, Pointers, FirmwareOk, NoLostWakeup;
    InitSafe(c, View(y));
    ThreadsSafe(c, y, actions);
    var y' := RunThreads(c, y, actions);
    assert !HostOf(y', t).Idle? <==> y'.holder == Some(t);
  }
}
