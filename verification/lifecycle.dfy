/** The module's state and the glue around the queue: loading arms the timer,
    each timer expiry drains the list and re-arms, and unloading disarms the
    timer and drains once more. Time is counted in jiffies; `hz` is the kernel's
    tick rate `HZ`. */
module Lifecycle {
  import opened Requests
  import opened Signals
  import opened WritePath

  /** `TIMER_INTERVAL` is `30 * HZ`: thirty seconds' worth of jiffies. */
  const TimerSeconds: nat := 30

  function TimerInterval(hz: nat): nat {
    TimerSeconds * hz
  }

  /** The drain timer: pending with an expiry time, or deleted. */
  datatype Timer = Armed(expires: nat) | Disarmed

  /** The pending list and the timer. */
  datatype State = State(queue: seq<Request>, timer: Timer)

  /** A state change together with the outcomes of the drain it ran, if any. */
  datatype Step = Step(state: State, log: seq<Outcome>)

  /** The result of loading the module: running, or the error code it returned. */
  datatype Load = Loaded(state: State) | LoadFailed(code: int)

  /** `init_module`: create the procfs entry (`registered` says whether
      `proc_create` succeeded), then arm the timer one interval from `now`. */
  function InitModule(registered: bool, now: nat, hz: nat): (r: Load)
    ensures r.Loaded? <==> registered
    ensures r.Loaded? ==> r.state.queue == [] && r.state.timer == Armed(now + TimerInterval(hz))
    ensures r.LoadFailed? ==> r.code == -ENOMEM
  {
    if !registered then LoadFailed(-ENOMEM)
    else Loaded(State([], Armed(now + TimerInterval(hz))))
  }

  /** A state change together with the write callback's return value. */
  datatype Written = Written(state: State, ret: int)

  /** A write into the procfs entry: the write callback acting on the pending list. */
  function Write(s: State, buf: seq<char>, copyOk: bool, allocOk: bool): (r: Written)
    ensures r.state.timer == s.timer
    ensures copyOk && allocOk ==> r.state.queue == s.queue + [Parse(buf)] && r.ret == |buf|
    ensures !(copyOk && allocOk) ==> r.state == s && r.ret == -ENOMEM
  {
    var w := ProcWrite(s.queue, buf, copyOk, allocOk);
    Written(State(w.queue, s.timer), w.ret)
  }

  /** `send_signals` on the module state: every entry is visited in order and
      removed, whatever the lookup or the send did; the timer is not touched. */
  function Flush(s: State, host: Host): (r: Step)
    ensures r.state.queue == []
    ensures r.state.timer == s.timer
    ensures Entries(r.log) == s.queue
    ensures Attempts(r.log) == Resolvable(s.queue, host)
    ensures s.queue == [] ==> r == Step(s, [])
  {
    DrainVisitsAll(s.queue, host);
    DrainAttempts(s.queue, host);
    Step(State([], s.timer), Drain(s.queue, host))
  }

  /** `pending_signal_timer_callback`: drain, then `mod_timer` to expire one
      interval after `now`. */
  function TimerCallback(s: State, now: nat, hz: nat, host: Host): (r: Step)
    ensures r.state.queue == []
    ensures r.state.timer == Armed(now + TimerInterval(hz))
    ensures Entries(r.log) == s.queue
    ensures Attempts(r.log) == Resolvable(s.queue, host)
  {
    var drained := Flush(s, host);
    Step(State(drained.state.queue, Armed(now + TimerInterval(hz))), drained.log)
  }

  /** `cleanup_module`: `del_timer`, then a last drain of whatever is still queued. */
  function CleanupModule(s: State, host: Host): (r: Step)
    ensures r.state == State([], Disarmed)
    ensures Entries(r.log) == s.queue
    ensures Attempts(r.log) == Resolvable(s.queue, host)
  {
    Flush(State(s.queue, Disarmed), host)
  }
}
