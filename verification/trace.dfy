/** Runs of the loaded module: a sequence of writes and timer expiries, each
    taken as one atomic step (the spinlock serialises the append and the drain). */
module Trace {
  import opened Requests
  import opened Signals
  import opened Lifecycle

  /** One thing that happens to the loaded module. */
  datatype Event =
    | WriteCall(buf: seq<char>, copyOk: bool, allocOk: bool)
    | Expiry(now: nat, host: Host)

  function Apply(s: State, e: Event, hz: nat): Step {
    match e
    case WriteCall(buf, copyOk, allocOk) => Step(Write(s, buf, copyOk, allocOk).state, [])
    case Expiry(now, host) => TimerCallback(s, now, hz, host)
  }

  /** The state after `events` and the outcomes of every drain they ran, in order. */
  function Run(s: State, events: seq<Event>, hz: nat): Step
    decreases |events|
  {
    if events == [] then Step(s, [])
    else
      var first := Apply(s, events[0], hz);
      var rest := Run(first.state, events[1..], hz);
      Step(rest.state, first.log + rest.log)
  }

  /** Reference: the requests the writes among `events` queued, in write order. */
  function Accepted(events: seq<Event>): seq<Request> {
    if events == [] then []
    else
      var e := events[0];
      (if e.WriteCall? && e.copyOk && e.allocOk then [Parse(e.buf)] else []) + Accepted(events[1..])
  }

  /** No request is lost or duplicated and none overtakes another: the entries
      drained so far, followed by those still queued, are exactly the requests
      queued at the start followed by those accepted since, in order. */
  lemma {:induction false} Conservation(s: State, events: seq<Event>, hz: nat)
    ensures Entries(Run(s, events, hz).log) + Run(s, events, hz).state.queue == s.queue + Accepted(events)
    decreases |events|
  {
    if events != [] {
      var e, tail := events[0], events[1..];
      var first := Apply(s, e, hz);
      var rest := Run(first.state, tail, hz);
      Conservation(first.state, tail, hz);
      ApplyConserves(s, e, hz);
      EntriesAppend(first.log, rest.log);
      AcceptedCons(events);
      Rebalance(Entries(first.log), Entries(rest.log), s.queue, first.state.queue, rest.state.queue,
                Accepted([e]), Accepted(tail));
    }
  }

  lemma AcceptedCons(events: seq<Event>)
    requires events != []
    ensures Accepted(events) == Accepted([events[0]]) + Accepted(events[1..])
  {
  }

  /** Chaining two balanced steps: what one step drained and left queued, the next
      drains or keeps queued, together with what it accepted. */
  lemma Rebalance(drained1: seq<Request>, drained2: seq<Request>,
                  queue0: seq<Request>, queue1: seq<Request>, queue2: seq<Request>,
                  accepted1: seq<Request>, accepted2: seq<Request>)
    requires drained1 + queue1 == queue0 + accepted1
    requires drained2 + queue2 == queue1 + accepted2
    ensures (drained1 + drained2) + queue2 == queue0 + (accepted1 + accepted2)
  {
    calc {
      (drained1 + drained2) + queue2;
      drained1 + (drained2 + queue2);
      drained1 + (queue1 + accepted2);
      (drained1 + queue1) + accepted2;
      (queue0 + accepted1) + accepted2;
    }
  }

  /** One step of a run keeps the same balance between drained, queued and accepted requests. */
  lemma ApplyConserves(s: State, e: Event, hz: nat)
    ensures Entries(Apply(s, e, hz).log) + Apply(s, e, hz).state.queue == s.queue + Accepted([e])
  {
  }

  /** Unloading flushes: after any run, `cleanup_module` leaves the list empty and
      the timer deleted, and every request ever queued has been visited exactly
      once, in the order it was queued. */
  lemma ShutdownFlush(s: State, events: seq<Event>, hz: nat, host: Host)
    ensures var run := Run(s, events, hz);
            var stop := CleanupModule(run.state, host);
            && stop.state == State([], Disarmed)
            && Entries(run.log + stop.log) == s.queue + Accepted(events)
  {
    var run := Run(s, events, hz);
    var stop := CleanupModule(run.state, host);
    Conservation(s, events, hz);
    EntriesAppend(run.log, stop.log);
  }

  /** No retry: whatever became of the entries of one expiry's drain, the next
      expiry's drain sees only the requests written in between. */
  lemma NoRetry(s: State, now: nat, now': nat, hz: nat, host: Host, host': Host, writes: seq<Event>)
    requires forall i | 0 <= i < |writes| :: writes[i].WriteCall?
    ensures var first := TimerCallback(s, now, hz, host);
            var between := Run(first.state, writes, hz);
            Entries(TimerCallback(between.state, now', hz, host').log) == Accepted(writes)
  {
    var first := TimerCallback(s, now, hz, host);
    WritesOnly(first.state, writes, hz);
  }

  /** Writes alone run no drain and only append what they accept. */
  lemma WritesOnly(s: State, writes: seq<Event>, hz: nat)
    requires forall i | 0 <= i < |writes| :: writes[i].WriteCall?
    ensures Run(s, writes, hz).log == []
    ensures Run(s, writes, hz).state.queue == s.queue + Accepted(writes)
  {
    WritesDoNotDrain(s, writes, hz);
    Conservation(s, writes, hz);
    assert Entries(Run(s, writes, hz).log) == [];
  }

  lemma {:induction false} WritesDoNotDrain(s: State, writes: seq<Event>, hz: nat)
    requires forall i | 0 <= i < |writes| :: writes[i].WriteCall?
    ensures Run(s, writes, hz).log == []
    decreases |writes|
  {
    if writes != [] {
      WritesDoNotDrain(Apply(s, writes[0], hz).state, writes[1..], hz);
    }
  }

  /** Load, run, unload: a module loaded at `now` that then sees any run of
      writes and expiries has, by the time it is unloaded, visited exactly the
      requests its writes accepted, each once and in write order, and nothing else. */
  lemma LoadRunUnload(now: nat, hz: nat, events: seq<Event>, host: Host)
    ensures var loaded := InitModule(true, now, hz).state;
            var run := Run(loaded, events, hz);
            var stop := CleanupModule(run.state, host);
            && stop.state == State([], Disarmed)
            && Entries(run.log + stop.log) == Accepted(events)
  {
    var loaded := InitModule(true, now, hz).state;
    ShutdownFlush(loaded, events, hz, host);
    assert loaded.queue + Accepted(events) == Accepted(events);
  }

  /** A caller writes "4242,,9" and a newline to a freshly loaded module; the
      write returns 8 and queues {pid 4242, signal 9}; at the next expiry, with
      4242 a live task that accepts signal 9, the signal is sent and the list is
      empty again. */
  lemma EndToEnd(now: nat, expiry: nat, hz: nat, host: Host)
    requires host.resolves(4242) && host.delivers(4242, Num(9))
    ensures var loaded := InitModule(true, now, hz);
            var w := Write(loaded.state, "4242,,9\n", true, true);
            var fired := TimerCallback(w.state, expiry, hz, host);
            && loaded.Loaded?
            && w.ret == 8
            && w.state.queue == [Request(4242, Num(9))]
            && fired.log == [Sent(Request(4242, Num(9)))]
            && fired.state == State([], Armed(expiry + TimerInterval(hz)))
  {
    ParseExample();
    var loaded := InitModule(true, now, hz);
    var w := Write(loaded.state, "4242,,9\n", true, true);
    assert w.state.queue == [Request(4242, Num(9))];
    assert Drain(w.state.queue, host)[0] == Sent(Request(4242, Num(9)));
  }
}
