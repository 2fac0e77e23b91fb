/** The drain (`send_signals`): walk the pending list in insertion order, look up
    each entry's pid, send the entry's signal only when the lookup finds a task,
    and remove the entry whatever happened. */
module Signals {
  import opened Requests

  /** The kernel services the drain calls, as oracles fixed for one drain:
      `resolves(pid)` says whether `pid_task(find_vpid(pid), PIDTYPE_PID)` finds a
      task, and `delivers(pid, signal)` whether `send_sig` to that task succeeds. */
  datatype Host = Host(resolves: int -> bool, delivers: (int, SigField) -> bool)

  /** What happened to one entry: no task for its pid, its signal was sent, or the
      send failed. In each case the entry has been removed from the list. */
  datatype Outcome = NoTask(req: Request) | Sent(req: Request) | SendFailed(req: Request)

  /** Whether a send was attempted for the entry. */
  predicate Attempted(o: Outcome) {
    o.Sent? || o.SendFailed?
  }

  /** The handling of one entry. */
  function Visit(host: Host, entry: Request): (o: Outcome)
    ensures o.req == entry
    ensures Attempted(o) <==> host.resolves(entry.pid)
    ensures o.Sent? <==> host.resolves(entry.pid) && host.delivers(entry.pid, entry.signal)
  {
    if !host.resolves(entry.pid) then NoTask(entry)
    else if !host.delivers(entry.pid, entry.signal) then SendFailed(entry)
    else Sent(entry)
  }

  /** The outcomes of one drain of `queue`, in the order the entries were visited. */
  function Drain(queue: seq<Request>, host: Host): (log: seq<Outcome>)
    ensures |log| == |queue|
    ensures forall i | 0 <= i < |queue| :: log[i].req == queue[i]
    ensures forall i | 0 <= i < |queue| :: Attempted(log[i]) <==> host.resolves(queue[i].pid)
    ensures forall i | 0 <= i < |queue| ::
              log[i].Sent? <==> host.resolves(queue[i].pid) && host.delivers(queue[i].pid, queue[i].signal)
  {
    if queue == [] then [] else [Visit(host, queue[0])] + Drain(queue[1..], host)
  }

  /** The entries an outcome log is about, in order. */
  function Entries(log: seq<Outcome>): (reqs: seq<Request>)
    ensures |reqs| == |log|
    ensures forall i | 0 <= i < |log| :: reqs[i] == log[i].req
  {
    if log == [] then [] else [log[0].req] + Entries(log[1..])
  }

  /** The entries of a log for which a send was attempted, in order. */
  function Attempts(log: seq<Outcome>): seq<Request> {
    if log == [] then []
    else (if Attempted(log[0]) then [log[0].req] else []) + Attempts(log[1..])
  }

  /** Reference: the entries of `queue` whose pid the host resolves, in order. */
  function Resolvable(queue: seq<Request>, host: Host): seq<Request> {
    if queue == [] then []
    else (if host.resolves(queue[0].pid) then [queue[0]] else []) + Resolvable(queue[1..], host)
  }

  lemma EntriesAppend(a: seq<Outcome>, b: seq<Outcome>)
    ensures Entries(a + b) == Entries(a) + Entries(b)
  {
  }

  /** A drain visits every entry exactly once, in insertion order. */
  lemma DrainVisitsAll(queue: seq<Request>, host: Host)
    ensures Entries(Drain(queue, host)) == queue
  {
  }

  /** Sends are attempted exactly for the entries whose pid resolves, in
      insertion order, each with the entry's own signal; an entry whose pid does
      not resolve gets no send. */
  lemma {:induction false} DrainAttempts(queue: seq<Request>, host: Host)
    ensures Attempts(Drain(queue, host)) == Resolvable(queue, host)
  {
    if queue != [] {
      var log := Drain(queue, host);
      assert log[0] == Visit(host, queue[0]);
      assert log[1..] == Drain(queue[1..], host);
      DrainAttempts(queue[1..], host);
    }
  }

  /** Draining two batches one after the other visits them as draining their
      concatenation would. */
  lemma DrainAppend(a: seq<Request>, b: seq<Request>, host: Host)
    ensures Drain(a + b, host) == Drain(a, host) + Drain(b, host)
  {
  }

  /** `send_signals` as the C loop runs it: take the entries off the list one by
      one, look up the pid, send the signal only when a task was found, and
      delete the entry on every path. The list is empty at the end. */
  method SendSignals(queue: seq<Request>, host: Host) returns (remaining: seq<Request>, log: seq<Outcome>)
    ensures remaining == []
    ensures log == Drain(queue, host)
  {
    remaining := queue;
    log := [];
    var i := 0;
    while remaining != []
      invariant 0 <= i <= |queue|
      invariant remaining == queue[i..]
      invariant log == Drain(queue[..i], host)
      decreases |remaining|
    {
      var entry := remaining[0];
      var outcome;
      if !host.resolves(entry.pid) {
        outcome := NoTask(entry);
      } else if !host.delivers(entry.pid, entry.signal) {
        outcome := SendFailed(entry);
      } else {
        outcome := Sent(entry);
      }
      assert queue[..i + 1] == queue[..i] + [entry];
      DrainAppend(queue[..i], [entry], host);
      log := log + [outcome];
      remaining := remaining[1..];
      i := i + 1;
    }
    assert queue[..i] == queue;
  }
}
