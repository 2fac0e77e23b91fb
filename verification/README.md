# siggen: a model of the on-demand signal generator kernel module

The module exposes a write-only procfs entry. Every write is parsed into a
`(pid, signal)` request and appended to a pending list. A kernel timer fires
every `TIMER_INTERVAL` (thirty seconds of jiffies). At each expiry the list is
drained: each entry's pid is looked up, its signal is sent only when a task is
found, and the entry is removed whatever happened. Unloading the module
deletes the timer and drains the list one last time.

This project models that core as pure functions over sequences:

- `CInt`: the narrowing of the `long` returned by `simple_strtol` into the
  32-bit `pid_t` and `int` fields.
- `Decimal`: `simple_strtol(.., 10)` as an assumed specification, since its
  body is in the kernel library. It reads an optional `-` and then the longest
  run of digits, with value 0 when there are none, and reports where it
  stopped. It also holds a decimal formatter for the round trip.
- `Requests`: `struct pending_signal` and the parse done by the write callback.
  The pid is read from index 0. The signal is read from exactly two bytes past
  where the pid stopped.
- `WritePath`: `proc_write_callback`. It copies, allocates, parses, appends at
  the tail, and returns `data_size` or -12.
- `Signals`: `send_signals`. The task lookup and `send_sig` are oracles
  (`Host.resolves`, `Host.delivers`). The drain is a recursive function
  producing an ordered outcome log. It is also a loop method shaped like
  `list_for_each_entry_safe`.
- `Lifecycle`: the module state (pending list and timer), plus `init_module`,
  the timer callback and `cleanup_module`.
- `Trace`: runs of writes and timer expiries, each treated as one atomic step.

Two facts about the code shape the model:

- The write path has no parse-failure branch. `""`, `"abc"`, `"123"` and
  `"123,,"` are all accepted and queued (`Requests.MalformedInputsEnqueued`).
- `list_lock` is held across the whole drain, lookup and delivery included
  (siggen.c:103-130). This affects only locking, not the sequential behaviour
  modelled here.

The copied buffer is not NUL-terminated, and the two-byte skip before the
signal is not bounds-checked. When the skip lands at or past the end of the
buffer, no byte of the signal field lies inside the buffer. The C code then
reads whatever follows the buffer on the stack. The model gives such an entry
the signal `BeyondBuffer` instead of a value. The entry is still queued. It goes
through the drain like any other entry: if its pid resolves, `Host.delivers`
decides the send.

## Model

| member | source | states |
|---|---|---|
| CInt.ToInt | siggen.c:64-67 | Storing the parsed `long` into the 32-bit fields yields a value in `int` range, congruent to it modulo 2^32, and unchanged when it was already in range |
| Decimal.Strtol | siggen.c:64 | The stop index lies past any leading '-' and within the buffer. Everything between is digits, and the stop is at a non-digit or the end, so the run is the longest one. No digits gives 0, and only a leading '-' gives a negative value |
| Decimal.StrtolAt | siggen.c:64-67 | A number written in decimal at any index of a buffer, followed by a non-digit or the end, is read back exactly, and the scan stops right after it |
| Decimal.StrtolLeadingZeros | siggen.c:64-67 | Any digit run, with leading zeros and an optional '-', is read as the number its significant digits denote (so "007" is 7, "-007" is -7 and "-0" is 0), and the scan stops right after the run when a non-digit or the end follows |
| Decimal.StrtolFormat | siggen.c:64-67 | Any integer written in decimal at any offset is read back exactly, and the stop is right after it when a non-digit or the end follows |
| Requests.Parse | siggen.c:60-68 | Every buffer yields a request; both fields are in `int` range; the signal has a value exactly when its start (pid stop + 2) is inside the buffer |
| Requests.ParseFormat | siggen.c:64-67 | Round trip: writing pid, two separator bytes (the first a non-digit, the second anything) and signal parses back to that pid and signal, for all `int` values, negative ones included |
| Requests.ParseFormatTerminated | siggen.c:60-67 | Round trip for a write whose signal is followed by a terminating non-digit such as a newline: pid, two separator bytes (the first a non-digit) and signal parse back to that pid and signal, for all `int` values. Both the pid scan and the signal scan stop before the end of the buffer, so neither depends on reading past it |
| Requests.ParseNoDigits | siggen.c:60-67 | A buffer not starting with a digit or '-' still produces a request, with pid 0, and the signal is read from index 2 |
| Requests.SeparatorBytesIgnored | siggen.c:66-67 | The two bytes after the pid are skipped unread: replacing them with other bytes (the first unable to extend the pid) leaves the parsed request unchanged |
| Requests.MalformedInputsEnqueued | siggen.c:60-75 | The empty buffer, "abc", "123" and "123,," parse to requests instead of being rejected. The empty buffer, "123" and "123,," get the signal `BeyondBuffer`, since their signal field starts at or past the end of the buffer. The pids of the empty buffer (0) and of "123" (123) rest on the scan stopping at the end of the buffer; the C code reads on past it there |
| Requests.ParseExample | siggen.c:64-67 | "4242,,9" followed by a newline parses to pid 4242, signal 9 |
| Requests.ParseLeadingZeros | siggen.c:64-67 | "007,,-09" followed by a newline parses to pid 7, signal -9 |
| Requests.ParseNegativeZero | siggen.c:64-67 | "-0,,0" followed by a newline parses to pid 0, signal 0 |
| WritePath.ProcWrite | siggen.c:41-81 | If the copy and the allocation succeed, exactly one entry, the parse of the buffer, is appended at the tail, the old entries stay unchanged and in order, and the buffer length is returned. If either fails, -12 is returned and the list is unchanged |
| Signals.Visit | siggen.c:106-128 | An entry gets a send attempt exactly when its pid resolves. The send counts as succeeding exactly when the lookup and `send_sig` both succeed |
| Signals.Drain | siggen.c:104-129 | The log has one outcome per entry, in list order. A send is attempted exactly for the entries whose pid resolves, and succeeds exactly when delivery also succeeds |
| Signals.DrainVisitsAll | siggen.c:104-129 | A drain visits every entry exactly once, in insertion order |
| Signals.DrainAttempts | siggen.c:104-124 | The sends attempted are exactly the entries whose pid resolves, in insertion order, each with its own signal; unresolvable entries get no send |
| Signals.SendSignals | siggen.c:96-131 | The loop leaves nothing on the list and produces the outcome log of the functional drain |
| Lifecycle.InitModule | siggen.c:147-159 | Loading succeeds exactly when the procfs entry is created. It then starts with an empty list and the timer armed for `now + 30*HZ`; otherwise it returns -12 |
| Lifecycle.Write | siggen.c:71-80 | A write changes only the list, never the timer. On success the parsed request is appended and the buffer length is returned; on failure the state is unchanged and -12 is returned |
| Lifecycle.Flush | siggen.c:96-131 | After a drain the list is empty, the timer is untouched, and every former entry is visited in order. Sends are attempted exactly for the resolvable ones. Draining an empty list changes nothing and logs nothing |
| Lifecycle.TimerCallback | siggen.c:134-144 | The timer callback empties the list, visiting every entry in order, and re-arms the timer for `now + 30*HZ` |
| Lifecycle.CleanupModule | siggen.c:161-170 | Unloading leaves an empty list and a deleted timer, after visiting every remaining entry once, in order |
| Trace.Conservation | siggen.c:71-130 | Over any run of writes and expiries, the drained entries followed by the still-queued ones equal the initial list followed by every accepted request, in order. Nothing is lost, duplicated or reordered |
| Trace.ShutdownFlush | siggen.c:161-170 | After any run, unloading visits every request ever queued exactly once and in order, and leaves the list empty and the timer deleted |
| Trace.NoRetry | siggen.c:104-141 | Whatever happened to the entries of one expiry's drain, the next expiry's drain sees exactly the requests written in between |
| Trace.LoadRunUnload | siggen.c:147-170 | A module loaded with an empty list that then sees any run of writes and expiries has, once unloaded, visited exactly the requests its writes accepted, each once and in write order, and ends with an empty list and a deleted timer |
| Trace.EndToEnd | siggen.c:64-159 | After a successful load, writing "4242,,9" and a newline returns 8 and queues {4242, 9}. At the next expiry, with 4242 live and accepting 9, the signal is sent, the list is empty and the timer is re-armed |

## Left out

- procfs registration and removal (`proc_create`, `remove_proc_entry`, `proc_ops`): kernel I/O plumbing. Only the success or failure of `proc_create` is an input, to `Lifecycle.InitModule`.
- `list_lock` and real interleavings of writers with the timer: concurrency. Each append and each drain is one atomic step.
- `find_vpid`, `pid_task` and `send_sig` are foreign kernel calls. They are replaced by the oracles `Host.resolves` and `Host.delivers`, fixed for the length of one drain.
- `copy_from_user` and `kmalloc` are modelled only as success flags. `kfree` and the stack buffer of `data_size` bytes are not modelled.
- `pr_info` logging.
- The `list_del` of the list head at the end of `cleanup_module` (siggen.c:172).
- `jiffies` is an unbounded natural number with no wrap-around, and `HZ` is a parameter `hz`.
- The `size_t` to `ssize_t` conversion of the returned length, which matters only for writes of 2^63 bytes or more.
- Decimal.Strtol: a digit run that reaches the end of the copied buffer is taken to stop there. The C code would go on reading the bytes that follow the buffer on the stack.
- Decimal.Strtol: its own contract does not fix the value of a non-empty digit run. `Decimal.StrtolLeadingZeros` fixes it for every run of the shape zeros followed by a canonical numeral, after an optional '-', which includes leading zeros and a negative zero. That every digit run has this shape is not proved here.
- Decimal.Strtol: values beyond the range of `long` are kept exact. The library's overflow handling is not part of this model. `CInt.ToInt` gives the C result for any library result congruent to the exact value modulo 2^32.
- Requests.Parse: when the two-byte skip lands at or past the end of the buffer, the signal field is `BeyondBuffer` and carries no value. The C code reads an unspecified value from beyond the buffer.
- Requests.ParseFormat: the round trip needs the first separator byte to be a non-digit. A digit there would be read as part of the pid.
- Requests.ParseFormat: the buffer ends on the signal's last digit, so the round trip relies on the scan stopping at the end of the buffer. The C code reads on past it there. `Requests.ParseFormatTerminated` states the round trip for a buffer that ends in a non-digit, where the C scan stops inside the buffer on its own.
- Requests.MalformedInputsEnqueued: the pids of `""` and `"123"` rely on the scan stopping at the end of the buffer. The C code reads on past it there.
