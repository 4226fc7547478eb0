/** `run_forever` of `mem_reader.rs`: the tracker's connect-and-poll loop.

    The loop never ends, so it is modelled one iteration at a time: `Connect`
    is one pass of the outer loop up to the point where the connection is
    made (or the pass gives up and `continue`s), `Poll` is one pass of the
    inner loop. The clock is a parameter of each pass, the sleeps are left
    out, and the broadcast channel is the list of messages sent so far. */
module Tracker {
  import opened Wrappers
  import opened Win32
  import opened MemReader
  import opened SpelunkyStats

  /** `TrackerMessage`: what the tracker broadcasts to the web clients. */
  datatype TrackerMessage = Connecting | Payload(stats: Stats)

  /** A payload is sent again after more than this many nanoseconds, changed or not. */
  const REFRESH_NS: nat := 1_000_000_000

  /** Which of the two loops the tracker is in; `Connected` holds the process
      handle and the base address the inner loop polls. `Halted` is the thread
      after `get_base_addr` panicked on its module array: the panic unwinds out
      of `run_forever`, leaving the process handle open. */
  datatype Phase = Searching | Connected(process: nat, base: nat) | Halted(process: nat)

  /** The tracker's state: its loop, the handle table, `stats_state`,
      `last_update` and every message sent so far. */
  datatype TrackerState = TrackerState(
    phase: Phase,
    kernel: Kernel,
    statsState: Stats,
    lastUpdate: nat,
    sent: seq<TrackerMessage>)

  /** How a connection attempt ends: it gives up and retries, it connects to a
      process at a base address, or `get_base_addr` panics with the process
      handle open. */
  datatype Outcome = Retry | Linked(process: nat, base: nat) | Panicked(process: nat)

  /** A connection attempt's outcome and the handle table after it. */
  datatype Attempt = Attempt(outcome: Outcome, kernel: Kernel)

  /** The process handles that are open. */
  function ProcessHandles(k: Kernel): set<nat> {
    set h | h in k.open && h in k.processOf
  }

  /** The search-and-resolve part of one outer iteration: find and open the
      game's process, then resolve its base address; when that returns an
      error the process handle is closed again, but an index past the module
      array panics before that. */
  function ConnectAttempt(w: World, k: Kernel): Attempt {
    var search := ProcessSearch(w, k);
    match search.result
    case Err(_) => Attempt(Retry, search.kernel)
    case Ok(process) =>
      match BaseAddress(TargetOf(w, search.kernel, process))
      case Err(IndexOutOfBounds) => Attempt(Panicked(process), search.kernel)
      case Err(_) => Attempt(Retry, Close(search.kernel, process))
      case Ok(base) => Attempt(Linked(process, base), search.kernel)
  }

  /** The first "Spelunky.exe" entry can be opened, and resolving its base
      address gives `r`. */
  predicate OpensWith(w: World, r: Result<nat, BaseAddrError>) {
    && w.snapshotOk && FirstExeEntry(w.entries).Some?
    && var pid := w.entries[FirstExeEntry(w.entries).value].pid;
       Openable(w, pid) && BaseAddress(w.targets[pid]) == r
  }

  /** A connection is made exactly when the first "Spelunky.exe" entry can be
      opened and its base address resolved; it is then on a newly opened handle
      to that process, at the base address `get_base_addr` reports. The attempt
      panics exactly when that lookup indexes past the module array, and then
      the new handle stays open. Any other failed attempt leaves no process
      handle open that was not open before. */
  lemma ConnectAttemptResult(w: World, k: Kernel)
    requires k.Valid()
    ensures var a := ConnectAttempt(w, k);
      && a.kernel.Valid()
      && (a.outcome.Linked? <==> exists base :: OpensWith(w, Ok(base)))
      && (a.outcome.Panicked? <==> OpensWith(w, Err(IndexOutOfBounds)))
      && (!a.outcome.Retry? ==>
            var pid := w.entries[FirstExeEntry(w.entries).value].pid;
            && a.outcome.process !in k.open
            && a.outcome.process in a.kernel.open
            && TargetOf(w, a.kernel, a.outcome.process) == w.targets[pid]
            && ProcessHandles(a.kernel) == ProcessHandles(k) + {a.outcome.process})
      && (a.outcome.Linked? ==> OpensWith(w, Ok(a.outcome.base)))
      && (a.outcome.Retry? ==> ProcessHandles(a.kernel) == ProcessHandles(k))
  {
    ProcessSearchOpensFirstMatch(w, k);
    var search := ProcessSearch(w, k);
    var a := ConnectAttempt(w, k);
    if search.result.Ok? {
      var process := search.result.value;
      var pid := w.entries[FirstExeEntry(w.entries).value].pid;
      assert TargetOf(w, search.kernel, process) == w.targets[pid];
      assert ProcessHandles(search.kernel) == ProcessHandles(k) + {process};
      match BaseAddress(w.targets[pid])
      case Ok(base) =>
        assert OpensWith(w, Ok(base));
      case Err(e) =>
        if e != IndexOutOfBounds {
          assert a.kernel == Close(search.kernel, process);
          assert ProcessHandles(a.kernel) == ProcessHandles(k);
        }
    } else {
      assert ProcessHandles(search.kernel) == ProcessHandles(k);
    }
  }

  /** One outer iteration up to the inner loop: `Connecting` is sent first;
      then either the iteration gives up, or the thread halts on a panic, or the
      connection starts with `Stats::default()` as `stats_state` and
      `last_update` at `now`. */
  function AfterConnect(s: TrackerState, w: World, now: nat): TrackerState {
    var a := ConnectAttempt(w, s.kernel);
    var sent := s.sent + [Connecting];
    match a.outcome
    case Retry => s.(kernel := a.kernel, sent := sent)
    case Panicked(process) => s.(phase := Halted(process), kernel := a.kernel, sent := sent)
    case Linked(process, base) => TrackerState(Connected(process, base), a.kernel, DEFAULT, now, sent)
  }

  /** The publish test: the new record differs from `stats_state` as the
      derived `PartialEq` sees it, or more than a second has passed. A clock
      reading before `last_update` counts as no time passed. A record holding a
      NaN always passes; an unchanged record without one passes only once more
      than a second has passed. */
  predicate ShouldPublish(state: Stats, lastUpdate: nat, record: Stats, now: nat)
    ensures HasNaN(record) ==> ShouldPublish(state, lastUpdate, record, now)
    ensures !HasNaN(record) && record == state ==>
              (ShouldPublish(state, lastUpdate, record, now) <==> now > lastUpdate + REFRESH_NS)
  {
    StatsEqNaN(record, state);
    !StatsEq(state, record) || now - lastUpdate > REFRESH_NS
  }

  /** The publish step for a decoded record: when it differs from
      `stats_state` or more than a second has passed, it becomes `stats_state`,
      `last_update` moves to `now`, and it is sent. */
  function Published(s: TrackerState, record: Stats, now: nat): TrackerState {
    if ShouldPublish(s.statsState, s.lastUpdate, record, now)
    then s.(statsState := record, lastUpdate := now, sent := s.sent + [Payload(record)])
    else s
  }

  /** One inner iteration: the liveness check, the decode, and the publish. */
  ghost function AfterPoll(s: TrackerState, w: World, now: nat): TrackerState
    requires s.phase.Connected?
  {
    var target := TargetOf(w, s.kernel, s.phase.process);
    if ObservedExitCode(target) != STILL_ACTIVE then s.(phase := Searching)
    else match Decoded(target.memory, s.phase.base)
      case None => s
      case Some(record) => Published(s, record, now)
  }

  /** One iteration of whichever loop the tracker is in; a halted thread does
      nothing more. */
  ghost function Next(s: TrackerState, w: World, now: nat): TrackerState {
    match s.phase
    case Searching => AfterConnect(s, w, now)
    case Connected(_, _) => AfterPoll(s, w, now)
    case Halted(_) => s
  }

  /** The system and the clock when an iteration starts. */
  datatype Moment = Moment(world: World, now: nat)

  /** The state after one iteration at each of the given moments. */
  ghost function Run(s: TrackerState, moments: seq<Moment>): TrackerState
    decreases |moments|
  {
    if moments == [] then s else Run(Next(s, moments[0].world, moments[0].now), moments[1..])
  }

  /** Handles the tracker holds: the polled process handle stays open, and so
      does the one a panic left behind. */
  ghost predicate Consistent(s: TrackerState) {
    s.kernel.Valid() && (!s.phase.Searching? ==> s.phase.process in s.kernel.open)
  }

  /** Every outer iteration sends `Connecting` before anything else and sends
      nothing more; a new connection starts from `Stats::default()`; the thread
      halts exactly when `get_base_addr` panics, holding one more process
      handle. */
  lemma ConnectSendsConnecting(s: TrackerState, w: World, now: nat)
    requires Consistent(s) && s.phase.Searching?
    ensures var t := AfterConnect(s, w, now);
      && Consistent(t)
      && t.sent == s.sent + [Connecting]
      && (t.phase.Connected? ==> t.statsState == DEFAULT && t.lastUpdate == now)
      && (t.phase.Searching? ==> ProcessHandles(t.kernel) == ProcessHandles(s.kernel))
      && (t.phase.Halted? <==> OpensWith(w, Err(IndexOutOfBounds)))
      && (t.phase.Halted? ==> ProcessHandles(t.kernel) == ProcessHandles(s.kernel) + {t.phase.process})
  {
    ConnectAttemptResult(w, s.kernel);
  }

  /** A halted thread stays halted: whatever happens afterwards, nothing more is
      sent and no handle is opened or closed. */
  lemma {:induction false} HaltedStaysHalted(s: TrackerState, moments: seq<Moment>)
    requires s.phase.Halted?
    ensures Run(s, moments) == s
    decreases |moments|
  {
    if moments != [] {
      HaltedStaysHalted(Next(s, moments[0].world, moments[0].now), moments[1..]);
    }
  }

  /** A payload is sent exactly when the process is still active, the decode
      succeeds, and the decoded record differs from `stats_state` or more than a
      second has passed; the payload is the record the layout designates. */
  lemma PollPublishes(s: TrackerState, w: World, now: nat)
    requires s.phase.Connected?
    ensures var t := AfterPoll(s, w, now);
      var target := TargetOf(w, s.kernel, s.phase.process);
      var published := && ObservedExitCode(target) == STILL_ACTIVE
                       && LayoutReadable(target.memory, s.phase.base)
                       && ShouldPublish(s.statsState, s.lastUpdate, Layout(target.memory, s.phase.base), now);
      && (published ==> t.sent == s.sent + [Payload(Layout(target.memory, s.phase.base))]
                        && t.statsState == Layout(target.memory, s.phase.base) && t.lastUpdate == now)
      && (!published ==> t.sent == s.sent && t.statsState == s.statsState && t.lastUpdate == s.lastUpdate)
  {
  }

  /** When the process has exited the inner loop is left without a decode and
      without `CloseHandle`: the handle stays open and nothing is sent. A failed
      decode stays in the inner loop and changes nothing. */
  lemma PollExitAndFailure(s: TrackerState, w: World, now: nat)
    requires Consistent(s) && s.phase.Connected?
    ensures var t := AfterPoll(s, w, now);
      var target := TargetOf(w, s.kernel, s.phase.process);
      && Consistent(t)
      && (ObservedExitCode(target) != STILL_ACTIVE ==>
            t == s.(phase := Searching) && s.phase.process in t.kernel.open)
      && (ObservedExitCode(target) == STILL_ACTIVE && !LayoutReadable(target.memory, s.phase.base) ==> t == s)
  {
  }

  /** A decoded record holding a NaN is published at every poll, since it never
      equals `stats_state`. */
  lemma NaNAlwaysPublishes(s: TrackerState, record: Stats, now: nat)
    requires HasNaN(record)
    ensures Published(s, record, now).sent == s.sent + [Payload(record)]
  {
    StatsEqNaN(record, s.statsState);
  }

  /** Right after a payload, the same record decoded again within a second
      changes nothing and sends nothing, unless it holds a NaN. */
  lemma NoRepeatWithinASecond(s: TrackerState, record: Stats, now: nat, later: nat)
    requires !HasNaN(record)
    requires |Published(s, record, now).sent| == |s.sent| + 1
    requires later - now <= REFRESH_NS
    ensures var t := Published(s, record, now); Published(t, record, later) == t
  {
    StatsEqNaN(record, record);
  }

  /** While no process entry is named "Spelunky.exe" the tracker keeps
      searching, sends one `Connecting` per iteration and nothing else, and
      opens no process handle. */
  lemma {:induction false} AbsentTrace(s: TrackerState, moments: seq<Moment>)
    requires Consistent(s) && s.phase.Searching?
    requires forall i :: 0 <= i < |moments| ==> FirstExeEntry(moments[i].world.entries).None?
    ensures var t := Run(s, moments);
      && Consistent(t) && t.phase.Searching?
      && t.sent == s.sent + seq(|moments|, _ => Connecting)
      && ProcessHandles(t.kernel) == ProcessHandles(s.kernel)
      && t.statsState == s.statsState
    decreases |moments|
  {
    if moments != [] {
      var m := moments[0];
      ConnectAttemptResult(m.world, s.kernel);
      var s1 := Next(s, m.world, m.now);
      assert s1 == AfterConnect(s, m.world, m.now);
      AbsentTrace(s1, moments[1..]);
      assert s.sent + seq(|moments|, _ => Connecting)
          == s1.sent + seq(|moments| - 1, _ => Connecting);
    }
  }

  /** The tracker thread running `run_forever`. */
  class TrackerTask {
    var phase: Phase
    var kernel: Kernel
    var statsState: Stats
    var lastUpdate: nat
    var sent: seq<TrackerMessage>

    ghost function State(): TrackerState
      reads this
    {
      TrackerState(phase, kernel, statsState, lastUpdate, sent)
    }

    ghost predicate Valid()
      reads this
    {
      Consistent(State())
    }

    /** A tracker that has not connected yet and has sent nothing. */
    constructor(k: Kernel)
      requires k.Valid()
      ensures Valid() && State() == TrackerState(Searching, k, DEFAULT, 0, [])
    {
      phase, kernel, statsState, lastUpdate, sent := Searching, k, DEFAULT, 0, [];
    }

    /** One pass of the outer loop until it connects or `continue`s. */
    method Connect(w: World, now: nat)
      requires Valid() && phase.Searching?
      modifies this
      ensures Valid() && State() == AfterConnect(old(State()), w, now)
    {
      ConnectAttemptResult(w, kernel);
      sent := sent + [Connecting];
      var process, k' := GetSpelunkyProcess(w, kernel);
      kernel := k';
      if process.Err? {
        return;
      }
      var baseAddr := GetBaseAddr(TargetOf(w, kernel, process.value));
      if baseAddr == Err(IndexOutOfBounds) {
        phase := Halted(process.value);
        return;
      }
      if baseAddr.Err? {
        kernel := Close(kernel, process.value);
        return;
      }
      phase := Connected(process.value, baseAddr.value);
      statsState := DEFAULT;
      lastUpdate := now;
    }

    /** One pass of the inner loop. */
    method Poll(w: World, now: nat)
      requires Valid() && phase.Connected?
      modifies this
      ensures Valid() && State() == AfterPoll(old(State()), w, now)
    {
      var target := TargetOf(w, kernel, phase.process);
      if ObservedExitCode(target) != STILL_ACTIVE {
        phase := Searching;
      } else {
        var decoded := FromMemory(target.memory, phase.base);
        if decoded.Ok? {
          Publish(decoded.value, now);
        }
      }
    }

    /** The publish step of an inner pass. */
    method Publish(record: Stats, now: nat)
      requires Valid()
      modifies this
      ensures Valid() && State() == Published(old(State()), record, now)
    {
      if !StatsEq(statsState, record) || now - lastUpdate > REFRESH_NS {
        statsState := record;
        lastUpdate := now;
        sent := sent + [Payload(record)];
      }
    }

    /** One iteration of whichever loop the tracker is in; once halted it does
        nothing. */
    method Step(w: World, now: nat)
      requires Valid()
      modifies this
      ensures Valid() && State() == Next(old(State()), w, now)
    {
      match phase
      case Searching => Connect(w, now);
      case Connected(_, _) => Poll(w, now);
      case Halted(_) =>
    }
  }
}
