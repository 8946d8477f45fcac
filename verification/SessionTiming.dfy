/** How long a session lives, over every run of the session store. */
module SessionTiming {
  import opened Brokers
  import opened Options
  import opened Sessions

  /** Readings of the steady clock are in nanoseconds, timeouts in seconds. */
  datatype Event =
    | Query(now: int)
    | TokenLogin(token: string, now: int, touched: int)
    | SetTimeout(timeout: int)
    | Restore(token: string, now: int)

  /** An empty store, not swept yet; the constructor's timeout is 3600 seconds. */
  function Start(timeout: int): Timers {
    Timers(map[], 0, timeout)
  }

  function Step(s: Timers, e: Event): Timers {
    match e
    case Query(now) => Sweep(s, now)
    case TokenLogin(token, now, touched) => Login(s, token, now, touched)
    case SetTimeout(timeout) => s.(timeout := timeout)
    case Restore(token, now) => Load(s, token, now)
  }

  function Front(events: seq<Event>): seq<Event>
    requires events != []
  {
    events[..|events| - 1]
  }

  function Last(events: seq<Event>): Event
    requires events != []
  {
    events[|events| - 1]
  }

  /** The store after a run. */
  function Run(timeout: int, events: seq<Event>): Timers {
    if events == [] then Start(timeout) else Step(Run(timeout, Front(events)), Last(events))
  }

  /** The latest clock reading of a run. */
  function Clock(events: seq<Event>): int {
    if events == [] then 0
    else match Last(events)
      case Query(now) => now
      case TokenLogin(_, _, touched) => touched
      case SetTimeout(_) => Clock(Front(events))
      case Restore(_, now) => now
  }

  /** The clock does not go back and no event sets a timeout outside the bounds. */
  predicate Admissible(clock: int, e: Event, lo: int, hi: int) {
    match e
    case Query(now) => clock <= now
    case TokenLogin(_, now, touched) => clock <= now <= touched
    case SetTimeout(timeout) => lo <= timeout <= hi
    case Restore(_, now) => clock <= now
  }

  /** A run in which every timeout in force lies between `lo` and `hi`. */
  predicate ValidRun(timeout: int, events: seq<Event>, lo: int, hi: int) {
    && lo <= timeout <= hi
    && (events != [] ==> ValidRun(timeout, Front(events), lo, hi)
                         && Admissible(Clock(Front(events)), Last(events), lo, hi))
  }

  predicate Sweeps(s: Timers, e: Event) {
    (e.Query? || e.TokenLogin?) && e.now - s.lastSweep > SECOND
  }

  /** The timeout in force at the last sweep of a run, or at its start. */
  function SweptTimeout(timeout: int, events: seq<Event>): int {
    if events == [] then timeout
    else
      var before := Run(timeout, Front(events));
      if Sweeps(before, Last(events)) then before.timeout else SweptTimeout(timeout, Front(events))
  }

  /** When a session was last used: restored while unknown, or returned by a login. */
  function LastUse(timeout: int, events: seq<Event>, token: string): Option<int> {
    if events == [] then None
    else
      var before := Run(timeout, Front(events));
      match Last(events)
      case Restore(t, now) =>
        if t == token && token !in before.sessions then Some(now) else LastUse(timeout, Front(events), token)
      case TokenLogin(t, now, touched) =>
        if t == token && LoginSucceeds(before, token, now) then Some(touched)
        else LastUse(timeout, Front(events), token)
      case _ => LastUse(timeout, Front(events), token)
  }

  /** What holds of a token after every valid run. */
  ghost predicate Inv(timeout: int, events: seq<Event>, lo: int, hi: int, token: string) {
    var s := Run(timeout, events);
    var use := LastUse(timeout, events, token);
    && lo <= s.timeout <= hi
    && lo <= SweptTimeout(timeout, events) <= hi
    && s.lastSweep <= Clock(events)
    && (use.Some? ==> use.value <= Clock(events))
    && (token in s.sessions ==> use == Some(s.sessions[token])
                                && s.lastSweep - use.value < SweptTimeout(timeout, events) * SECOND)
    && (token !in s.sessions && use.Some? ==> Clock(events) - use.value >= lo * SECOND)
  }

  lemma {:induction false} RunKeepsInv(timeout: int, events: seq<Event>, lo: int, hi: int, token: string)
    requires lo > 0 && ValidRun(timeout, events, lo, hi)
    ensures Inv(timeout, events, lo, hi, token)
  {
    if events != [] {
      RunKeepsInv(timeout, Front(events), lo, hi, token);
      StepKeepsInv(timeout, events, lo, hi, token);
    }
  }

  lemma StepKeepsInv(timeout: int, events: seq<Event>, lo: int, hi: int, token: string)
    requires lo > 0 && events != [] && ValidRun(timeout, events, lo, hi)
    requires Inv(timeout, Front(events), lo, hi, token)
    ensures Inv(timeout, events, lo, hi, token)
  {
    match Last(events)
    case Query(_) =>
    case TokenLogin(_, _, _) =>
    case SetTimeout(_) =>
    case Restore(_, _) =>
  }

  lemma Extended(events: seq<Event>, e: Event)
    ensures Front(events + [e]) == events && Last(events + [e]) == e
  {
  }

  lemma {:induction false} TimerIsLastUse(timeout: int, events: seq<Event>, token: string)
    requires token in Run(timeout, events).sessions
    ensures LastUse(timeout, events, token) == Some(Run(timeout, events).sessions[token])
  {
    if token in Run(timeout, Front(events)).sessions {
      TimerIsLastUse(timeout, Front(events), token);
    }
  }

  /** Expiry: an event erases a session exactly if it sweeps and the session was idle for the whole timeout. */
  lemma ErasedIffIdle(timeout: int, events: seq<Event>, e: Event, token: string)
    requires token in Run(timeout, events).sessions
    ensures LastUse(timeout, events, token).Some?
    ensures token !in Run(timeout, events + [e]).sessions <==>
      && (e.Query? || e.TokenLogin?) && e.now - Run(timeout, events).lastSweep > 1_000_000_000
      && e.now - LastUse(timeout, events, token).value >= Run(timeout, events).timeout * 1_000_000_000
  {
    TimerIsLastUse(timeout, events, token);
    Extended(events, e);
  }

  /** The time of the last sweep: that of the last event more than a second after the one before. */
  lemma SweepsAreSpaced(timeout: int, events: seq<Event>, e: Event)
    ensures Run(timeout, events + [e]).lastSweep
         == if (e.Query? || e.TokenLogin?) && e.now - Run(timeout, events).lastSweep > 1_000_000_000
            then e.now else Run(timeout, events).lastSweep
    ensures Run(timeout, []).lastSweep == 0
  {
    Extended(events, e);
  }

  /** Only tokens of 20 characters are looked up. */
  lemma OtherSizesRefused(timeout: int, events: seq<Event>, token: string, now: int)
    requires |token| != 20
    ensures !LoginSucceeds(Run(timeout, events), token, now)
  {
  }

  /** A login returns only sessions idle for less than the timeout of the last sweep plus one second. */
  lemma LoginBound(timeout: int, events: seq<Event>, lo: int, hi: int, token: string, now: int, touched: int)
    requires lo > 0 && ValidRun(timeout, events + [TokenLogin(token, now, touched)], lo, hi)
    requires LoginSucceeds(Run(timeout, events), token, now)
    ensures LastUse(timeout, events, token).Some?
    ensures now - LastUse(timeout, events, token).value
          < SweptTimeout(timeout, events + [TokenLogin(token, now, touched)]) * SECOND + SECOND
  {
    Extended(events, TokenLogin(token, now, touched));
    RunKeepsInv(timeout, events, lo, hi, token);
  }

  /**
   Both bounds, whatever happened in between: a session used less than the smallest timeout ago is returned by a
   login, and one idle for a second more than the largest is not.
   */
  lemma LoginWindow(timeout: int, events: seq<Event>, lo: int, hi: int, token: string, now: int, touched: int)
    requires lo > 0 && ValidRun(timeout, events + [TokenLogin(token, now, touched)], lo, hi)
    requires LastUse(timeout, events, token).Some? && |token| == 20
    ensures now - LastUse(timeout, events, token).value < lo * SECOND
        ==> LoginSucceeds(Run(timeout, events), token, now)
    ensures now - LastUse(timeout, events, token).value >= (hi + 1) * SECOND
        ==> !LoginSucceeds(Run(timeout, events), token, now)
  {
    Extended(events, TokenLogin(token, now, touched));
    RunKeepsInv(timeout, events, lo, hi, token);
  }

  /** A token that was never restored is never accepted. */
  lemma UnknownTokenRefused(timeout: int, events: seq<Event>, token: string, now: int)
    requires forall e | e in events :: !(e.Restore? && e.token == token)
    ensures !LoginSucceeds(Run(timeout, events), token, now)
  {
    UsedOnlyIfRestored(timeout, events, token);
  }

  lemma {:induction false} UsedOnlyIfRestored(timeout: int, events: seq<Event>, token: string)
    requires forall e | e in events :: !(e.Restore? && e.token == token)
    ensures token !in Run(timeout, events).sessions
  {
    if events != [] {
      assert Last(events) in events;
      assert forall e | e in Front(events) :: e in events;
      UsedOnlyIfRestored(timeout, Front(events), token);
    }
  }
}
