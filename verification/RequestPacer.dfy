/** The request pacer: a lock serialises its calls, so a run is a sequence of waits and defers against a
    monotone clock. */
module RequestPacer {
  import opened Numbers

  const GATE_INTERVAL := 3.5

  class AsyncRequestPacer {
    const interval: real
    var nextAllowedAt: real

    constructor (intervalSeconds: real)
      ensures interval == Max(0.0, intervalSeconds) && nextAllowedAt == 0.0
    {
      interval := Max(0.0, intervalSeconds);
      nextAllowedAt := 0.0;
    }

    /** Sleep until allowed. `start` is the clock when the lock was taken, `woken` the clock afterwards:
        a sleeper takes at least the delay it is asked for. */
    method Wait(start: real, woken: real) returns (delay: real)
      requires woken >= start + Max(0.0, nextAllowedAt - start)
      modifies this
      ensures delay == Max(0.0, old(nextAllowedAt) - start)
      ensures nextAllowedAt == After(State(old(nextAllowedAt), woken), Waited(start, woken), interval).nextAllowedAt
    {
      delay := Max(0.0, nextAllowedAt - start);
      nextAllowedAt := woken + interval;
    }

    method Defer(at: real, seconds: real)
      modifies this
      ensures nextAllowedAt == After(State(old(nextAllowedAt), at), Deferred(at, seconds), interval).nextAllowedAt
    {
      nextAllowedAt := Max(nextAllowedAt, at + Max(0.0, seconds));
    }
  }

  // ---- runs ----

  datatype Event = Waited(start: real, woken: real) | Deferred(at: real, seconds: real)

  datatype State = State(nextAllowedAt: real, clock: real)

  function After(s: State, e: Event, interval: real): State {
    match e
    case Waited(_, woken) => State(woken + interval, woken)
    case Deferred(at, seconds) => State(Max(s.nextAllowedAt, at + Max(0.0, seconds)), at)
  }

  /** The clock never runs backwards and sleeping takes at least the requested delay. */
  predicate Fits(s: State, e: Event) {
    match e
    case Waited(start, woken) => start >= s.clock && woken >= start + Max(0.0, s.nextAllowedAt - start)
    case Deferred(at, _) => at >= s.clock
  }

  function StateAfter(events: seq<Event>, interval: real): State {
    if events == [] then State(0.0, 0.0) else After(StateAfter(events[..|events| - 1], interval), events[|events| - 1], interval)
  }

  predicate Fitting(events: seq<Event>, interval: real) {
    events == [] || (Fitting(events[..|events| - 1], interval) && Fits(StateAfter(events[..|events| - 1], interval), events[|events| - 1]))
  }

  /** The release times, in order. */
  function Releases(events: seq<Event>): seq<real> {
    if events == [] then []
    else
      var before, last := Releases(events[..|events| - 1]), events[|events| - 1];
      if last.Waited? then before + [last.woken] else before
  }

  /** Consecutive releases are at least an interval apart. */
  ghost predicate Spaced(releases: seq<real>, interval: real) {
    forall i :: 0 < i < |releases| ==> releases[i] >= releases[i - 1] + interval
  }

  ghost predicate RunOk(events: seq<Event>, interval: real) {
    var releases := Releases(events);
    && Spaced(releases, interval)
    && (releases != [] ==> StateAfter(events, interval).nextAllowedAt >= releases[|releases| - 1] + interval)
  }

  /** Any interleaving of waits and defers keeps releases at least an interval apart. */
  lemma {:induction false} ReleasesAreSpaced(events: seq<Event>, interval: real)
    requires Fitting(events, interval)
    ensures RunOk(events, interval)
  {
    if events != [] {
      ReleasesAreSpaced(events[..|events| - 1], interval);
    }
  }

  // ---- the rolling window ----

  function CountIn(releases: seq<real>, from: real, to: real): nat {
    if releases == [] then 0
    else CountIn(releases[..|releases| - 1], from, to) + (if from <= releases[|releases| - 1] <= to then 1 else 0)
  }

  lemma NextMultiple(k: int, interval: real)
    ensures Product(k as real, interval) == Product((k - 1) as real, interval) + interval
    ensures k == 1 ==> Product((k - 1) as real, interval) == 0.0
  {
    MulAdds(interval, (k - 1) as real, 1.0);
  }

  /** With `count` releases in the window so far, the latest release is that many intervals past its start. */
  lemma {:induction false} CountedReleasesReachFar(releases: seq<real>, interval: real, from: real, to: real)
    requires Spaced(releases, interval) && interval >= 0.0 && CountIn(releases, from, to) > 0
    ensures releases[|releases| - 1] >= from + Product((CountIn(releases, from, to) - 1) as real, interval)
  {
    var n := |releases| - 1;
    var before := CountIn(releases[..n], from, to);
    if before > 0 {
      CountedReleasesReachFar(releases[..n], interval, from, to);
      assert releases[n] >= releases[n - 1] + interval;
      NextMultiple(before, interval);
    }
  }

  lemma {:induction false} CountedReleasesFit(releases: seq<real>, interval: real, from: real, to: real)
    requires Spaced(releases, interval) && interval >= 0.0 && CountIn(releases, from, to) > 0
    ensures Product((CountIn(releases, from, to) - 1) as real, interval) <= to - from
  {
    var n := |releases| - 1;
    CountedReleasesReachFar(releases, interval, from, to);
    if CountIn(releases, from, to) == CountIn(releases[..n], from, to) {
      CountedReleasesFit(releases[..n], interval, from, to);
    }
  }

  lemma FloorBounds(k: int, interval: real, width: real)
    requires interval > 0.0 && Product(k as real, interval) <= width
    ensures k <= (width / interval).Floor
  {
    var multiple := Product(k as real, interval);
    DivOrders(multiple, width, interval);
    MulDivCancels(k as real, interval);
    assert multiple / interval == k as real <= width / interval;
  }

  /** Every closed window of length W holds at most floor(W / interval) + 1 releases of any run. */
  lemma WindowHoldsFew(events: seq<Event>, interval: real, from: real, width: real)
    requires Fitting(events, interval) && interval > 0.0 && width >= 0.0
    ensures CountIn(Releases(events), from, from + width) <= (width / interval).Floor + 1
  {
    ReleasesAreSpaced(events, interval);
    var count := CountIn(Releases(events), from, from + width);
    if count > 0 {
      CountedReleasesFit(Releases(events), interval, from, from + width);
      FloorBounds(count - 1, interval, width);
    } else {
      DivIsPositive(width, interval);
    }
  }

  /** The exchange's limit: never more than three orders in ten seconds. */
  lemma GateLimitIsKept(events: seq<Event>, from: real)
    requires Fitting(events, GATE_INTERVAL)
    ensures CountIn(Releases(events), from, from + 10.0) <= 3
  {
    WindowHoldsFew(events, GATE_INTERVAL, from, 10.0);
    assert (10.0 / GATE_INTERVAL).Floor == 2;
  }

  lemma OneMoreWait(events: seq<Event>, start: real, woken: real, interval: real, from: real, to: real)
    requires Fitting(events, interval) && Fits(StateAfter(events, interval), Waited(start, woken))
    ensures Fitting(events + [Waited(start, woken)], interval)
    ensures StateAfter(events + [Waited(start, woken)], interval) == State(woken + interval, woken)
    ensures CountIn(Releases(events + [Waited(start, woken)]), from, to) == CountIn(Releases(events), from, to) + (if from <= woken <= to then 1 else 0)
  {
    assert (events + [Waited(start, woken)])[..|events|] == events;
    assert (Releases(events) + [woken])[..|Releases(events)|] == Releases(events);
  }

  /** The bound is tight: back-to-back waits release three times within ten seconds. */
  lemma ThreeFitTheWindow()
    ensures var events := [] + [Waited(0.0, 0.0)] + [Waited(0.0, 3.5)] + [Waited(3.5, 7.0)];
            Fitting(events, GATE_INTERVAL) && CountIn(Releases(events), 0.0, 10.0) == 3
  {
    OneMoreWait([], 0.0, 0.0, GATE_INTERVAL, 0.0, 10.0);
    OneMoreWait([] + [Waited(0.0, 0.0)], 0.0, 3.5, GATE_INTERVAL, 0.0, 10.0);
    OneMoreWait([] + [Waited(0.0, 0.0)] + [Waited(0.0, 3.5)], 3.5, 7.0, GATE_INTERVAL, 0.0, 10.0);
  }

  // ---- cooldowns ----

  lemma {:induction false} AllowedNeverRecedes(events: seq<Event>, n: nat, interval: real)
    requires Fitting(events, interval) && interval >= 0.0 && n <= |events|
    ensures StateAfter(events, interval).nextAllowedAt >= StateAfter(events[..n], interval).nextAllowedAt
  {
    if n == |events| {
      assert events[..n] == events;
    } else {
      assert events[..|events| - 1][..n] == events[..n];
      AllowedNeverRecedes(events[..|events| - 1], n, interval);
    }
  }

  lemma {:induction false} PrefixFits(events: seq<Event>, n: nat, interval: real)
    requires Fitting(events, interval) && n <= |events|
    ensures Fitting(events[..n], interval)
    ensures n < |events| ==> Fits(StateAfter(events[..n], interval), events[n])
  {
    if n == |events| {
      assert events[..n] == events;
    } else {
      assert events[..|events| - 1][..n] == events[..n];
      PrefixFits(events[..|events| - 1], n, interval);
    }
  }

  /** No release after a completed defer comes before that defer's time plus its cooldown. */
  lemma CooldownIsHonoured(events: seq<Event>, i: nat, j: nat, interval: real)
    requires Fitting(events, interval) && interval >= 0.0 && i < j < |events| && events[i].Deferred? && events[j].Waited?
    ensures events[j].woken >= events[i].at + events[i].seconds
  {
    PrefixFits(events, i + 1, interval);
    PrefixFits(events, j, interval);
    assert events[..i + 1][..i] == events[..i];
    assert events[..j][..i + 1] == events[..i + 1];
    AllowedNeverRecedes(events[..j], i + 1, interval);
  }
}
