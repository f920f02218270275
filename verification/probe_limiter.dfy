/** The per-source limiter of discovery probes, with its pruning of idle sources. */
module ProbeLimiter {
  import opened Types
  import opened Collections

  type Source = int

  /** Times are monotonic-clock readings in nanoseconds. */
  const WINDOW: nat := 10_000_000_000
  const PRUNE_AGE: nat := 60_000_000_000
  const PRUNE_ABOVE := 512
  const MAX_ATTEMPTS := 4

  datatype ProbeRate = ProbeRate(windowStarted: nat, attempts: nat)

  type Rates = map<Source, ProbeRate>

  /** `Instant::duration_since`, which saturates at zero. */
  function Since(now: nat, earlier: nat): nat {
    if now >= earlier then now - earlier else 0
  }

  function Prune(rates: Rates, now: nat): Rates {
    if |rates| > PRUNE_ABOVE
    then map source | source in rates && Since(now, rates[source].windowStarted) < PRUNE_AGE :: rates[source]
    else rates
  }

  /** The window an attempt falls into, before it is counted. */
  function CurrentRate(rates: Rates, source: Source, now: nat): ProbeRate {
    if source in rates && Since(now, rates[source].windowStarted) < WINDOW then rates[source] else ProbeRate(now, 0)
  }

  predicate Admits(rates: Rates, source: Source, now: nat) {
    CurrentRate(rates, source, now).attempts < MAX_ATTEMPTS
  }

  function Counted(rates: Rates, source: Source, now: nat): Rates {
    var rate := CurrentRate(rates, source, now);
    rates[source := if rate.attempts < MAX_ATTEMPTS then rate.(attempts := rate.attempts + 1) else rate]
  }

  class Limiter {
    var rates: Rates

    constructor ()
      ensures rates == map[]
    {
      rates := map[];
    }

    method Admit(source: Source, now: nat) returns (admitted: bool)
      modifies this
      ensures admitted == Admits(Prune(old(rates), now), source, now)
      ensures rates == Counted(Prune(old(rates), now), source, now)
    {
      if |rates| > PRUNE_ABOVE {
        rates := map s | s in rates && Since(now, rates[s].windowStarted) < PRUNE_AGE :: rates[s];
      }
      if source !in rates {
        rates := rates[source := ProbeRate(now, 0)];
      }
      if Since(now, rates[source].windowStarted) >= WINDOW {
        rates := rates[source := ProbeRate(now, 0)];
      }
      if rates[source].attempts >= MAX_ATTEMPTS {
        return false;
      }
      rates := rates[source := rates[source].(attempts := rates[source].attempts + 1)];
      return true;
    }
  }

  datatype Probe = Probe(source: Source, now: nat)

  /** The table after a run of probes, with or without pruning. */
  function After(probes: seq<Probe>, pruning: bool): Rates {
    if probes == [] then map[]
    else
      var rates, probe := After(Before(probes), pruning), Last(probes);
      Counted(if pruning then Prune(rates, probe.now) else rates, probe.source, probe.now)
  }

  /** Whether the last probe of a run is admitted. */
  predicate LastAdmitted(probes: seq<Probe>, pruning: bool)
    requires probes != []
  {
    var rates, probe := After(Before(probes), pruning), Last(probes);
    Admits(if pruning then Prune(rates, probe.now) else rates, probe.source, probe.now)
  }

  // ---- Pruning is invisible ----

  /** Probes read the clock before they queue for the table, so later ones may carry
      somewhat earlier readings: at most 50 s earlier. */
  ghost predicate BoundedSkew(probes: seq<Probe>) {
    forall i, j :: 0 <= i < j < |probes| ==> probes[i].now <= probes[j].now + 50_000_000_000
  }

  /** The pruned table is the full one without sources idle since before `horizon`. */
  ghost predicate PrunedOf(pruned: Rates, full: Rates, horizon: nat) {
    && (forall s :: s in pruned ==> s in full && pruned[s] == full[s])
    && (forall s :: s in full && s !in pruned ==> full[s].windowStarted + PRUNE_AGE <= horizon)
  }

  ghost predicate Bounds(horizon: nat, probes: seq<Probe>) {
    forall i :: 0 <= i < |probes| ==> probes[i].now <= horizon
  }

  lemma PrunedStep(pruned: Rates, full: Rates, horizon: nat, source: Source, now: nat)
    requires PrunedOf(pruned, full, horizon) && horizon <= now + (PRUNE_AGE - WINDOW)
    ensures var next := if now <= horizon then horizon else now;
            PrunedOf(Counted(Prune(pruned, now), source, now), Counted(full, source, now), next)
    ensures Admits(Prune(pruned, now), source, now) == Admits(full, source, now)
  {
    assert CurrentRate(Prune(pruned, now), source, now) == CurrentRate(full, source, now);
  }

  lemma {:induction false} PruningStaysRelated(probes: seq<Probe>) returns (horizon: nat)
    requires BoundedSkew(probes)
    ensures PrunedOf(After(probes, true), After(probes, false), horizon)
    ensures probes != [] ==> Bounds(horizon, probes) && (exists i :: 0 <= i < |probes| && probes[i].now == horizon)
    ensures probes == [] ==> horizon == 0
    ensures probes != [] ==> LastAdmitted(probes, true) == LastAdmitted(probes, false)
  {
    if probes == [] {
      horizon := 0;
    } else {
      var prefix, probe := Before(probes), Last(probes);
      var earlier := PruningStaysRelated(prefix);
      if prefix != [] {
        var i :| 0 <= i < |prefix| && prefix[i].now == earlier;
        assert probes[i].now == earlier && probes[|probes| - 1] == probe;
      }
      PrunedStep(After(prefix, true), After(prefix, false), earlier, probe.source, probe.now);
      horizon := if probe.now <= earlier then earlier else probe.now;
      assert forall i :: 0 <= i < |prefix| ==> probes[i] == prefix[i];
      assert probes[|probes| - 1].now == probe.now;
    }
  }

  /** Pruning is invisible: the limiter that forgets idle sources above 512 entries
      decides every probe like one that never forgets, even when clock readings run
      up to 50 s backwards. */
  lemma {:induction false} PruningIsInvisible(probes: seq<Probe>)
    requires BoundedSkew(probes)
    ensures forall n :: 0 < n <= |probes| ==> LastAdmitted(probes[..n], true) == LastAdmitted(probes[..n], false)
  {
    forall n | 0 < n <= |probes| ensures LastAdmitted(probes[..n], true) == LastAdmitted(probes[..n], false) {
      var _ := PruningStaysRelated(probes[..n]);
    }
  }

  /** Pruning bounds the table: after any run it has at most 513 sources, or only sources
      whose window started less than 60 s before the latest probe. */
  lemma {:induction false} TableStaysSmall(probes: seq<Probe>)
    requires probes != []
    ensures var rates, now := After(probes, true), Last(probes).now;
            |rates| <= 513 || forall s :: s in rates ==> now < rates[s].windowStarted + 60_000_000_000
  {
    var earlier, probe := After(Before(probes), true), Last(probes);
    var pruned := Prune(earlier, probe.now);
    var counted := Counted(pruned, probe.source, probe.now);
    assert counted.Keys == pruned.Keys + {probe.source};
    assert |counted| <= |pruned| + 1;
  }

  // ---- How many probes get through ----

  ghost predicate Nondecreasing(probes: seq<Probe>) {
    forall i, j :: 0 <= i < j < |probes| ==> probes[i].now <= probes[j].now
  }

  /** Admitted probes from `source` at times in [from, to). */
  function AdmittedBetween(probes: seq<Probe>, pruning: bool, source: Source, from: nat, to: nat): nat {
    if probes == [] then 0
    else
      AdmittedBetween(Before(probes), pruning, source, from, to)
      + (if Last(probes).source == source && from <= Last(probes).now < to && LastAdmitted(probes, pruning)
         then 1 else 0)
  }

  lemma {:induction false} SameCount(probes: seq<Probe>, source: Source, from: nat, to: nat)
    requires BoundedSkew(probes)
    ensures AdmittedBetween(probes, true, source, from, to) == AdmittedBetween(probes, false, source, from, to)
  {
    if probes != [] {
      SameCount(Before(probes), source, from, to);
      var _ := PruningStaysRelated(probes);
    }
  }

  /** The count so far, against the start and fill of the source's current window. */
  ghost predicate CountBound(count: nat, rates: Rates, source: Source, from: nat) {
    if source !in rates then count == 0
    else
      var start, fill := rates[source].windowStarted, rates[source].attempts;
      && 1 <= fill <= MAX_ATTEMPTS
      && (if start + WINDOW <= from then count == 0
          else if start < from then count <= fill - 1
          else if start == from then count <= fill
          else if start < from + WINDOW then count <= 3 + fill
          else count <= 7)
  }

  lemma {:induction false} CountStaysBounded(probes: seq<Probe>, source: Source, from: nat)
    requires Nondecreasing(probes)
    ensures CountBound(AdmittedBetween(probes, false, source, from, from + WINDOW), After(probes, false), source, from)
    ensures source in After(probes, false) ==>
              probes != [] && After(probes, false)[source].windowStarted <= Last(probes).now
  {
    if probes != [] {
      var prefix := Before(probes);
      assert forall i :: 0 <= i < |prefix| ==> prefix[i] == probes[i];
      CountStaysBounded(prefix, source, from);
      assert prefix != [] ==> Last(prefix).now <= Last(probes).now;
    }
  }

  /** At most seven probes of one source are admitted in any half-open 10 s interval:
      the first probe of a window sits at its start, so an interval that reaches into
      the next window misses it. */
  lemma {:induction false} AtMostSevenPerInterval(probes: seq<Probe>, source: Source, from: nat)
    requires Nondecreasing(probes)
    ensures AdmittedBetween(probes, true, source, from, from + 10_000_000_000) <= 7
  {
    CountStaysBounded(probes, source, from);
    SameCount(probes, source, from, from + WINDOW);
  }

  /** At most four are admitted in the source's own window: its counter is the number
      admitted since the window started. */
  lemma {:induction false} CounterIsWindowCount(probes: seq<Probe>, source: Source)
    requires Nondecreasing(probes) && source in After(probes, false)
    ensures var rate := After(probes, false)[source];
            && rate.attempts
               == AdmittedBetween(probes, false, source, rate.windowStarted, rate.windowStarted + 10_000_000_000)
            && rate.attempts <= 4
  {
    var prefix, probe := Before(probes), Last(probes);
    assert forall i :: 0 <= i < |prefix| ==> prefix[i] == probes[i];
    if source in After(prefix, false) {
      CounterIsWindowCount(prefix, source);
    }
    CountStaysBounded(prefix, source, probe.now);
  }

  /** The start of a source's window, by the times of its probes alone: a probe starts a window
      unless the last one started less than 10 s before. */
  function WindowOf(probes: seq<Probe>, source: Source): Option<nat> {
    if probes == [] then None
    else
      var earlier, probe := WindowOf(Before(probes), source), Last(probes);
      if probe.source == source && (earlier.None? || probe.now >= earlier.value + 10_000_000_000)
      then Some(probe.now) else earlier
  }

  lemma {:induction false} WindowIsHistory(probes: seq<Probe>, source: Source)
    requires Nondecreasing(probes)
    ensures var rates := After(probes, false);
            WindowOf(probes, source) == if source in rates then Some(rates[source].windowStarted) else None
  {
    if probes != [] {
      var prefix := Before(probes);
      assert forall i :: 0 <= i < |prefix| ==> prefix[i] == probes[i];
      WindowIsHistory(prefix, source);
      CountStaysBounded(prefix, source, 0);
      assert prefix != [] ==> Last(prefix).now <= Last(probes).now;
    }
  }

  /** Admission, exactly: a probe gets through if and only if its source has no window less
      than 10 s old, or fewer than four probes got through in that window. */
  lemma {:induction false} AdmittedExactly(probes: seq<Probe>)
    requires probes != [] && Nondecreasing(probes)
    ensures var window, probe := WindowOf(Before(probes), Last(probes).source), Last(probes);
            LastAdmitted(probes, true) <==>
              || window.None?
              || probe.now >= window.value + 10_000_000_000
              || AdmittedBetween(Before(probes), true, probe.source, window.value, window.value + 10_000_000_000) < 4
  {
    var prefix, probe := Before(probes), Last(probes);
    assert forall i :: 0 <= i < |prefix| ==> prefix[i] == probes[i];
    WindowIsHistory(prefix, probe.source);
    var _ := PruningStaysRelated(probes);
    CountStaysBounded(prefix, probe.source, 0);
    assert prefix != [] ==> Last(prefix).now <= probe.now;
    if probe.source in After(prefix, false) {
      CounterIsWindowCount(prefix, probe.source);
      var start := After(prefix, false)[probe.source].windowStarted;
      SameCount(prefix, probe.source, start, start + 10_000_000_000);
    }
  }

  /** One more probe of source 0 within its interval of interest. */
  lemma OneMore(probes: seq<Probe>, rate: ProbeRate, now: nat, from: nat, to: nat)
    requires After(probes, false) == map[0 := rate] && rate.windowStarted <= now
    ensures var rates := map[0 := rate];
            var next := probes + [Probe(0, now)];
            && After(next, false) == map[0 := Counted(rates, 0, now)[0]]
            && AdmittedBetween(next, false, 0, from, to)
               == AdmittedBetween(probes, false, 0, from, to)
                  + (if from <= now < to && Admits(rates, 0, now) then 1 else 0)
  {
    assert Before(probes + [Probe(0, now)]) == probes;
  }

  /** Fills a window that already counts one probe with three more at one time. */
  lemma FillWindow(probes: seq<Probe>, start: nat, now: nat, from: nat, to: nat) returns (more: seq<Probe>)
    requires After(probes, false) == map[0 := ProbeRate(start, 1)] && start <= now < start + WINDOW && from <= now < to
    requires Nondecreasing(probes) && probes != [] && Last(probes).now <= now
    ensures After(more, false) == map[0 := ProbeRate(start, 4)]
    ensures AdmittedBetween(more, false, 0, from, to) == AdmittedBetween(probes, false, 0, from, to) + 3
    ensures Nondecreasing(more) && more != [] && Last(more).now == now
  {
    OneMore(probes, ProbeRate(start, 1), now, from, to);
    more := probes + [Probe(0, now)];
    OneMore(more, ProbeRate(start, 2), now, from, to);
    more := more + [Probe(0, now)];
    OneMore(more, ProbeRate(start, 3), now, from, to);
    more := more + [Probe(0, now)];
  }

  /** Seven is attained: three probes just before a window ends and four at the next. */
  lemma SevenIsAttained() returns (probes: seq<Probe>)
    ensures Nondecreasing(probes)
    ensures AdmittedBetween(probes, false, 0, 9_999_999_999, 19_999_999_999) == 7
  {
    var from, to := WINDOW - 1, 2 * WINDOW - 1;
    probes := [Probe(0, 0)];
    assert Before(probes) == [];
    assert After(probes, false) == map[0 := ProbeRate(0, 1)];
    probes := FillWindow(probes, 0, WINDOW - 1, from, to);
    OneMore(probes, ProbeRate(0, 4), WINDOW, from, to);
    probes := probes + [Probe(0, WINDOW)];
    probes := FillWindow(probes, WINDOW, WINDOW, from, to);
  }
}
