/** The hourly upload limit: each caller's recent admitted attempts are kept in a list that is
    pruned on every attempt. Times are nanoseconds. A call reads the clock before it takes the lock,
    so attempts are recorded in any order of their times. */
module RateLimit {
  const HOUR: int := 3600 * 1_000_000_000

  datatype Attempt = Attempt(caller: string, at: int, admitted: bool)

  function After(times: seq<int>, cut: int): seq<int> {
    if times == [] then []
    else
      var prev, t := After(times[..|times| - 1], cut), times[|times| - 1];
      if t > cut then prev + [t] else prev
  }

  // A caller's list after a history of attempts, in the order they took the lock.
  function Kept(log: seq<Attempt>, caller: string): seq<int> {
    if log == [] then []
    else
      var before, a := Kept(log[..|log| - 1], caller), log[|log| - 1];
      if a.caller != caller then before
      else if a.admitted then After(before, a.at - HOUR) + [a.at]
      else After(before, a.at - HOUR)
  }

  function Later(s: int, t: int): int { if s < t then t else s }

  // The reference, over the full history: the admitted attempts of the caller that lie less than an
  // hour before every attempt of the caller since, and after the cut.
  function Recent(log: seq<Attempt>, caller: string, cut: int): seq<int> {
    if log == [] then []
    else
      var before, a := log[..|log| - 1], log[|log| - 1];
      if a.caller != caller then Recent(before, caller, cut)
      else if a.admitted && a.at > cut then Recent(before, caller, Later(cut, a.at - HOUR)) + [a.at]
      else Recent(before, caller, Later(cut, a.at - HOUR))
  }

  // An attempt is admitted exactly when fewer than limit recent ones are on record.
  ghost predicate Governed(log: seq<Attempt>, limit: int) {
    log == [] ||
    var before, a := log[..|log| - 1], log[|log| - 1];
    && Governed(before, limit)
    && (a.admitted <==> |Recent(before, a.caller, a.at - HOUR)| < limit)
  }

  // The times of a caller's admitted attempts after a cut.
  function Admitted(log: seq<Attempt>, caller: string, since: int): seq<int> {
    if log == [] then []
    else
      var prev, a := Admitted(log[..|log| - 1], caller, since), log[|log| - 1];
      if a.caller == caller && a.admitted && since < a.at then prev + [a.at] else prev
  }

  // How many of them lie in a window (since, until].
  function InWindow(log: seq<Attempt>, caller: string, since: int, until: int): nat {
    if log == [] then 0
    else
      var a := log[|log| - 1];
      InWindow(log[..|log| - 1], caller, since, until) +
      if a.caller == caller && a.admitted && since < a.at <= until then 1 else 0
  }

  class Service {
    var hits: map<string, seq<int>>
    // The attempts under a limit, in the order they took the lock.
    ghost var log: seq<Attempt>

    ghost predicate Valid()
      reads this
    {
      forall c :: (if c in hits then hits[c] else []) == Kept(log, c)
    }

    constructor ()
      ensures Valid() && log == []
    {
      hits, log := map[], [];
    }

    // Record one attempt and tell whether it is within the limit; no limit admits without a
    // record.
    method Allow(caller: string, limit: int, now: int) returns (ok: bool)
      requires Valid()
      modifies this
      ensures Valid()
      ensures limit <= 0 ==> ok && log == old(log) && hits == old(hits)
      ensures limit > 0 ==>
        && (ok <==> |Recent(old(log), caller, now - HOUR)| < limit)
        && log == old(log) + [Attempt(caller, now, ok)]
      ensures limit > 0 && Governed(old(log), limit) ==> Governed(log, limit)
    {
      hide Recent, Governed, After, Kept;
      if limit <= 0 {
        return true;
      }
      var cut := now - HOUR;
      var kept := Prune(if caller in hits then hits[caller] else [], cut);
      KeptIsRecent(log, caller, cut);
      ok := |kept| < limit;
      GovernedStep(log, caller, now, ok, limit);
      KeptStep(log, Attempt(caller, now, ok));
      hits := hits[caller := if ok then kept + [now] else kept];
      log := log + [Attempt(caller, now, ok)];
    }

    // Keep the times after the cut, in order.
    static method Prune(times: seq<int>, cut: int) returns (kept: seq<int>)
      ensures kept == After(times, cut)
    {
      kept := [];
      for k := 0 to |times|
        invariant kept == After(times[..k], cut)
      {
        assert times[..k + 1][..k] == times[..k];
        if times[k] > cut {
          kept := kept + [times[k]];
        }
      }
      assert times[..|times|] == times;
    }
  }

  lemma KeptStep(before: seq<Attempt>, a: Attempt)
    ensures forall c :: c != a.caller ==> Kept(before + [a], c) == Kept(before, c)
    ensures var kept := After(Kept(before, a.caller), a.at - HOUR);
      Kept(before + [a], a.caller) == if a.admitted then kept + [a.at] else kept
  {
    assert (before + [a])[..|before|] == before;
  }

  lemma {:induction false} AfterTwice(times: seq<int>, first: int, cut: int)
    ensures After(After(times, first), cut) == After(times, Later(cut, first))
  {
    if times != [] {
      var front, t := times[..|times| - 1], times[|times| - 1];
      AfterTwice(front, first, cut);
      assert (After(front, first) + [t])[..|After(front, first)|] == After(front, first);
    }
  }

  lemma AfterSnoc(times: seq<int>, t: int, cut: int)
    ensures After(times + [t], cut) == if t > cut then After(times, cut) + [t] else After(times, cut)
  {
    assert (times + [t])[..|times|] == times;
  }

  /** The list, pruned again, is what the reference finds in the full history. */
  lemma {:induction false} KeptIsRecent(log: seq<Attempt>, caller: string, cut: int)
    ensures After(Kept(log, caller), cut) == Recent(log, caller, cut)
  {
    if log != [] {
      var before, a := log[..|log| - 1], log[|log| - 1];
      if a.caller != caller {
        KeptIsRecent(before, caller, cut);
      } else {
        KeptIsRecent(before, caller, Later(cut, a.at - HOUR));
        AfterTwice(Kept(before, caller), a.at - HOUR, cut);
        AfterSnoc(After(Kept(before, caller), a.at - HOUR), a.at, cut);
      }
    }
  }

  lemma GovernedStep(before: seq<Attempt>, caller: string, now: int, ok: bool, limit: int)
    requires ok <==> |Recent(before, caller, now - HOUR)| < limit
    ensures Governed(before, limit) ==> Governed(before + [Attempt(caller, now, ok)], limit)
  {
    assert (before + [Attempt(caller, now, ok)])[..|before|] == before;
  }

  // A caller's attempts are recorded at most so much out of order.
  ghost predicate Ordered(log: seq<Attempt>, caller: string, skew: int) {
    forall i, j :: 0 <= i < j < |log| && log[i].caller == caller && log[j].caller == caller ==>
      log[i].at <= log[j].at + skew
  }

  ghost predicate Until(log: seq<Attempt>, caller: string, end: int) {
    forall i :: 0 <= i < |log| && log[i].caller == caller ==> log[i].at <= end
  }

  /** In order, the reference is the plain rule: the caller's admitted attempts of the last hour. */
  lemma {:induction false} InOrderRecentIsAdmitted(log: seq<Attempt>, caller: string, cut: int)
    requires Until(log, caller, cut + HOUR)
    ensures Recent(log, caller, cut) == Admitted(log, caller, cut)
  {
    if log != [] {
      InOrderRecentIsAdmitted(log[..|log| - 1], caller, cut);
    }
  }

  lemma {:induction false} WindowInside(log: seq<Attempt>, caller: string, since: int, until: int, cut: int)
    requires cut <= since && Until(log, caller, since + HOUR)
    ensures InWindow(log, caller, since, until) <= |Recent(log, caller, cut)|
  {
    if log != [] {
      var before, a := log[..|log| - 1], log[|log| - 1];
      WindowInside(before, caller, since, until, if a.caller == caller then Later(cut, a.at - HOUR) else cut);
    }
  }

  /** Under one limit, with a caller's attempts recorded at most skew out of order, no window of an hour
      less the skew, wherever it ends, holds more admitted attempts than the limit. In order that is
      every window of an hour. */
  lemma {:induction false} NoWindowOverLimit(log: seq<Attempt>, limit: int, caller: string, skew: nat, end: int)
    requires limit > 0 && Governed(log, limit) && Ordered(log, caller, skew)
    ensures InWindow(log, caller, end - (HOUR - skew), end) <= limit
  {
    if log != [] {
      var before, a := log[..|log| - 1], log[|log| - 1];
      assert Ordered(before, caller, skew);
      NoWindowOverLimit(before, limit, caller, skew, end);
      if a.caller == caller && a.admitted && end - (HOUR - skew) < a.at <= end {
        assert Until(before, caller, end + skew);
        WindowInside(before, caller, end - (HOUR - skew), end, a.at - HOUR);
      }
    }
  }

  // With a limit of one, whoever is admitted in the window stays in the way of everyone before its end.
  lemma {:induction false} OneBlocks(log: seq<Attempt>, caller: string, end: int, cut: int)
    requires Governed(log, 1) && cut <= end - HOUR && InWindow(log, caller, end - HOUR, end) > 0
    ensures Recent(log, caller, cut) != []
  {
    var before, a := log[..|log| - 1], log[|log| - 1];
    if a.caller != caller || (a.admitted && a.at <= cut) || (!a.admitted && a.at - HOUR < cut) {
      OneBlocks(before, caller, end, cut);
    }
  }

  /** With a limit of one no window of an hour holds two admitted attempts, however far out of order they
      are recorded. */
  lemma {:induction false} OneHoldsTheHour(log: seq<Attempt>, caller: string, end: int)
    requires Governed(log, 1)
    ensures InWindow(log, caller, end - HOUR, end) <= 1
  {
    if log != [] {
      var before, a := log[..|log| - 1], log[|log| - 1];
      OneHoldsTheHour(before, caller, end);
      if a.caller == caller && a.admitted && a.at <= end && InWindow(before, caller, end - HOUR, end) > 0 {
        OneBlocks(before, caller, end, a.at - HOUR);
      }
    }
  }

  lemma {:induction false} WindowNarrows(log: seq<Attempt>, caller: string, since: int, later: int, until: int)
    requires since <= later
    ensures InWindow(log, caller, later, until) <= InWindow(log, caller, since, until)
    ensures later >= until ==> InWindow(log, caller, later, until) == 0
  {
    if log != [] {
      WindowNarrows(log[..|log| - 1], caller, since, later, until);
    }
  }

  lemma RecentSnoc(log: seq<Attempt>, a: Attempt, cut: int)
    ensures var before := Recent(log, a.caller, Later(cut, a.at - HOUR));
      Recent(log + [a], a.caller, cut) == if a.admitted && a.at > cut then before + [a.at] else before
  {
    assert (log + [a])[..|log|] == log;
  }

  lemma HistorySnoc(log: seq<Attempt>, a: Attempt, limit: int, since: int, until: int)
    ensures Governed(log + [a], limit) <==>
      Governed(log, limit) && (a.admitted <==> |Recent(log, a.caller, a.at - HOUR)| < limit)
    ensures InWindow(log + [a], a.caller, since, until) ==
      InWindow(log, a.caller, since, until) + if a.admitted && since < a.at <= until then 1 else 0
  {
    assert (log + [a])[..|log|] == log;
  }

  // As many attempts at one time as the limit admits.
  function Crowd(caller: string, at: int, n: nat): (log: seq<Attempt>)
    ensures |log| == n && forall i :: 0 <= i < n ==> log[i] == Attempt(caller, at, true)
  {
    if n == 0 then [] else Crowd(caller, at, n - 1) + [Attempt(caller, at, true)]
  }

  lemma {:induction false} CrowdIsGoverned(caller: string, at: int, n: nat, limit: int, since: int, until: int)
    requires n <= limit
    ensures var log := Crowd(caller, at, n);
      && Governed(log, limit) && Recent(log, caller, at) == [] && |Recent(log, caller, at - HOUR)| == n
      && InWindow(log, caller, since, until) == if since < at <= until then n else 0
  {
    hide Recent, Governed, InWindow;
    if n == 0 {
      NothingRecent(caller);
    } else {
      var a := Attempt(caller, at, true);
      CrowdIsGoverned(caller, at, n - 1, limit, since, until);
      RecentSnoc(Crowd(caller, at, n - 1), a, at);
      RecentSnoc(Crowd(caller, at, n - 1), a, at - HOUR);
      HistorySnoc(Crowd(caller, at, n - 1), a, limit, since, until);
    }
  }

  // The limit filled at one time, and one more attempt an hour later.
  function HourApart(caller: string, at: int, limit: nat): seq<Attempt> {
    Crowd(caller, at, limit) + [Attempt(caller, at + HOUR, true)]
  }

  lemma HourApartIsGoverned(caller: string, at: int, limit: nat, since: int, until: int)
    requires limit > 0 && since < at <= until
    ensures var log := HourApart(caller, at, limit);
      && Governed(log, limit) && Ordered(log, caller, 0)
      && InWindow(log, caller, since, until) == limit + if at + HOUR <= until then 1 else 0
  {
    hide Recent, Governed, InWindow;
    CrowdIsGoverned(caller, at, limit, limit, since, until);
    HistorySnoc(Crowd(caller, at, limit), Attempt(caller, at + HOUR, true), limit, since, until);
  }

  // And one that read its clock before the last but came after it.
  function LateHistory(caller: string, at: int, limit: nat, skew: int): seq<Attempt> {
    HourApart(caller, at, limit) + [Attempt(caller, at + HOUR - skew, true)]
  }

  /** For every limit above one and every disorder there is a history, governed by the limit and no more
      out of order, that exceeds the limit in every window longer than the hour less the disorder. */
  lemma LateArrivalsExceedTheHour(caller: string, at: int, limit: nat, skew: nat, width: nat)
    requires limit > 1 && skew <= HOUR && HOUR - skew < width
    ensures var log, end := LateHistory(caller, at, limit, skew), at + HOUR - skew;
      && Governed(log, limit) && Ordered(log, caller, skew)
      && InWindow(log, caller, end - width, end) > limit
  {
    hide Recent, Governed, InWindow;
    var end := at + HOUR - skew;
    var third, late := Attempt(caller, at + HOUR, true), Attempt(caller, at + HOUR - skew, true);
    HourApartIsGoverned(caller, at, limit, end - width, end);
    CrowdIsGoverned(caller, at, limit, limit, end - width, end);
    RecentSnoc(Crowd(caller, at, limit), third, at - skew);
    HistorySnoc(HourApart(caller, at, limit), late, limit, end - width, end);
  }

  // A history under the limit, no more than skew out of order, keeps a window within the limit.
  ghost predicate Holds(log: seq<Attempt>, limit: int, caller: string, skew: nat, width: nat, end: int) {
    Governed(log, limit) && Ordered(log, caller, skew) ==> InWindow(log, caller, end - width, end) <= limit
  }

  // The longest window that holds.
  function Longest(limit: int, skew: nat): nat {
    if limit == 1 then HOUR else if skew < HOUR then HOUR - skew else 0
  }

  /** Every history keeps every window of a length within the limit exactly when the length is at most an
      hour less the disorder, or an hour when the limit is one: the promised hour holds exactly when
      nothing is recorded out of order or the limit is one. */
  lemma WindowHoldsExactly(limit: int, skew: nat, width: nat)
    requires limit > 0
    ensures (forall log, caller, end :: Holds(log, limit, caller, skew, width, end)) <==> width <= Longest(limit, skew)
    ensures Longest(limit, skew) == HOUR <==> skew == 0 || limit == 1
  {
    if width <= Longest(limit, skew) {
      forall log, caller, end
        ensures Holds(log, limit, caller, skew, width, end)
      {
        WindowHolds(log, limit, caller, skew, width, end);
      }
    } else {
      var log, end := WindowFails(limit, skew, width);
      assert !Holds(log, limit, "", skew, width, end);
    }
  }

  lemma WindowHolds(log: seq<Attempt>, limit: int, caller: string, skew: nat, width: nat, end: int)
    requires limit > 0 && width <= Longest(limit, skew)
    ensures Holds(log, limit, caller, skew, width, end)
  {
    hide Governed, Ordered, InWindow;
    if Governed(log, limit) && Ordered(log, caller, skew) {
      WindowNarrows(log, caller, end - Longest(limit, skew), end - width, end);
      if limit == 1 {
        OneHoldsTheHour(log, caller, end);
      } else {
        NoWindowOverLimit(log, limit, caller, skew, end);
      }
    }
  }

  lemma WindowFails(limit: int, skew: nat, width: nat) returns (log: seq<Attempt>, end: int)
    requires limit > 0 && width > Longest(limit, skew)
    ensures !Holds(log, limit, "", skew, width, end)
  {
    hide Governed, InWindow;
    if limit == 1 {
      log, end := HourApart("", 0, 1), HOUR;
      HourApartIsGoverned("", 0, 1, HOUR - width, HOUR);
    } else {
      var late := if skew < HOUR then skew else HOUR;
      log, end := LateHistory("", 0, limit, late), HOUR - late;
      LateArrivalsExceedTheHour("", 0, limit, late, width);
    }
  }

  lemma NothingRecent(caller: string)
    ensures forall cut :: Recent([], caller, cut) == []
    ensures forall limit :: Governed([], limit)
    ensures forall since, until :: InWindow([], caller, since, until) == 0
  {
  }
}
