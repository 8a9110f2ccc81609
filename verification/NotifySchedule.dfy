/** When the administrators are next told about expiring machines (backend/main.py).
    Times are microseconds in one time zone without daylight saving, counted from some midnight. */
module NotifySchedule {
  const HOUR := 60 * 60 * 1_000_000
  const DAY := 24 * HOUR

  predicate Hours(hours: seq<int>) { forall h | h in hours :: 0 <= h < 24 }

  function Moment(day: int, h: int): (t: int)
    ensures t == day * 86_400_000_000 + h * 3_600_000_000
  {
    day * DAY + h * HOUR
  }

  /** t is some day's notification moment. */
  ghost predicate Due(hours: seq<int>, t: int) { exists day, h :: h in hours && t == Moment(day, h) }

  /** wait leads from now to the first notification moment after it. */
  ghost predicate ReachesNext(now: int, hours: seq<int>, wait: int) {
    && wait > 0 && Due(hours, now + wait)
    && forall t | now < t < now + wait :: !Due(hours, t)
  }

  // ---------------------------------------------------------------------------
  // Sorting
  // ---------------------------------------------------------------------------

  predicate Sorted(s: seq<int>) { forall i, j | 0 <= i < j < |s| :: s[i] <= s[j] }

  lemma SortedCons(x: int, r: seq<int>)
    requires Sorted(r) && forall h | h in r :: x <= h
    ensures Sorted([x] + r)
  {
    assert forall k | 0 <= k < |r| :: r[k] in r;
  }

  function Insert(x: int, s: seq<int>): (r: seq<int>)
    requires Sorted(s)
    ensures Sorted(r) && forall h :: h in r <==> h == x || h in s
  {
    if s == [] then [x]
    else
      if x <= s[0] then
        SortedCons(x, s);
        [x] + s
      else
        var r := Insert(x, s[1..]);
        SortedCons(s[0], r);
        [s[0]] + r
  }

  function Sort(s: seq<int>): (r: seq<int>)
    ensures Sorted(r) && forall h :: h in r <==> h in s
  {
    if s == [] then [] else Insert(s[0], Sort(s[1..]))
  }

  // ---------------------------------------------------------------------------
  // The next moment
  // ---------------------------------------------------------------------------

  function Day(t: int): (day: int)
    ensures Moment(day, 0) <= t < Moment(day + 1, 0)
  {
    t / DAY
  }

  /** The first listed hour of the day that is still to come. */
  lemma LaterToday(now: int, day: int, sorted: seq<int>, i: nat)
    requires Sorted(sorted) && Hours(sorted) && i < |sorted|
    requires Moment(day, 0) <= now < Moment(day, sorted[i])
    requires forall j | 0 <= j < i :: Moment(day, sorted[j]) <= now
    ensures ReachesNext(now, sorted, Moment(day, sorted[i]) - now)
  {
    var next := Moment(day, sorted[i]);
    assert sorted[i] in sorted;
    forall d, h | h in sorted ensures !(now < Moment(d, h) < next) {
      var j :| 0 <= j < |sorted| && sorted[j] == h;
    }
  }

  /** Nothing more today, so tomorrow's first. */
  lemma FirstTomorrow(now: int, day: int, sorted: seq<int>)
    requires Sorted(sorted) && Hours(sorted) && sorted != []
    requires Moment(day, 0) <= now < Moment(day + 1, 0)
    requires forall j | 0 <= j < |sorted| :: Moment(day, sorted[j]) <= now
    ensures ReachesNext(now, sorted, Moment(day + 1, sorted[0]) - now)
  {
    var next := Moment(day + 1, sorted[0]);
    assert sorted[0] in sorted;
    forall d, h | h in sorted ensures !(now < Moment(d, h) < next) {
      var j :| 0 <= j < |sorted| && sorted[j] == h;
    }
  }

  /** Only which hours are listed matters. */
  lemma SameReach(now: int, a: seq<int>, b: seq<int>, wait: int)
    requires forall h :: h in a <==> h in b
    ensures ReachesNext(now, a, wait) <==> ReachesNext(now, b, wait)
  {
    assert forall t :: Due(a, t) <==> Due(b, t);
  }

  /** _next_notify_sleep_seconds, in microseconds. */
  method NextNotifySleep(now: int, hours: seq<int>) returns (wait: int)
    requires hours != [] && Hours(hours)
    ensures 0 < wait <= 86_400_000_000
    ensures ReachesNext(now, hours, wait)
    ensures exists d, h :: h in hours && now + wait == Moment(d, h)
    ensures forall d, h | h in hours :: !(now < Moment(d, h) < now + wait)
  {
    var day := Day(now);
    var sorted := Sort(hours);
    assert hours[0] in sorted;
    for i := 0 to |sorted|
      invariant forall j | 0 <= j < i :: Moment(day, sorted[j]) <= now
    {
      var candidate := Moment(day, sorted[i]);
      assert sorted[i] in sorted;
      if candidate > now {
        LaterToday(now, day, sorted, i);
        SameReach(now, sorted, hours, candidate - now);
        NextIsListed(now, hours, candidate - now);
        return candidate - now;
      }
    }
    FirstTomorrow(now, day, sorted);
    wait := Moment(day + 1, sorted[0]) - now;
    assert Moment(day, sorted[0]) <= now;
    SameReach(now, sorted, hours, wait);
    NextIsListed(now, hours, wait);
  }

  lemma NextIsListed(now: int, hours: seq<int>, wait: int)
    requires ReachesNext(now, hours, wait)
    ensures exists d, h :: h in hours && now + wait == Moment(d, h)
    ensures forall d, h | h in hours :: !(now < Moment(d, h) < now + wait)
  {
    forall d, h | h in hours ensures !(now < Moment(d, h) < now + wait) {
      assert Due(hours, Moment(d, h));
    }
  }

  /** The moment is determined, whatever the order of the list, and waking anywhere on the way
      and asking again aims at the same one. */
  lemma SameTarget(now: int, hours: seq<int>, wait: int, now': int, hours': seq<int>, wait': int)
    requires forall h :: h in hours <==> h in hours'
    requires ReachesNext(now, hours, wait) && ReachesNext(now', hours', wait')
    requires now <= now' < now + wait
    ensures now' + wait' == now + wait
  {
    SameReach(now', hours', hours, wait');
    assert !(now < now' + wait' < now + wait);
    assert !(now' < now + wait < now' + wait');
  }
}
