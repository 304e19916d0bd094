/** The one-minute counting window that both the error handler and the
    request limiter keep: a count per key and the time the window ends. A
    call after the end clears every count and opens a new window a minute
    long; every call then adds one to its own key. */
module WindowCounter {

  /** The length of a window, in milliseconds. */
  const WindowMs: int := 60000

  /** The counts per key and the end of the current window. */
  datatype CounterState = CounterState(counts: map<string, nat>, resetTime: int)

  /** `counts.get(key) || 0`. */
  function CountOf(counts: map<string, nat>, key: string): nat {
    if key in counts then counts[key] else 0
  }

  /** The state as a call at `now` finds it once a passed window is renewed. */
  function Renewed(s: CounterState, now: int): (r: CounterState)
    ensures now > s.resetTime ==> r.counts == map[] && r.resetTime == now + WindowMs
    ensures now <= s.resetTime ==> r == s
  {
    if now > s.resetTime then CounterState(map[], now + WindowMs) else s
  }

  /** The state after one call for `key` at `now`. */
  function Counted(s: CounterState, key: string, now: int): CounterState {
    var w := Renewed(s, now);
    w.(counts := w.counts[key := CountOf(w.counts, key) + 1])
  }

  /** One call raises its own key's count by one, from zero when the window
      was renewed, leaves every other key's count as it was (or zero after a
      renewal), and leaves a window that is still open at `now`. */
  lemma CountedCounts(s: CounterState, key: string, now: int, other: string)
    requires other != key
    ensures CountOf(Counted(s, key, now).counts, key)
            == (if now > s.resetTime then 0 else CountOf(s.counts, key)) + 1
    ensures CountOf(Counted(s, key, now).counts, other)
            == (if now > s.resetTime then 0 else CountOf(s.counts, other))
    ensures Counted(s, key, now).resetTime >= now
  {
  }

  /** The state after one call for `key` at each time of `times`, in order. */
  function CountedAll(s: CounterState, key: string, times: seq<int>): CounterState
    decreases |times|
  {
    if |times| == 0 then s else CountedAll(Counted(s, key, times[0]), key, times[1..])
  }

  /** Within one window the count is exactly the number of calls: `n` calls
      for a key before `resetTime` raise its count by `n` and do not move the
      window. */
  lemma {:induction false} CountWithinWindow(s: CounterState, key: string, times: seq<int>)
    requires forall i :: 0 <= i < |times| ==> times[i] <= s.resetTime
    ensures CountedAll(s, key, times).resetTime == s.resetTime
    ensures CountOf(CountedAll(s, key, times).counts, key) == CountOf(s.counts, key) + |times|
    decreases |times|
  {
    if |times| > 0 {
      CountWithinWindow(Counted(s, key, times[0]), key, times[1..]);
    }
  }
}
