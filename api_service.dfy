/** The pure parts of the API client: the per-endpoint request limiter, the
    retry schedule of `fetchWithRetry`, and the mappers that turn server
    records into the client's clubs and players. The network calls
    themselves are inputs: each attempt's outcome is given. */
module ApiService {
  import opened Util
  import opened Types
  import opened WindowCounter

  /** Calls per endpoint allowed in one window. */
  const MaxRequests: int := 100

  /** Whether `requestLimiter.check(endpoint)` at `now` lets the call through:
      the count it found was below the limit. */
  predicate Allows(s: CounterState, endpoint: string, now: int) {
    CountOf(Renewed(s, now).counts, endpoint) < MaxRequests
  }

  /** How many of the calls for `endpoint` at `times` are let through. */
  function AllowedCount(s: CounterState, endpoint: string, times: seq<int>): (n: nat)
    ensures n <= |times|
    decreases |times|
  {
    if |times| == 0 then 0
    else
      (if Allows(s, endpoint, times[0]) then 1 else 0)
        + AllowedCount(Counted(s, endpoint, times[0]), endpoint, times[1..])
  }

  /** Within one window an endpoint gets exactly its remaining allowance: the
      first calls up to the limit pass and every later one is refused. */
  lemma {:induction false} AllowedWithinWindow(s: CounterState, endpoint: string, times: seq<int>)
    requires forall i :: 0 <= i < |times| ==> times[i] <= s.resetTime
    ensures var left := if CountOf(s.counts, endpoint) < MaxRequests then MaxRequests - CountOf(s.counts, endpoint) else 0;
      AllowedCount(s, endpoint, times) == if |times| < left then |times| else left
    decreases |times|
  {
    if |times| > 0 {
      AllowedWithinWindow(Counted(s, endpoint, times[0]), endpoint, times[1..]);
    }
  }

  /** So no endpoint gets more than 100 calls through in one window. */
  lemma AtMostMaxPerWindow(s: CounterState, endpoint: string, times: seq<int>)
    requires forall i :: 0 <= i < |times| ==> times[i] <= s.resetTime
    ensures AllowedCount(s, endpoint, times) <= MaxRequests
  {
    AllowedWithinWindow(s, endpoint, times);
  }

  /** `requestLimiter`: the call counts per endpoint and the end of the
      current window. */
  class RequestLimiter {
    var requests: map<string, nat>
    var resetTime: int

    function State(): CounterState
      reads this
    {
      CounterState(requests, resetTime)
    }

    /** The limiter as created at time `now`, the first window ending a minute later. */
    constructor (now: int)
      ensures State() == CounterState(map[], now + WindowMs)
    {
      requests := map[];
      resetTime := now + WindowMs;
    }

    /** `check(endpoint)` at time `now`: renews a passed window, counts the
        call whether or not it is allowed, and allows it while the count it
        found is under the limit. */
    method Check(endpoint: string, now: int) returns (allowed: bool)
      modifies this
      ensures State() == Counted(old(State()), endpoint, now)
      ensures allowed == Allows(old(State()), endpoint, now)
    {
      if now > resetTime {
        requests := map[];
        resetTime := now + WindowMs;
      }
      var count := if endpoint in requests then requests[endpoint] else 0;
      requests := requests[endpoint := count + 1];
      allowed := count < MaxRequests;
    }
  }

  /** The retry budget `fetchWithRetry` starts with. */
  const DefaultRetries: nat := 3

  function Pow2(e: nat): (p: nat)
    ensures p >= 1
  {
    if e == 0 then 1 else 2 * Pow2(e - 1)
  }

  /** `Math.min(1000 * 2 ** (3 - retries), 5000)`: the wait before the retry
      made with `retries` left. */
  function RetryDelay(retries: nat): (ms: int)
    requires 1 <= retries <= DefaultRetries
    ensures 1000 <= ms <= 5000
  {
    var d := 1000 * Pow2(DefaultRetries - retries);
    if d < 5000 then d else 5000
  }

  /** What a run of `fetchWithRetry` did: whether it returned a response, how
      many requests it made, and the waits between them. */
  datatype RetryRun = RetryRun(success: bool, attempts: nat, delays: seq<int>)

  /** `fetchWithRetry(url, options, retries)`: `outcomes[k]` says whether the
      `k`-th attempt got through the limiter with an ok response. A failed
      attempt with retries left waits and tries again with one fewer. */
  function FetchWithRetry(retries: nat, outcomes: seq<bool>): (r: RetryRun)
    requires retries <= DefaultRetries
    requires |outcomes| > retries
    ensures 1 <= r.attempts <= retries + 1
    ensures |r.delays| == r.attempts - 1
    ensures forall k :: 0 <= k < |r.delays| ==> r.delays[k] == RetryDelay(retries - k)
    decreases retries
  {
    if outcomes[0] then RetryRun(true, 1, [])
    else if retries > 0 then
      var rest := FetchWithRetry(retries - 1, outcomes[1..]);
      RetryRun(rest.success, rest.attempts + 1, [RetryDelay(retries)] + rest.delays)
    else RetryRun(false, 1, [])
  }

  /** The run stops at the first attempt that works: it succeeds exactly when
      one of the allowed attempts works, every attempt before the last one
      failed, and a failed run used up every retry. */
  lemma {:induction false} FetchWithRetryStopsAtFirst(retries: nat, outcomes: seq<bool>)
    requires retries <= DefaultRetries
    requires |outcomes| > retries
    ensures var r := FetchWithRetry(retries, outcomes);
      && (r.success <==> exists k :: 0 <= k <= retries && outcomes[k])
      && (forall k :: 0 <= k < r.attempts - 1 ==> !outcomes[k])
      && (r.success ==> outcomes[r.attempts - 1])
      && (!r.success ==> r.attempts == retries + 1)
    decreases retries
  {
    if !outcomes[0] && retries > 0 {
      FetchWithRetryStopsAtFirst(retries - 1, outcomes[1..]);
      var r := FetchWithRetry(retries, outcomes);
      if exists k :: 0 <= k <= retries && outcomes[k] {
        var k :| 0 <= k <= retries && outcomes[k];
        assert outcomes[1..][k - 1] == outcomes[k];
      }
      forall k | 0 <= k < r.attempts - 1
        ensures !outcomes[k]
      {
        if k > 0 {
          assert outcomes[1..][k - 1] == outcomes[k];
        }
      }
    }
  }

  /** With the default budget the waits are one, two and four seconds, so a
      run that fails every time makes four requests and waits seven seconds. */
  lemma DefaultSchedule(outcomes: seq<bool>)
    requires |outcomes| > DefaultRetries
    requires forall k :: 0 <= k < |outcomes| ==> !outcomes[k]
    ensures FetchWithRetry(DefaultRetries, outcomes) == RetryRun(false, 4, [1000, 2000, 4000])
  {
    var r := FetchWithRetry(DefaultRetries, outcomes);
    FetchWithRetryStopsAtFirst(DefaultRetries, outcomes);
    assert r.delays == [RetryDelay(3), RetryDelay(2), RetryDelay(1)];
  }

  /** A club as the server sends it. */
  datatype ClubRecord = ClubRecord(id: int, name: string, logoUrl: Option<string>)

  /** A player of the general list as the server sends it. */
  datatype PlayerRecord = PlayerRecord(name: string, avatarUrl: Option<string>)

  /** A player of a club's roster as the server sends it. */
  datatype RosterRecord = RosterRecord(id: int, name: string, avatarUrl: Option<string>)

  /** `value || ''` on an optional URL. */
  function UrlOrEmpty(url: Option<string>): string {
    if url.Some? then url.value else ""
  }

  /** The mapper in `fetchClubs`. */
  function MapClubs(records: seq<ClubRecord>): (clubs: seq<Club>)
    ensures |clubs| == |records|
    ensures forall i :: 0 <= i < |records| ==>
      clubs[i] == Club(IntToString(records[i].id), records[i].name, UrlOrEmpty(records[i].logoUrl))
  {
    seq(|records|, i requires 0 <= i < |records| =>
      Club(IntToString(records[i].id), records[i].name, UrlOrEmpty(records[i].logoUrl)))
  }

  /** The mapper in `fetchPlayers`: ids are positions counted from one, and
      every player is put in club `'1'`. */
  function MapPlayers(records: seq<PlayerRecord>): (players: seq<Player>)
    ensures |players| == |records|
    ensures forall i :: 0 <= i < |records| ==>
      players[i] == Player(NatToString(i + 1), records[i].name, UrlOrEmpty(records[i].avatarUrl), "1")
  {
    seq(|records|, i requires 0 <= i < |records| =>
      Player(NatToString(i + 1), records[i].name, UrlOrEmpty(records[i].avatarUrl), "1"))
  }

  /** The mapper in `fetchPlayersByClub`: the server's id in decimal, and the
      requested club's id. */
  function MapClubPlayers(records: seq<RosterRecord>, clubId: string): (players: seq<Player>)
    ensures |players| == |records|
    ensures forall i :: 0 <= i < |records| ==>
      players[i] == Player(IntToString(records[i].id), records[i].name, UrlOrEmpty(records[i].avatarUrl), clubId)
  {
    seq(|records|, i requires 0 <= i < |records| =>
      Player(IntToString(records[i].id), records[i].name, UrlOrEmpty(records[i].avatarUrl), clubId))
  }

  /** Players of the general list get pairwise distinct ids, so the game's
      by-id lookups find the right one. */
  lemma MapPlayersDistinctIds(records: seq<PlayerRecord>)
    ensures var players := MapPlayers(records);
      forall i, j :: 0 <= i < j < |players| ==> players[i].id != players[j].id
  {
    var players := MapPlayers(records);
    forall i, j | 0 <= i < j < |players|
      ensures players[i].id != players[j].id
    {
      NatToStringInjective(i + 1, j + 1);
    }
  }

  /** A roster whose records have distinct ids maps to players with distinct
      ids, all in the requested club. */
  lemma MapClubPlayersDistinctIds(records: seq<RosterRecord>, clubId: string)
    requires forall i, j :: 0 <= i < j < |records| ==> records[i].id != records[j].id
    ensures var players := MapClubPlayers(records, clubId);
      && (forall i, j :: 0 <= i < j < |players| ==> players[i].id != players[j].id)
      && (forall i :: 0 <= i < |players| ==> players[i].clubId == clubId)
  {
    var players := MapClubPlayers(records, clubId);
    forall i, j | 0 <= i < j < |players|
      ensures players[i].id != players[j].id
    {
      IntToStringInjective(records[i].id, records[j].id);
    }
  }

  /** Club ids read back as the server's numbers: every mapped id of a
      non-negative server id is its decimal form, digits only. */
  lemma MapClubsIds(records: seq<ClubRecord>, i: nat)
    requires i < |records| && records[i].id >= 0
    ensures AllDigits(MapClubs(records)[i].id)
    ensures DecimalValue(MapClubs(records)[i].id) == records[i].id
  {
    DecimalRoundTrip(records[i].id);
  }
}
